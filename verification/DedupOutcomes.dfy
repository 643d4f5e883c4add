/** The whole decision of deduplication in terms of history and rows: no bands, no pages, no loops. */
module DedupOutcomes {
  import opened Options
  import opened Vectors
  import opened ZSets
  import opened Bits
  import opened Bands
  import opened BandStore
  import opened StageOne
  import opened RedisCache
  import opened Dedup
  import opened DedupRuns
  import Naturals
  import SimHash
  import Timeline

  /** A registration of the last three days reads almost the same: it differs in at most three of the 128 bits,
      and all its bands got through or one that both share. */
  predicate ReadsTheSame(cfg: Config, log: seq<Registration>, x: nat, now: real) {
    exists i :: 0 <= i < |log| && Near(log[i], x, now) && (log[i].missing == {} || SharesRegistered(cfg.bands, log[i], x))
  }

  lemma BlockedExactly(cfg: Config, log: seq<Registration>, x: nat, now: real)
    requires History(log, now) && Fingerprint(x)
    ensures IsBlocked(cfg.bands, log, x, now) <==> ReadsTheSame(cfg, log, x, now)
  {
    forall i | 0 <= i < |log|
      ensures Blocks(cfg.bands, log[i], x, now)
         <==> Near(log[i], x, now) && (log[i].missing == {} || SharesRegistered(cfg.bands, log[i], x))
    {
      HammingIsDifferingBits(x, log[i].fp, 128);
    }
    if r :| r in log && Blocks(cfg.bands, r, x, now) {
      var i :| 0 <= i < |log| && log[i] == r;
      assert Blocks(cfg.bands, log[i], x, now);
    }
    if i :| 0 <= i < |log| && Near(log[i], x, now) && (log[i].missing == {} || SharesRegistered(cfg.bands, log[i], x)) {
      assert log[i] in log && Blocks(cfg.bands, log[i], x, now);
    }
  }

  // ---- the recent articles -----------------------------------------------------------------

  /** `h` is among the hundred newest of the timeline, and its embedding has not expired. */
  predicate Recent(s: State, h: string, now: real) {
    h in s.timeline && |Timeline.Better(s.timeline, h)| < 100 && h in s.embeddings && s.embeddings[h].expiry > now
  }

  lemma RecentExactly(s: State, h: string, now: real)
    ensures h in RecentEmbeddings(s.timeline, s.embeddings, now) <==> Recent(s, h, now)
    ensures Recent(s, h, now) ==> RecentEmbeddings(s.timeline, s.embeddings, now)[h] == s.embeddings[h].value
  {
    RankedIsRanking(s.timeline);
    if h in s.timeline { Timeline.KeptByRank(s.timeline, 100, h); }
    SliceMembers(Ranked(s.timeline), 100);
  }

  lemma SliceMembers(ids: seq<string>, n: nat)
    ensures forall h :: h in Slice(ids, 0, n) ==> h in ids
  {
  }

  /** A stored article is at least as similar as the threshold, or a recent one that has no row is more similar. */
  predicate MeansTheSame(cfg: Config, s: State, q: Request, e: Vec) {
    || (exists u :: u in s.articles && |s.articles[u].embedding| == |e|
                    && Cosine(cfg.norm, e, s.articles[u].embedding) >= cfg.cosine)
    || (exists h :: h in s.embeddings && h != q.urlHash && h !in s.articles && Recent(s, h, q.at) && |s.embeddings[h].value| == |e|
                    && Cosine(cfg.norm, e, s.embeddings[h].value) > cfg.cosine)
  }

  lemma CloseMeansTheSame(cfg: Config, s: State, q: Request, e: Vec, now: real, dim: nat)
    requires Consistent(cfg, s, now, dim) && q.urlHash !in s.articles
    ensures Close(cfg, Remember(s, q, e), q, e) <==> MeansTheSame(cfg, s, q, e)
  {
    var t := Remember(s, q, e);
    CloseExactly(cfg, s, q, e, now, dim);
    forall h | h != q.urlHash
      ensures Recent(t, h, q.at) == Recent(s, h, q.at)
      ensures h in RecentEmbeddings(t.timeline, t.embeddings, q.at) <==> Recent(s, h, q.at)
      ensures Recent(s, h, q.at) ==> RecentEmbeddings(t.timeline, t.embeddings, q.at)[h] == s.embeddings[h].value
    {
      RecentExactly(t, h, q.at);
    }
    if StoredDuplicate(cfg, s.articles, e) {
      var u :| u in s.articles && AtLeastAsClose(cfg, e, s.articles[u].embedding);
      assert MeansTheSame(cfg, s, q, e);
    }
    if OrphanDuplicate(cfg, t, q, e) {
      var recent := RecentEmbeddings(t.timeline, t.embeddings, q.at);
      var h :| h in recent && h != q.urlHash && h !in t.articles && CloserThan(cfg, e, recent[h]);
      assert Recent(s, h, q.at);
    }
    if MeansTheSame(cfg, s, q, e) { SameIsFound(cfg, s, q, e); }
  }

  lemma SameIsFound(cfg: Config, s: State, q: Request, e: Vec)
    requires MeansTheSame(cfg, s, q, e)
    ensures StoredDuplicate(cfg, s.articles, e) || OrphanDuplicate(cfg, Remember(s, q, e), q, e)
  {
    var t := Remember(s, q, e);
    if u :| u in s.articles && |s.articles[u].embedding| == |e| && Cosine(cfg.norm, e, s.articles[u].embedding) >= cfg.cosine {
      assert AtLeastAsClose(cfg, e, s.articles[u].embedding);
    } else {
      var h :| h in s.embeddings && h != q.urlHash && h !in s.articles && Recent(s, h, q.at) && |s.embeddings[h].value| == |e|
        && Cosine(cfg.norm, e, s.embeddings[h].value) > cfg.cosine;
      RecentExactly(t, h, q.at);
      assert CloserThan(cfg, e, RecentEmbeddings(t.timeline, t.embeddings, q.at)[h]);
    }
  }

  // ---- the decision ------------------------------------------------------------------------

  /** The decision, check by check in the order in which they are made. */
  ghost function Verdict(cfg: Config, s: State, q: Request): Outcome {
    if q.fault.AtStart? then Interrupted
    else if q.urlHash in s.articles then AlreadyStored
    else if ReadsTheSame(cfg, s.log, SimHash.Compute(cfg.md5, q.words), q.at) then SimHashDuplicate
    else if q.embedding.None? || |q.embedding.value| == 0 then NoEmbedding
    else if q.fault.AfterEmbedding? then Interrupted
    else if MeansTheSame(cfg, s, q, q.embedding.value) then VectorDuplicate
    else if q.fault.DuringBands? || q.fault.AfterTimeline? then Interrupted
    else if q.fault.AfterRow? then Unannounced
    else Unique
  }

  /** After any run of one worker, with failures anywhere, and with enough bands: every outcome of the next
      request is decided by the registrations, the rows and the recent articles alone. */
  lemma OutcomesExactly(cfg: Config, qs: seq<Request>, now: real, dim: nat, q: Request)
    requires cfg.bands.Valid() && EnoughBands(cfg.bands.count, cfg.bands.stride, HAMMING_THRESHOLD)
    requires OneClock(now, qs + [q]) && OfDimension(dim, qs)
    ensures Decide(cfg, Run(cfg, EMPTY, qs), q).1 == Verdict(cfg, Run(cfg, EMPTY, qs), q)
  {
    var s := Run(cfg, EMPTY, qs);
    ClockPrefix(now, qs, q);
    GoodRun(cfg, EMPTY, qs, now, dim);
    ConsistentLater(cfg, s, LastAt(now, qs), q.at, dim);
    FlaggedReadsTheSame(cfg, s, q);
    if q.urlHash !in s.articles && q.embedding.Some? {
      CloseMeansTheSame(cfg, s, q, q.embedding.value, q.at, dim);
    }
    DecidesByChecks(cfg, s, q);
  }

  lemma FlaggedReadsTheSame(cfg: Config, s: State, q: Request)
    requires cfg.bands.Valid() && EnoughBands(cfg.bands.count, cfg.bands.stride, HAMMING_THRESHOLD)
    requires History(s.log, q.at) && s.bands == StoreOf(cfg.bands, s.log)
    ensures Flagged(cfg.bands, s.bands, FingerprintOf(cfg, q), q.at) <==> ReadsTheSame(cfg, s.log, FingerprintOf(cfg, q), q.at)
  {
    NotFlaggedIsNew(cfg, s, q);
    SimHash.BitIsMajority(cfg.md5, q.words, 0);
    BlockedExactly(cfg, s.log, FingerprintOf(cfg, q), q.at);
  }

  lemma DecidesByChecks(cfg: Config, s: State, q: Request)
    requires Flagged(cfg.bands, s.bands, FingerprintOf(cfg, q), q.at) <==> ReadsTheSame(cfg, s.log, FingerprintOf(cfg, q), q.at)
    requires q.urlHash !in s.articles && q.embedding.Some? ==>
      (Close(cfg, Remember(s, q, q.embedding.value), q, q.embedding.value) <==> MeansTheSame(cfg, s, q, q.embedding.value))
    ensures Decide(cfg, s, q).1 == Verdict(cfg, s, q)
  {
  }

  // ---- what it stores ----------------------------------------------------------------------

  /** An accepted article's row holds its embedding and the low 64 bits of its fingerprint; the other rows stay. */
  lemma AcceptedRow(cfg: Config, s: State, q: Request)
    requires Decide(cfg, s, q).1 == Unique || Decide(cfg, s, q).1 == Unannounced
    ensures var t := Decide(cfg, s, q).0;
      && q.urlHash in t.articles && t.articles[q.urlHash].urlHash == q.urlHash
      && q.embedding == Some(t.articles[q.urlHash].embedding)
      && (forall b: nat :: Bit(t.articles[q.urlHash].simhash, b)
            <==> b < 64 && Bit(SimHash.Compute(cfg.md5, q.words), b))
      && forall u :: u != q.urlHash ==> (u in t.articles <==> u in s.articles) && (u in s.articles ==> t.articles[u] == s.articles[u])
  {
    forall b: nat
      ensures Bit(Low(SimHash.Compute(cfg.md5, q.words), 64), b) <==> b < 64 && Bit(SimHash.Compute(cfg.md5, q.words), b)
    {
      BitOfLow(SimHash.Compute(cfg.md5, q.words), 64, b);
    }
  }

  /** Its place on the timeline is the time of the request, unless a thousand are newer; and its registration
      has its whole fingerprint. */
  lemma AcceptedTraces(cfg: Config, s: State, q: Request)
    requires Decide(cfg, s, q).1 == Unique || Decide(cfg, s, q).1 == Unannounced
    ensures var t := Decide(cfg, s, q).0;
      && t.log == s.log + [Registration(q.urlHash, SimHash.Compute(cfg.md5, q.words), q.at, {})]
      && (q.urlHash in t.timeline ==> t.timeline[q.urlHash] == q.at)
      && (q.urlHash !in t.timeline ==> |t.timeline| == 1000)
  {
    Timeline.AddKeepsBest(s.timeline, q.urlHash, q.at);
    Timeline.KeptNoMore(s.timeline[q.urlHash := q.at], Timeline.AddTrimmed(s.timeline, q.urlHash, q.at));
    AllKept(s.timeline[q.urlHash := q.at], Timeline.AddTrimmed(s.timeline, q.urlHash, q.at), q.urlHash);
  }

  lemma AllKept(full: ZSet, kept: ZSet, h: string)
    requires kept.Keys <= full.Keys && h in full
    ensures h !in kept ==> |kept| < |full|
  {
    if h !in kept { Naturals.SubsetSize(kept.Keys, full.Keys - {h}); }
  }

  predicate StopsEarly(q: Request, o: Outcome) {
    q.fault.AtStart? || o == AlreadyStored || o == SimHashDuplicate || o == NoEmbedding
  }

  /** A request that stops before its embedding changes nothing at all. */
  lemma EarlyStopChangesNothing(cfg: Config, s: State, q: Request)
    ensures StopsEarly(q, Decide(cfg, s, q).1) ==> Decide(cfg, s, q).0 == s
  {
    if q.embedding.Some? { MeaningIsNotEarly(cfg, s, q, RegistrationOf(cfg, q), q.embedding.value); }
  }

  lemma MeaningIsNotEarly(cfg: Config, s: State, q: Request, r: Registration, e: Vec)
    ensures var o := DecideByMeaning(cfg, s, q, r, e).1; o != AlreadyStored && o != SimHashDuplicate && o != NoEmbedding
  {
  }

  /** Every embedding that was computed is cached for a day, whatever becomes of its article. */
  lemma EmbeddingIsCached(cfg: Config, s: State, q: Request)
    requires !StopsEarly(q, Decide(cfg, s, q).1)
    ensures q.embedding.Some?
    ensures Decide(cfg, s, q).0.embeddings == s.embeddings[q.urlHash := Cached(q.embedding.value, q.at + 86400.0)]
  {
    MeaningCachesEmbedding(cfg, s, q, RegistrationOf(cfg, q), q.embedding.value);
  }

  lemma MeaningCachesEmbedding(cfg: Config, s: State, q: Request, r: Registration, e: Vec)
    ensures DecideByMeaning(cfg, s, q, r, e).0.embeddings == s.embeddings[q.urlHash := Cached(e, q.at + 86400.0)]
  {
    var t := Remember(s, q, e);
    assert t.embeddings == s.embeddings[q.urlHash := Cached(e, q.at + 86400.0)];
    if !q.fault.AfterEmbedding? && !Close(cfg, t, q, e) { StoreKeepsEmbeddings(cfg, t, r, e, q.fault); }
  }

  lemma StoreKeepsEmbeddings(cfg: Config, s: State, r: Registration, e: Vec, fault: Fault)
    ensures Store(cfg, s, r, e, fault).embeddings == s.embeddings
  {
  }

  /** A duplicate by meaning leaves nothing else behind. */
  lemma DuplicateLeavesNothingElse(cfg: Config, s: State, q: Request)
    requires Decide(cfg, s, q).1 == VectorDuplicate
    ensures var t := Decide(cfg, s, q).0;
      t.bands == s.bands && t.log == s.log && t.timeline == s.timeline && t.articles == s.articles
  {
  }
}

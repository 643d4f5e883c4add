/** What a whole single-worker run of deduplication guarantees, with handlers that may die or meet a
    failing store after any effect or within the band pipeline, and which articles that loses. */
module DedupRuns {
  import opened Options
  import opened Vectors
  import opened ZSets
  import opened Bits
  import opened Bands
  import opened BandStore
  import opened StageOne
  import opened RedisCache
  import opened Dedup
  import SimHash
  import Timeline

  // ---- runs --------------------------------------------------------------------------------

  function Run(cfg: Config, s: State, qs: seq<Request>): State
    decreases |qs|
  {
    if qs == [] then s else Run(cfg, Decide(cfg, s, qs[0]).0, qs[1..])
  }

  predicate OneClock(now: real, qs: seq<Request>)
    decreases |qs|
  {
    qs == [] || (now <= qs[0].at && OneClock(qs[0].at, qs[1..]))
  }

  predicate OfDimension(dim: nat, qs: seq<Request>) {
    forall i :: 0 <= i < |qs| && qs[i].embedding.Some? && qs[i].embedding.value != [] ==> |qs[i].embedding.value| == dim
  }

  /** The stores are exactly the history: bands, rows, timeline and cached embeddings. */
  ghost predicate Consistent(cfg: Config, s: State, now: real, dim: nat) {
    History(s.log, now) && s.bands == StoreOf(cfg.bands, s.log) && RowsFollow(s, dim)
  }

  ghost predicate RowsFollow(s: State, dim: nat) {
    && (forall u :: u in s.articles ==> |s.articles[u].embedding| == dim)
    && (forall u :: u in s.articles && u in s.embeddings ==> s.embeddings[u].value == s.articles[u].embedding)
  }

  /** No two stored articles mean the same. */
  ghost predicate ApartInMeaning(cfg: Config, s: State) {
    forall u, v :: u in s.articles && v in s.articles && u != v
      ==> !AtLeastAsClose(cfg, s.articles[u].embedding, s.articles[v].embedding)
  }

  /** No bands were registered while an earlier registration that stage 1 could find read almost the same. */
  ghost predicate ApartInText(cfg: Config, s: State) {
    forall i, j :: 0 <= i < j < |s.log| ==> !Blocks(cfg.bands, s.log[i], s.log[j].fp, s.log[j].at)
  }

  ghost predicate Good(cfg: Config, s: State, now: real, dim: nat) {
    && Consistent(cfg, s, now, dim) && ApartInMeaning(cfg, s)
    && (cfg.bands.Valid() && EnoughBands(cfg.bands.count, cfg.bands.stride, HAMMING_THRESHOLD) ==> ApartInText(cfg, s))
  }

  lemma ConsistentLater(cfg: Config, s: State, now: real, later: real, dim: nat)
    requires Consistent(cfg, s, now, dim) && now <= later
    ensures Consistent(cfg, s, later, dim)
  {
  }

  lemma RememberKeeps(cfg: Config, s: State, q: Request, e: Vec, dim: nat)
    requires Consistent(cfg, s, q.at, dim) && q.urlHash !in s.articles
    ensures Consistent(cfg, Remember(s, q, e), q.at, dim)
  {
  }

  lemma StoreKeeps(cfg: Config, s: State, r: Registration, e: Vec, fault: Fault, dim: nat)
    requires Consistent(cfg, s, r.at, dim) && r.urlHash !in s.articles && |e| == dim && Fingerprint(r.fp)
    requires r.urlHash in s.embeddings && s.embeddings[r.urlHash].value == e
    ensures Consistent(cfg, Store(cfg, s, r, e, fault), r.at, dim)
  {
    var b := WithBands(cfg, s, r);
    BandsKeep(cfg, s, r, dim);
    if !fault.DuringBands? {
      TimelineKeeps(cfg, b, r, dim);
      if !fault.AfterTimeline? { RowKeeps(cfg, WithTimeline(b, r), r, e, dim); }
    }
  }

  lemma BandsKeep(cfg: Config, s: State, r: Registration, dim: nat)
    requires Consistent(cfg, s, r.at, dim) && Fingerprint(r.fp)
    ensures Consistent(cfg, WithBands(cfg, s, r), r.at, dim)
  {
    LogGrows(cfg.bands, s.log, r, r.at);
  }

  lemma TimelineKeeps(cfg: Config, s: State, r: Registration, dim: nat)
    requires Consistent(cfg, s, r.at, dim)
    ensures Consistent(cfg, WithTimeline(s, r), r.at, dim)
  {
  }

  lemma RowKeeps(cfg: Config, s: State, r: Registration, e: Vec, dim: nat)
    requires Consistent(cfg, s, r.at, dim) && |e| == dim
    requires r.urlHash in s.embeddings && s.embeddings[r.urlHash].value == e
    ensures Consistent(cfg, WithRow(s, r, e), r.at, dim)
  {
  }

  lemma LogGrows(bands: Settings, log: seq<Registration>, r: Registration, now: real)
    requires History(log, now) && r.at == now && Fingerprint(r.fp)
    ensures History(log + [r], now)
    ensures StoreOf(bands, log + [r])
         == Register(StoreOf(bands, log), Registered(bands, r), Entry(r), SIMHASH_TTL, r.at)
  {
    assert (log + [r])[..|log|] == log;
  }

  lemma StoreStaysApart(cfg: Config, s: State, r: Registration, e: Vec, fault: Fault)
    requires ApartInMeaning(cfg, s) && r.urlHash !in s.articles && !StoredDuplicate(cfg, s.articles, e)
    ensures ApartInMeaning(cfg, Store(cfg, s, r, e, fault))
  {
    var t := Store(cfg, s, r, e, fault);
    forall u, v | u in t.articles && v in t.articles && u != v
      ensures !AtLeastAsClose(cfg, t.articles[u].embedding, t.articles[v].embedding)
    {
      var a, b := t.articles[u].embedding, t.articles[v].embedding;
      if |a| == |b| { CosineSym(cfg.norm, a, b); }
      if u == r.urlHash { assert v in s.articles; } else if v == r.urlHash { assert u in s.articles; }
    }
  }

  lemma StoreStaysUnread(cfg: Config, s: State, r: Registration, e: Vec, fault: Fault)
    requires ApartInText(cfg, s) && !IsBlocked(cfg.bands, s.log, r.fp, r.at)
    ensures ApartInText(cfg, Store(cfg, s, r, e, fault))
  {
    var t := Store(cfg, s, r, e, fault);
    assert t.log == s.log + [r];
    forall i, j | 0 <= i < j < |t.log| ensures !Blocks(cfg.bands, t.log[i], t.log[j].fp, t.log[j].at) {
      assert t.log[i] == s.log[i] && s.log[i] in s.log;
    }
  }

  lemma GoodStep(cfg: Config, s: State, q: Request, now: real, dim: nat)
    requires Good(cfg, s, now, dim) && now <= q.at
    requires q.embedding.Some? && q.embedding.value != [] ==> |q.embedding.value| == dim
    ensures Good(cfg, Decide(cfg, s, q).0, q.at, dim)
  {
    ConsistentLater(cfg, s, now, q.at, dim);
    if Registers(cfg, s, q) {
      GoodStore(cfg, s, q, dim);
    } else if Decide(cfg, s, q).0 != s {
      RememberKeeps(cfg, s, q, q.embedding.value, dim);
    }
  }

  lemma GoodStore(cfg: Config, s: State, q: Request, dim: nat)
    requires Good(cfg, s, q.at, dim) && Registers(cfg, s, q) && |q.embedding.value| == dim
    ensures Good(cfg, Decide(cfg, s, q).0, q.at, dim)
  {
    var e, r := q.embedding.value, RegistrationOf(cfg, q);
    var m := Remember(s, q, e);
    SimHash.BitIsMajority(cfg.md5, q.words, 0);
    RememberKeeps(cfg, s, q, e, dim);
    StoreKeeps(cfg, m, r, e, q.fault, dim);
    StoreStaysApart(cfg, m, r, e, q.fault);
    if cfg.bands.Valid() && EnoughBands(cfg.bands.count, cfg.bands.stride, HAMMING_THRESHOLD) {
      NotFlaggedIsNew(cfg, s, q);
      StoreStaysUnread(cfg, m, r, e, q.fault);
    }
  }

  /** The request gets as far as the registration of its bands. */
  predicate Registers(cfg: Config, s: State, q: Request) {
    && !q.fault.AtStart? && q.urlHash !in s.articles
    && !Flagged(cfg.bands, s.bands, FingerprintOf(cfg, q), q.at)
    && q.embedding.Some? && q.embedding.value != [] && !q.fault.AfterEmbedding?
    && !Close(cfg, Remember(s, q, q.embedding.value), q, q.embedding.value)
  }

  /** In particular: no bands were registered within 3 bits of an earlier live registration of which
      enough bands, or all, got through. */
  lemma ApartFromFindable(cfg: Config, s: State, i: nat, j: nat, now: real)
    requires cfg.bands.Valid() && History(s.log, now) && ApartInText(cfg, s) && i < j < |s.log|
    requires ':' !in s.log[i].urlHash && Unexpired(s.log[i], s.log[j].at)
    requires s.log[i].missing == {} || EnoughLeft(cfg.bands, s.log[i])
    ensures HammingDistance(s.log[j].fp, s.log[i].fp) > HAMMING_THRESHOLD
  {
    assert !Blocks(cfg.bands, s.log[i], s.log[j].fp, s.log[j].at);
    if s.log[i].missing != {} && HammingDistance(s.log[j].fp, s.log[i].fp) <= HAMMING_THRESHOLD {
      EnoughLeftIsFound(cfg.bands, s.log[i], s.log[j].fp);
    }
  }

  lemma NotFlaggedIsNew(cfg: Config, s: State, q: Request)
    requires cfg.bands.Valid() && EnoughBands(cfg.bands.count, cfg.bands.stride, HAMMING_THRESHOLD)
    requires History(s.log, q.at) && s.bands == StoreOf(cfg.bands, s.log)
    ensures Flagged(cfg.bands, s.bands, FingerprintOf(cfg, q), q.at) <==> IsBlocked(cfg.bands, s.log, FingerprintOf(cfg, q), q.at)
  {
    SimHash.BitIsMajority(cfg.md5, q.words, 0);
    FlaggedExactly(cfg.bands, s.log, FingerprintOf(cfg, q), q.at);
  }

  /** The time of the last request. */
  function LastAt(now: real, qs: seq<Request>): real
    decreases |qs|
  {
    if qs == [] then now else LastAt(qs[0].at, qs[1..])
  }

  lemma {:induction false} GoodRun(cfg: Config, s: State, qs: seq<Request>, now: real, dim: nat)
    requires Good(cfg, s, now, dim) && OneClock(now, qs) && OfDimension(dim, qs)
    ensures Good(cfg, Run(cfg, s, qs), LastAt(now, qs), dim)
    decreases |qs|
  {
    if qs != [] {
      GoodStep(cfg, s, qs[0], now, dim);
      var rest := qs[1..];
      assert forall i :: 0 <= i < |rest| ==> rest[i] == qs[i + 1];
      GoodRun(cfg, Decide(cfg, s, qs[0]).0, rest, qs[0].at, dim);
    }
  }

  /** After any run of one worker on one clock: stored articles are pairwise below the cosine
      threshold, and, with enough bands, an article was accepted only if it differs in more than 3
      bits from each unexpired earlier registration that is whole or shares a band that got through. */
  lemma RunKeepsArticlesApart(cfg: Config, qs: seq<Request>, now: real, dim: nat)
    requires OneClock(now, qs) && OfDimension(dim, qs)
    ensures var s := Run(cfg, EMPTY, qs);
      && ApartInMeaning(cfg, s)
      && (cfg.bands.Valid() && EnoughBands(cfg.bands.count, cfg.bands.stride, HAMMING_THRESHOLD) ==> ApartInText(cfg, s))
  {
    GoodRun(cfg, EMPTY, qs, now, dim);
  }

  /** An interrupted article is close: it is on the first timeline page but has no row. */
  predicate OrphanDuplicate(cfg: Config, s: State, q: Request, e: Vec) {
    var recent := RecentEmbeddings(s.timeline, s.embeddings, q.at);
    exists h :: h in recent && h != q.urlHash && h !in s.articles && CloserThan(cfg, e, recent[h])
  }

  /** What the recent-embedding tier finds, the table query finds too, except for articles that were
      interrupted after the timeline. */
  lemma CloseExactly(cfg: Config, s: State, q: Request, e: Vec, now: real, dim: nat)
    requires Consistent(cfg, s, now, dim) && q.urlHash !in s.articles
    ensures var t := Remember(s, q, e);
      Close(cfg, t, q, e) <==> StoredDuplicate(cfg, s.articles, e) || OrphanDuplicate(cfg, t, q, e)
  {
    var t := Remember(s, q, e);
    var recent := RecentEmbeddings(t.timeline, t.embeddings, q.at);
    if HotDuplicate(cfg, t.timeline, t.embeddings, q.urlHash, e, q.at) {
      var h :| h in recent && h != q.urlHash && CloserThan(cfg, e, recent[h]);
      if h in t.articles { assert AtLeastAsClose(cfg, e, t.articles[h].embedding); }
    }
    if OrphanDuplicate(cfg, t, q, e) {
      var h :| h in recent && h != q.urlHash && h !in t.articles && CloserThan(cfg, e, recent[h]);
      assert AnyClose(cfg, recent, q.urlHash, e);
    }
  }

  /** The whole decision without bands, caches or pages: an uninterrupted article is accepted exactly
      when its URL is new, no unexpired registration is within 3 bits, it has an embedding, and neither a
      stored nor a recent interrupted article is too close. */
  lemma AcceptsExactly(cfg: Config, qs: seq<Request>, now: real, dim: nat, q: Request)
    requires cfg.bands.Valid() && EnoughBands(cfg.bands.count, cfg.bands.stride, HAMMING_THRESHOLD)
    requires OneClock(now, qs + [q]) && OfDimension(dim, qs) && q.fault.NoFault?
    ensures var s := Run(cfg, EMPTY, qs);
      Decide(cfg, s, q).1 == Unique <==>
        && q.urlHash !in s.articles
        && !IsBlocked(cfg.bands, s.log, FingerprintOf(cfg, q), q.at)
        && q.embedding.Some? && q.embedding.value != []
        && !StoredDuplicate(cfg, s.articles, q.embedding.value)
        && !OrphanDuplicate(cfg, Remember(s, q, q.embedding.value), q, q.embedding.value)
  {
    var s := Run(cfg, EMPTY, qs);
    ClockPrefix(now, qs, q);
    GoodRun(cfg, EMPTY, qs, now, dim);
    ConsistentLater(cfg, s, LastAt(now, qs), q.at, dim);
    NotFlaggedIsNew(cfg, s, q);
    if q.urlHash !in s.articles && q.embedding.Some? {
      CloseExactly(cfg, s, q, q.embedding.value, q.at, dim);
    }
  }

  predicate NoOrphans(s: State) {
    s.timeline.Keys <= s.articles.Keys
  }

  lemma NoOrphansStep(cfg: Config, s: State, q: Request)
    requires NoOrphans(s) && !q.fault.AfterTimeline?
    ensures NoOrphans(Decide(cfg, s, q).0)
  {
    if Registers(cfg, s, q) {
      AddTrimmedMembers(s.timeline, q.urlHash, q.at);
      var r, m := RegistrationOf(cfg, q), Remember(s, q, q.embedding.value);
      assert Decide(cfg, s, q).0 == Store(cfg, m, r, q.embedding.value, q.fault);
    }
  }

  lemma AddTrimmedMembers(z: ZSet, hash: string, timestamp: real)
    ensures forall h :: h in Timeline.AddTrimmed(z, hash, timestamp) ==> h in z || h == hash
  {
  }

  lemma {:induction false} NoOrphansRun(cfg: Config, s: State, qs: seq<Request>)
    requires NoOrphans(s) && forall i :: 0 <= i < |qs| ==> !qs[i].fault.AfterTimeline?
    ensures NoOrphans(Run(cfg, s, qs))
    decreases |qs|
  {
    if qs != [] {
      NoOrphansStep(cfg, s, qs[0]);
      var rest := qs[1..];
      assert forall i :: 0 <= i < |rest| ==> rest[i] == qs[i + 1];
      NoOrphansRun(cfg, Decide(cfg, s, qs[0]).0, rest);
    }
  }

  /** Over runs in which no handler stops between timeline and row, the recent-embedding tier never
      changes a decision: what it finds, the table query finds too. */
  lemma HotTierIsRedundant(cfg: Config, qs: seq<Request>, now: real, dim: nat, q: Request, e: Vec)
    requires OneClock(now, qs) && OfDimension(dim, qs)
    requires forall i :: 0 <= i < |qs| ==> !qs[i].fault.AfterTimeline?
    requires q.urlHash !in Run(cfg, EMPTY, qs).articles
    ensures var s := Run(cfg, EMPTY, qs);
      Close(cfg, Remember(s, q, e), q, e) <==> StoredDuplicate(cfg, s.articles, e)
  {
    var s := Run(cfg, EMPTY, qs);
    GoodRun(cfg, EMPTY, qs, now, dim);
    NoOrphansRun(cfg, EMPTY, qs);
    CloseExactly(cfg, s, q, e, LastAt(now, qs), dim);
    RankedIsRanking(s.timeline);
  }

  lemma {:induction false} ClockPrefix(now: real, qs: seq<Request>, q: Request)
    requires OneClock(now, qs + [q])
    ensures OneClock(now, qs) && LastAt(now, qs) <= q.at
    decreases |qs|
  {
    if qs != [] {
      assert (qs + [q])[1..] == qs[1..] + [q];
      ClockPrefix(qs[0].at, qs[1..], q);
    } else {
      assert (qs + [q])[0] == q;
    }
  }

  // ---- what a failure loses ----------------------------------------------------------------

  lemma {:induction false} RunConcat(cfg: Config, s: State, qs: seq<Request>, more: seq<Request>)
    ensures Run(cfg, s, qs + more) == Run(cfg, Run(cfg, s, qs), more)
    decreases |qs|
  {
    if qs == [] {
      assert qs + more == more;
    } else {
      assert (qs + more)[0] == qs[0] && (qs + more)[1..] == qs[1..] + more;
      RunConcat(cfg, Decide(cfg, s, qs[0]).0, qs[1..], more);
    }
  }

  /** The request stops between the registration of its bands and its row. */
  predicate Orphans(cfg: Config, s: State, q: Request) {
    Registers(cfg, s, q) && (q.fault.DuringBands? || q.fault.AfterTimeline?)
  }

  /** The request comes again with the same text. */
  predicate Retries(q: Request, r: Request) {
    r.urlHash == q.urlHash && r.words == q.words
  }

  lemma SameFingerprint(x: nat)
    requires Fingerprint(x)
    ensures HammingDistance(x, x) == 0
  {
    HammingIsDifferingBits(x, x, FINGERPRINT_BITS);
    assert Differing(x, x, FINGERPRINT_BITS) == {};
  }

  /** At least one band got through. */
  predicate SomeBand(cfg: Settings, r: Registration) {
    !(AllBands(cfg.count) <= r.missing)
  }

  lemma SharesWithItself(cfg: Settings, r: Registration)
    ensures SharesRegistered(cfg, r, r.fp) <==> SomeBand(cfg, r)
  {
    if SomeBand(cfg, r) {
      var i: nat :| i in AllBands(cfg.count) && i !in r.missing;
      assert BandValue(r.fp, i, cfg.stride) == BandValue(r.fp, i, cfg.stride);
    }
  }

  /** Its own registration is in the way until it expires. */
  lemma OwnRegistrationFlags(cfg: Config, s: State, i: nat, r: Request)
    requires cfg.bands.Valid() && History(s.log, r.at) && s.bands == StoreOf(cfg.bands, s.log)
    requires i < |s.log| && s.log[i].urlHash == r.urlHash && s.log[i].fp == FingerprintOf(cfg, r)
    requires ':' !in r.urlHash && r.at < s.log[i].at + SIMHASH_TTL && SomeBand(cfg.bands, s.log[i])
    ensures Flagged(cfg.bands, s.bands, FingerprintOf(cfg, r), r.at)
  {
    var x := FingerprintOf(cfg, r);
    SameFingerprint(x);
    SharesWithItself(cfg.bands, s.log[i]);
    assert NearSharer(cfg.bands, s.log[i], x, r.at);
    FlaggedIsNearSharer(cfg.bands, s.log, x, r.at);
  }

  lemma OrphanStep(cfg: Config, s: State, q: Request, x: Request, i: nat)
    requires cfg.bands.Valid() && History(s.log, x.at) && s.bands == StoreOf(cfg.bands, s.log)
    requires i < |s.log| && s.log[i] == RegistrationOf(cfg, q) && q.urlHash !in s.articles && ':' !in q.urlHash
    requires SomeBand(cfg.bands, s.log[i])
    requires x.urlHash == q.urlHash ==> Retries(q, x) && x.at < q.at + SIMHASH_TTL
    ensures var t := Decide(cfg, s, x).0; q.urlHash !in t.articles && s.log <= t.log
  {
    LogOnlyGrows(cfg, s, x);
    if x.urlHash == q.urlHash {
      assert Flagged(cfg.bands, s.bands, FingerprintOf(cfg, x), x.at) by { OwnRegistrationFlags(cfg, s, i, x); }
      FlaggedIsDropped(cfg, s, x);
    }
  }

  lemma FlaggedIsDropped(cfg: Config, s: State, x: Request)
    ensures Flagged(cfg.bands, s.bands, FingerprintOf(cfg, x), x.at) ==> Decide(cfg, s, x).0 == s
  {
  }

  lemma LogOnlyGrows(cfg: Config, s: State, q: Request)
    ensures var t := Decide(cfg, s, q).0;
      s.log <= t.log && s.articles.Keys <= t.articles.Keys <= s.articles.Keys + {q.urlHash}
  {
    if Registers(cfg, s, q) {
      StoreOnlyGrows(cfg, Remember(s, q, q.embedding.value), RegistrationOf(cfg, q), q.embedding.value, q.fault);
    }
  }

  lemma StoreOnlyGrows(cfg: Config, s: State, r: Registration, e: Vec, fault: Fault)
    ensures var t := Store(cfg, s, r, e, fault);
      s.log <= t.log && s.articles.Keys <= t.articles.Keys <= s.articles.Keys + {r.urlHash}
  {
    assert Store(cfg, s, r, e, fault).log == s.log + [r];
  }

  lemma {:induction false} LogGrowsOverRun(cfg: Config, s: State, qs: seq<Request>)
    ensures s.log <= Run(cfg, s, qs).log && s.articles.Keys <= Run(cfg, s, qs).articles.Keys
    decreases |qs|
  {
    if qs != [] {
      LogOnlyGrows(cfg, s, qs[0]);
      LogGrowsOverRun(cfg, Decide(cfg, s, qs[0]).0, qs[1..]);
    }
  }

  /** Every retry of `q` among `qs` comes before `q`'s registration expires. */
  predicate RetriesInTime(q: Request, qs: seq<Request>) {
    forall i :: 0 <= i < |qs| && qs[i].urlHash == q.urlHash ==> Retries(q, qs[i]) && qs[i].at < q.at + SIMHASH_TTL
  }

  lemma {:induction false} StaysLost(cfg: Config, s: State, q: Request, qs: seq<Request>, i: nat, now: real, dim: nat)
    requires cfg.bands.Valid() && Good(cfg, s, now, dim) && OneClock(now, qs) && OfDimension(dim, qs)
    requires i < |s.log| && s.log[i] == RegistrationOf(cfg, q) && q.urlHash !in s.articles && ':' !in q.urlHash
    requires SomeBand(cfg.bands, s.log[i])
    requires RetriesInTime(q, qs)
    ensures q.urlHash !in Run(cfg, s, qs).articles
    decreases |qs|
  {
    if qs != [] {
      ConsistentLater(cfg, s, now, qs[0].at, dim);
      OrphanStep(cfg, s, q, qs[0], i);
      GoodStep(cfg, s, qs[0], now, dim);
      var rest := qs[1..];
      assert forall k :: 0 <= k < |rest| ==> rest[k] == qs[k + 1];
      StaysLost(cfg, Decide(cfg, s, qs[0]).0, q, rest, i, qs[0].at, dim);
    }
  }

  lemma OrphanIsRegistered(cfg: Config, s: State, q: Request)
    requires Orphans(cfg, s, q)
    ensures var t := Decide(cfg, s, q).0;
      t.log == s.log + [RegistrationOf(cfg, q)] && t.articles == s.articles && q.urlHash !in t.articles
  {
  }

  /** Which articles a failure between bands and row loses: as long as its registration lives, even with a
      single band of it, no retry of the same text stores the article, whatever else happens. */
  lemma FailureLosesArticle(cfg: Config, before: seq<Request>, q: Request, after: seq<Request>, now: real, dim: nat)
    requires cfg.bands.Valid() && ':' !in q.urlHash && Orphans(cfg, Run(cfg, EMPTY, before), q)
    requires SomeBand(cfg.bands, RegistrationOf(cfg, q))
    requires OneClock(now, before) && LastAt(now, before) <= q.at && OneClock(q.at, after)
    requires OfDimension(dim, before) && OfDimension(dim, [q]) && OfDimension(dim, after) && RetriesInTime(q, after)
    ensures q.urlHash !in Run(cfg, EMPTY, before + [q] + after).articles
  {
    var s := Run(cfg, EMPTY, before);
    assert Good(cfg, s, LastAt(now, before), dim) by { GoodRun(cfg, EMPTY, before, now, dim); }
    assert [q][0] == q;
    OrphanStaysLost(cfg, s, q, after, LastAt(now, before), dim);
    RunThrough(cfg, EMPTY, before, q, after);
  }

  lemma OrphanStaysLost(cfg: Config, s: State, q: Request, after: seq<Request>, now: real, dim: nat)
    requires cfg.bands.Valid() && ':' !in q.urlHash && Orphans(cfg, s, q) && Good(cfg, s, now, dim) && now <= q.at
    requires SomeBand(cfg.bands, RegistrationOf(cfg, q))
    requires |q.embedding.value| == dim && OneClock(q.at, after) && OfDimension(dim, after) && RetriesInTime(q, after)
    ensures q.urlHash !in Run(cfg, Decide(cfg, s, q).0, after).articles
  {
    GoodStep(cfg, s, q, now, dim);
    OrphanIsRegistered(cfg, s, q);
    StaysLost(cfg, Decide(cfg, s, q).0, q, after, |s.log|, q.at, dim);
  }

  lemma RunThrough(cfg: Config, s: State, before: seq<Request>, q: Request, after: seq<Request>)
    ensures Run(cfg, s, before + [q] + after) == Run(cfg, Decide(cfg, Run(cfg, s, before), q).0, after)
  {
    RunConcat(cfg, s, before + [q], after);
    RunConcat(cfg, s, before, [q]);
    var t := Run(cfg, s, before);
    assert [q][1..] == [];
    assert Run(cfg, t, [q]) == Run(cfg, Decide(cfg, t, q).0, []);
  }

  function Others(log: seq<Registration>, i: nat): seq<Registration>
    requires i < |log|
  {
    log[..i] + log[i + 1..]
  }

  /** The exact fate of one retry whose article is not stored: it is dropped as a duplicate exactly while
      its own earlier registration lives, if any band of it got through, or when another one blocks it. */
  lemma RetryIsDroppedExactly(cfg: Config, s: State, i: nat, r: Request, now: real, dim: nat)
    requires cfg.bands.Valid() && EnoughBands(cfg.bands.count, cfg.bands.stride, HAMMING_THRESHOLD)
    requires Good(cfg, s, now, dim) && now <= r.at && r.urlHash !in s.articles && !r.fault.AtStart? && ':' !in r.urlHash
    requires i < |s.log| && s.log[i].urlHash == r.urlHash && s.log[i].fp == FingerprintOf(cfg, r)
    ensures Decide(cfg, s, r).1 == SimHashDuplicate
       <==> || (r.at < s.log[i].at + SIMHASH_TTL && SomeBand(cfg.bands, s.log[i]))
            || IsBlocked(cfg.bands, Others(s.log, i), FingerprintOf(cfg, r), r.at)
  {
    var x := FingerprintOf(cfg, r);
    ConsistentLater(cfg, s, now, r.at, dim);
    NotFlaggedIsNew(cfg, s, r);
    OwnBlocks(cfg.bands, s.log[i], r.at);
    BlockedWithOthers(cfg.bands, s.log, i, x, r.at);
  }

  lemma OwnBlocks(cfg: Settings, r: Registration, now: real)
    requires cfg.Valid() && ':' !in r.urlHash && Fingerprint(r.fp)
    ensures Blocks(cfg, r, r.fp, now) <==> now < r.at + SIMHASH_TTL && SomeBand(cfg, r)
  {
    SameFingerprint(r.fp);
    SharesWithItself(cfg, r);
    if r.missing == {} { assert 0 in AllBands(cfg.count); }
  }

  lemma BlockedWithOthers(cfg: Settings, log: seq<Registration>, i: nat, x: nat, now: real)
    requires i < |log|
    ensures IsBlocked(cfg, log, x, now) <==> Blocks(cfg, log[i], x, now) || IsBlocked(cfg, Others(log, i), x, now)
  {
    assert log == log[..i] + [log[i]] + log[i + 1..];
    assert forall r :: r in log <==> r == log[i] || r in Others(log, i);
  }

  /** A handler that fails after its row was saved leaves the article unannounced for ever: every
      later request for it stops at the stored row. */
  lemma UnannouncedForEver(cfg: Config, s: State, q: Request, more: seq<Request>, r: Request)
    requires Decide(cfg, s, q).1 == Unannounced && r.urlHash == q.urlHash && !r.fault.AtStart?
    ensures Decide(cfg, Run(cfg, Decide(cfg, s, q).0, more), r).1 == AlreadyStored
  {
    var t := Decide(cfg, s, q).0;
    assert q.urlHash in t.articles;
    LogGrowsOverRun(cfg, t, more);
  }
}

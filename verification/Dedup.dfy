/** Two-stage deduplication: the decision on one article, with the points where a store or the bus can
    fail, and the service that carries it out. */
module Dedup {
  import opened Options
  import opened Vectors
  import opened Text
  import opened ZSets
  import opened Bits
  import opened Bands
  import opened BandStore
  import opened StageOne
  import opened RedisCache
  import SimHash
  import Timeline

  const EMBED_TTL: real := 86400.0
  const HOT_LIMIT: nat := 100
  /** The row keeps only the low half of a fingerprint; the bands keep all of it. */
  const ROW_BITS: nat := 64

  /** After which effect the handler dies or a call raises, if it gets that far; the pipeline of band
      registrations can also break off with some bands missing. */
  datatype Fault = NoFault | AtStart | AfterEmbedding | DuringBands(missing: set<nat>) | AfterTimeline | AfterRow

  /** An extracted article: its words after normalisation, what the embedding model returned, and the
      fault that meets its handler. */
  datatype Request = Request(urlHash: string, words: seq<string>, embedding: Option<Vec>, at: real, fault: Fault)

  datatype Article = Article(urlHash: string, simhash: nat, embedding: Vec)

  /** An interrupted article has no row; an unannounced one has, but its event was not published. */
  datatype Outcome =
    | AlreadyStored | SimHashDuplicate | NoEmbedding | VectorDuplicate | Unique | Interrupted | Unannounced

  /** Band settings, cosine threshold, and the two library functions the service relies on. */
  datatype Config = Config(bands: Settings, cosine: real, norm: Vec -> real, md5: string -> nat)

  /** The stores; `log` is the history of band registrations and is never read. */
  datatype State = State(bands: RedisBands, timeline: ZSet, embeddings: map<string, Cached<Vec>>,
                         articles: map<string, Article>, log: seq<Registration>)

  const EMPTY := State(map[], map[], map[], map[], [])

  // ---- one decision ------------------------------------------------------------------------

  function FingerprintOf(cfg: Config, q: Request): nat {
    SimHash.Compute(cfg.md5, q.words)
  }

  predicate CloserThan(cfg: Config, a: Vec, b: Vec) {
    |a| == |b| && Cosine(cfg.norm, a, b) > cfg.cosine
  }

  predicate AtLeastAsClose(cfg: Config, a: Vec, b: Vec) {
    |a| == |b| && Cosine(cfg.norm, a, b) >= cfg.cosine
  }

  /** The hashes on the first timeline page. */
  function HotHashes(timeline: ZSet): seq<string> {
    Slice(Ranked(timeline), 0, HOT_LIMIT)
  }

  function RecentEmbeddings(timeline: ZSet, embeddings: map<string, Cached<Vec>>, now: real): map<string, Vec> {
    map h | h in HotHashes(timeline) && h in LiveObjects(embeddings, now) :: LiveObjects(embeddings, now)[h]
  }

  predicate AnyClose(cfg: Config, recent: map<string, Vec>, url: string, e: Vec) {
    exists h :: h in recent && h != url && CloserThan(cfg, e, recent[h])
  }

  /** Tier 4a: an unexpired cached embedding of a recent article is too close. */
  predicate HotDuplicate(cfg: Config, timeline: ZSet, embeddings: map<string, Cached<Vec>>, url: string, e: Vec, now: real) {
    AnyClose(cfg, RecentEmbeddings(timeline, embeddings, now), url, e)
  }

  /** Tier 4b: the exact nearest-neighbour query over the articles table finds a row. */
  predicate StoredDuplicate(cfg: Config, articles: map<string, Article>, e: Vec) {
    exists u :: u in articles && AtLeastAsClose(cfg, e, articles[u].embedding)
  }

  predicate Close(cfg: Config, s: State, q: Request, e: Vec) {
    HotDuplicate(cfg, s.timeline, s.embeddings, q.urlHash, e, q.at) || StoredDuplicate(cfg, s.articles, e)
  }

  function Remember(s: State, q: Request, e: Vec): State {
    s.(embeddings := s.embeddings[q.urlHash := Cached(e, q.at + EMBED_TTL)])
  }

  function WithBands(cfg: Config, s: State, r: Registration): State {
    s.(bands := Register(s.bands, Registered(cfg.bands, r), Entry(r), SIMHASH_TTL, r.at), log := s.log + [r])
  }

  function WithTimeline(s: State, r: Registration): State {
    s.(timeline := Timeline.AddTrimmed(s.timeline, r.urlHash, r.at))
  }

  function WithRow(s: State, r: Registration, e: Vec): State {
    s.(articles := s.articles[r.urlHash := Article(r.urlHash, Low(r.fp, ROW_BITS), e)])
  }

  /** What acceptance stores, up to the fault. */
  function Store(cfg: Config, s: State, r: Registration, e: Vec, fault: Fault): State {
    var banded := WithBands(cfg, s, r);
    if fault.DuringBands? then banded
    else if fault.AfterTimeline? then WithTimeline(banded, r)
    else WithRow(WithTimeline(banded, r), r, e)
  }

  function StoreOutcome(fault: Fault): Outcome {
    if fault.DuringBands? || fault.AfterTimeline? then Interrupted
    else if fault.AfterRow? then Unannounced
    else Unique
  }

  function RegistrationOf(cfg: Config, q: Request): Registration {
    Registration(q.urlHash, FingerprintOf(cfg, q), q.at, MissingOf(q.fault))
  }

  function MissingOf(fault: Fault): set<nat> {
    if fault.DuringBands? then fault.missing else {}
  }

  function Decide(cfg: Config, s: State, q: Request): (State, Outcome) {
    if q.fault.AtStart? then (s, Interrupted)
    else if q.urlHash in s.articles then (s, AlreadyStored)
    else if Flagged(cfg.bands, s.bands, FingerprintOf(cfg, q), q.at) then (s, SimHashDuplicate)
    else if q.embedding.None? || q.embedding.value == [] then (s, NoEmbedding)
    else DecideByMeaning(cfg, s, q, RegistrationOf(cfg, q), q.embedding.value)
  }

  function DecideByMeaning(cfg: Config, s: State, q: Request, r: Registration, e: Vec): (State, Outcome) {
    var t := Remember(s, q, e);
    if q.fault.AfterEmbedding? then (t, Interrupted)
    else if Close(cfg, t, q, e) then (t, VectorDuplicate)
    else (Store(cfg, t, r, e, q.fault), StoreOutcome(q.fault))
  }

  // ---- the service -------------------------------------------------------------------------

  class DedupService {
    const cfg: Config
    const cache: RedisCacheStore
    var articles: map<string, Article>
    ghost var log: seq<Registration>

    constructor (cfg: Config)
      ensures this.cfg == cfg && fresh(cache) && Model() == EMPTY && Valid()
    {
      this.cfg := cfg;
      cache := new RedisCacheStore();
      articles, log := map[], [];
    }

    ghost function Model(): State
      reads this, cache
    {
      State(cache.bands, cache.timeline, cache.embeddings, articles, log)
    }

    /** The band sets hold only what this service registers. */
    ghost predicate Valid()
      reads this, cache
    {
      ReadableStore(cache.bands)
    }

    /** `process_article`. */
    method Process(q: Request) returns (outcome: Outcome)
      requires Valid()
      modifies this`articles, this`log, cache
      ensures Valid()
      ensures Model() == Decide(cfg, old(Model()), q).0
      ensures outcome == Decide(cfg, old(Model()), q).1
    {
      if q.fault.AtStart? { return Interrupted; }
      if q.urlHash in articles { return AlreadyStored; }
      var fp := SimHash.ComputeSimHash(cfg.md5, q.words);
      var isSimHashDuplicate := CheckStageOne(fp, q.at);
      if isSimHashDuplicate { return SimHashDuplicate; }
      if q.embedding.None? || q.embedding.value == [] { return NoEmbedding; }
      outcome := ProcessByMeaning(q, Registration(q.urlHash, fp, q.at, MissingOf(q.fault)), q.embedding.value);
    }

    method ProcessByMeaning(q: Request, r: Registration, e: Vec) returns (outcome: Outcome)
      requires Valid() && r.urlHash == q.urlHash && r.at == q.at
      modifies this`articles, this`log, cache
      ensures Valid()
      ensures Model() == DecideByMeaning(cfg, old(Model()), q, r, e).0
      ensures outcome == DecideByMeaning(cfg, old(Model()), q, r, e).1
    {
      cache.CacheEmbedding(q.urlHash, e, EMBED_TTL, q.at);
      assert Model() == Remember(old(Model()), q, e);
      if q.fault.AfterEmbedding? { return Interrupted; }
      var isVectorDuplicate := CheckStageTwo(q, e);
      if isVectorDuplicate { return VectorDuplicate; }
      outcome := RegisterUnique(r, e, q.fault);
    }

    method CheckStageOne(fp: nat, now: real) returns (duplicate: bool)
      requires Valid()
      ensures duplicate == Flagged(cfg.bands, cache.bands, fp, now)
    {
      var bands := GetBands(fp, cfg.bands.count, cfg.bands.stride);
      var collisions := cache.CheckSimhashBands(bands, now);
      LookupIsReadable(cache.bands, bands, now);
      var duplicateOf, _, raised := FindDuplicate(fp, collisions);
      duplicate := duplicateOf.Some?;
    }

    method CheckStageTwo(q: Request, e: Vec) returns (duplicate: bool)
      ensures duplicate == Close(cfg, Model(), q, e)
    {
      var hot := cache.GetTimeline(0, HOT_LIMIT);
      assert hot == HotHashes(cache.timeline);
      var recent := cache.GetCachedEmbeddings(hot, q.at);
      assert recent == RecentEmbeddings(cache.timeline, cache.embeddings, q.at);
      duplicate := FindClose(cfg, recent, q.urlHash, e);
      if !duplicate {
        var nearest := Search(cfg, articles, e);
        duplicate := nearest.Some?;
      }
    }

    /** Bands, as far as their pipeline gets, timeline and row, in this order. */
    method RegisterUnique(r: Registration, e: Vec, fault: Fault) returns (outcome: Outcome)
      requires Valid()
      modifies this`articles, this`log, cache`bands, cache`timeline
      ensures Valid()
      ensures Model() == Store(cfg, old(Model()), r, e, fault) && outcome == StoreOutcome(fault)
    {
      RegisterBands(r);
      if fault.DuringBands? { return Interrupted; }
      cache.AddToTimeline(r.urlHash, r.at);
      if fault.AfterTimeline? { return Interrupted; }
      articles := articles[r.urlHash := Article(r.urlHash, Low(r.fp, ROW_BITS), e)];
      outcome := if fault.AfterRow? then Unannounced else Unique;
    }

    method RegisterBands(r: Registration)
      requires Valid()
      modifies this`log, cache`bands
      ensures Valid() && Model() == WithBands(cfg, old(Model()), r)
    {
      var entry := r.urlHash + COLON + Hex(r.fp);
      var all := GetBands(r.fp, cfg.bands.count, cfg.bands.stride);
      var bands := all - r.missing;
      assert bands == Registered(cfg.bands, r);
      RegisteringKeepsReadable(cfg.bands, cache.bands, r);
      cache.AddSimhashBands(entry, bands, SIMHASH_TTL, r.at);
      log := log + [r];
    }
  }

  /** The loop over the recent embeddings. */
  method FindClose(cfg: Config, recent: map<string, Vec>, url: string, e: Vec) returns (found: bool)
    ensures found == AnyClose(cfg, recent, url, e)
  {
    var todo := recent.Keys;
    while todo != {}
      invariant todo <= recent.Keys
      invariant forall h :: h in recent && h !in todo && h != url ==> !CloserThan(cfg, e, recent[h])
      decreases todo
    {
      var h :| h in todo;
      if h != url && CloserThan(cfg, e, recent[h]) { return true; }
      todo := todo - {h};
    }
    found := false;
  }

  /** `search_by_embedding(limit=1)`, taken as exact: a nearest row, if one reaches the threshold. */
  method Search(cfg: Config, articles: map<string, Article>, e: Vec) returns (nearest: Option<string>)
    ensures nearest.Some? <==> StoredDuplicate(cfg, articles, e)
    ensures nearest.Some? ==> nearest.value in articles && AtLeastAsClose(cfg, e, articles[nearest.value].embedding)
    ensures nearest.Some? ==> forall u :: u in articles && AtLeastAsClose(cfg, e, articles[u].embedding) ==>
              Cosine(cfg.norm, e, articles[u].embedding) <= Cosine(cfg.norm, e, articles[nearest.value].embedding)
  {
    nearest := None;
    var todo := articles.Keys;
    while todo != {}
      invariant todo <= articles.Keys
      invariant nearest.Some? ==> nearest.value in articles && AtLeastAsClose(cfg, e, articles[nearest.value].embedding)
      invariant forall u :: u in articles && u !in todo && AtLeastAsClose(cfg, e, articles[u].embedding) ==>
                  nearest.Some?
                  && Cosine(cfg.norm, e, articles[u].embedding) <= Cosine(cfg.norm, e, articles[nearest.value].embedding)
      decreases todo
    {
      var u :| u in todo;
      todo := todo - {u};
      if AtLeastAsClose(cfg, e, articles[u].embedding) {
        if nearest.None?
           || Cosine(cfg.norm, e, articles[u].embedding) > Cosine(cfg.norm, e, articles[nearest.value].embedding) {
          nearest := Some(u);
        }
      }
    }
  }
}

/** The clustering handler as one call, and its place in the protocol: run without interruption it
    is exactly the sequence of one worker's events. */
module ClusterService {
  import opened Options
  import opened Vectors
  import opened Clusters
  import ActiveIndex
  import ZSets
  import RedisCache
  import P = ClusterProtocol

  datatype Outcome =
    | Rejected            // PermanentError on the embedding
    | NotStored           // the article row does not exist
    | Unusable            // the new centroid is NaN and the table refuses it
    | Conflict            // RetryableError after a lost race
    | Failed              // a look-up or the transaction raised
    | Uncached(id: Id)    // committed, but the cache write raised
    | Unannounced(id: Id) // cached, but the event could not be published
    | Clustered(id: Id, isNew: bool)

  /** Which call into a store or the bus raises, if the handler gets that far. */
  datatype Fault = NoFault | Reading | Saving | Caching | Announcing

  /** The shared stores as one handler sees them at one instant. */
  datatype Stores = Stores(db: map<Id, Row>, articles: set<string>, cache: map<Id, Row>, index: ZSets.ZSet)

  /** The cached row to join, if the match is still there when it is read again. */
  ghost function Pick(norm: Vec -> real, s: Stores, e: Vec): Option<Row>
    requires |e| == DIM
  {
    var pick := Choose(norm, ActiveIndex.Page(s.index, s.cache, 0, P.ACTIVE_LIMIT), e);
    if pick.Some? && pick.value in s.cache then Some(s.cache[pick.value]) else None
  }

  /** The id at rank `k` is on the first page of a hundred, alive, and of dimension 384. */
  ghost predicate Seen(s: Stores, k: int) {
    && 0 <= k < |ZSets.Ranked(s.index)| && k < 100
    && ZSets.Ranked(s.index)[k] in s.cache && |s.cache[ZSets.Ranked(s.index)[k]].centroid| == 384
  }

  ghost function Likeness(norm: Vec -> real, s: Stores, e: Vec, k: int): real
    requires |e| == DIM && Seen(s, k)
  {
    Cosine(norm, e, s.cache[ZSets.Ranked(s.index)[k]].centroid)
  }

  /** The cluster at rank `k` is near enough, none is nearer, and none of a higher rank as near. */
  ghost predicate Nearest(norm: Vec -> real, s: Stores, e: Vec, k: int)
    requires |e| == DIM
  {
    && Seen(s, k) && Likeness(norm, s, e, k) >= 0.75
    && (forall j :: Seen(s, j) ==> Likeness(norm, s, e, j) <= Likeness(norm, s, e, k))
    && (forall j :: Seen(s, j) && j < k ==> Likeness(norm, s, e, j) < Likeness(norm, s, e, k))
  }

  ghost predicate Keyed(s: Stores) {
    forall id :: id in s.cache ==> s.cache[id].id == id
  }

  ghost function Seeing(s: Stores): seq<Row> {
    ActiveIndex.Page(s.index, s.cache, 0, P.ACTIVE_LIMIT)
  }

  /** The position on the page of the cluster at rank `k`. */
  ghost function Position(s: Stores, k: nat): nat
    requires k <= |ZSets.Ranked(s.index)|
  {
    |ActiveIndex.Live(ZSets.Ranked(s.index)[..k], s.cache)|
  }

  lemma SeenIsOnPage(s: Stores, k: nat)
    requires k < |ZSets.Ranked(s.index)| && k < 100 && ZSets.Ranked(s.index)[k] in s.cache
    ensures Position(s, k) < |Seeing(s)| && Seeing(s)[Position(s, k)] == s.cache[ZSets.Ranked(s.index)[k]]
    ensures forall j: nat :: j < k && ZSets.Ranked(s.index)[j] in s.cache ==> Position(s, j) < Position(s, k)
  {
    var ids := ZSets.Ranked(s.index);
    var first := FirstHundred(s);
    assert first[..k] == ids[..k];
    ActiveIndex.LivePosition(first, s.cache, k);
    forall j: nat | j < k && ids[j] in s.cache ensures Position(s, j) < Position(s, k) {
      ActiveIndex.LiveOrder(ids, s.cache, j, k);
    }
  }

  lemma FirstHundred(s: Stores) returns (first: seq<string>)
    ensures var ids := ZSets.Ranked(s.index); first == if |ids| > 100 then ids[..100] else ids
    ensures Seeing(s) == ActiveIndex.Live(first, s.cache)
  {
    var ids := ZSets.Ranked(s.index);
    ZSets.PageIsSliceExactly(ids, 0, 100);
    first := ZSets.Slice(ids, 0, 100);
  }

  lemma PageIsSeen(s: Stores, i: nat) returns (k: nat)
    requires i < |Seeing(s)|
    ensures k < |ZSets.Ranked(s.index)| && k < 100 && ZSets.Ranked(s.index)[k] in s.cache && Position(s, k) == i
    ensures Seeing(s)[i] == s.cache[ZSets.Ranked(s.index)[k]]
  {
    var first := FirstHundred(s);
    k := ActiveIndex.LiveIsSomeone(first, s.cache, i);
    assert first[..k] == ZSets.Ranked(s.index)[..k];
    SeenIsOnPage(s, k);
  }

  lemma NearestIsToJoin(norm: Vec -> real, s: Stores, e: Vec, k: nat)
    requires |e| == DIM && Seen(s, k)
    ensures Nearest(norm, s, e, k) <==> ToJoin(norm, Seeing(s), e, Position(s, k))
  {
    var rows, i := Seeing(s), Position(s, k);
    SeenIsOnPage(s, k);
    if Nearest(norm, s, e, k) {
      forall j | 0 <= j < |rows| && |rows[j].centroid| == 384
        ensures Cosine(norm, e, rows[j].centroid) <= Cosine(norm, e, rows[i].centroid)
        ensures j < i ==> Cosine(norm, e, rows[j].centroid) < Cosine(norm, e, rows[i].centroid)
      {
        var l := PageIsSeen(s, j);
        assert Seen(s, l) && Likeness(norm, s, e, l) == Cosine(norm, e, rows[j].centroid);
        if l > k { SeenIsOnPage(s, l); }
      }
    }
    if ToJoin(norm, rows, e, i) {
      forall j | Seen(s, j)
        ensures Likeness(norm, s, e, j) <= Likeness(norm, s, e, k)
        ensures j < k ==> Likeness(norm, s, e, j) < Likeness(norm, s, e, k)
      {
        SeenIsOnPage(s, j);
      }
    }
  }

  /** Which cluster an article joins: the nearest of the hundred most recently active ones that are still
      cached, if its similarity is at least 0.75; of equally near ones the most recently active. */
  lemma PicksExactly(norm: Vec -> real, s: Stores, e: Vec)
    requires |e| == DIM && Keyed(s)
    ensures forall k :: Nearest(norm, s, e, k) ==> Pick(norm, s, e) == Some(s.cache[ZSets.Ranked(s.index)[k]])
    ensures Pick(norm, s, e).Some? <==> exists k :: Nearest(norm, s, e, k)
  {
    var rows := Seeing(s);
    ChoosesExactly(norm, rows, e);
    forall k | Nearest(norm, s, e, k) ensures Pick(norm, s, e) == Some(s.cache[ZSets.Ranked(s.index)[k]]) {
      SeenIsOnPage(s, k);
      NearestIsToJoin(norm, s, e, k);
      assert rows[Position(s, k)].id == ZSets.Ranked(s.index)[k];
    }
    if Pick(norm, s, e).Some? {
      var i :| ToJoin(norm, rows, e, i) && rows[i].id == Choose(norm, rows, e).value;
      var k := PageIsSeen(s, i);
      NearestIsToJoin(norm, s, e, k);
    }
  }

  /** The row to save, unless its centroid has no direction. */
  ghost function NewRow(norm: Vec -> real, cached: Option<Row>, p: Payload, now: Time, newId: Id): Option<Row>
    requires norm(p.embedding) != 0.0
  {
    match cached
    case Some(row) => if Joinable(norm, row, p) then Some(Join(norm, row, p, now)) else None
    case None => Some(Create(norm, newId, p, now))
  }

  ghost function OutcomeOf(norm: Vec -> real, s: Stores, p: Payload, now: Time, newId: Id, fault: Fault): Outcome
    requires ValidEmbedding(p.embedding) ==> norm(p.embedding) != 0.0
  {
    if !ValidEmbedding(p.embedding) then Rejected
    else if fault.Reading? then Failed
    else if p.urlHash !in s.articles then NotStored
    else
      var cached := Pick(norm, s, p.embedding);
      var row := NewRow(norm, cached, p, now, newId);
      if row.None? then Unusable else OutcomeOfSave(s, row.value, cached.None?, fault)
  }

  function OutcomeOfSave(s: Stores, row: Row, isNew: bool, fault: Fault): Outcome {
    if fault.Saving? then Failed
    else if !P.Accepted(s.db, row, isNew) then Conflict
    else if fault.Caching? then Uncached(row.id)
    else if fault.Announcing? then Unannounced(row.id)
    else Clustered(row.id, isNew)
  }

  /** What an outcome leaves: nothing, the row, or the row and its cached copy. */
  function Stored(s: Stores, row: Row, o: Outcome): Stores {
    match o
    case Uncached(_) => s.(db := P.Upsert(s.db, row))
    case Unannounced(_) => InCache(s.(db := P.Upsert(s.db, row)), row)
    case Clustered(_, _) => InCache(s.(db := P.Upsert(s.db, row)), row)
    case _ => s
  }

  function InCache(s: Stores, row: Row): Stores {
    s.(cache := s.cache[row.id := row], index := s.index[row.id := row.lastActivity])
  }

  ghost function After(norm: Vec -> real, s: Stores, p: Payload, now: Time, newId: Id, fault: Fault): Stores
    requires ValidEmbedding(p.embedding) ==> norm(p.embedding) != 0.0
  {
    var o := OutcomeOf(norm, s, p, now, newId, fault);
    if o.Uncached? || o.Unannounced? || o.Clustered? then
      Stored(s, NewRow(norm, Pick(norm, s, p.embedding), p, now, newId).value, o)
    else s
  }

  // ---- outcomes, in the stores' terms ------------------------------------------------------

  predicate Refused(p: Payload) {
    |p.embedding| != 384 || forall i :: 0 <= i < |p.embedding| ==> p.embedding[i] == 0.0
  }

  /** The article is stored and its cluster's new row can be computed. */
  ghost predicate Saves(norm: Vec -> real, s: Stores, p: Payload, fault: Fault)
    requires |p.embedding| == DIM
  {
    && !fault.Reading? && p.urlHash in s.articles
    && (Pick(norm, s, p.embedding).None? || Joinable(norm, Pick(norm, s, p.embedding).value, p))
  }

  /** A join that finds a row of its own version or a later one, and not its own version and stamp. */
  predicate LosesRace(s: Stores, cached: Row, now: Time) {
    && cached.id in s.db && s.db[cached.id].version >= cached.version + 1
    && !(s.db[cached.id].version == cached.version + 1 && s.db[cached.id].lastActivity == now)
  }

  /** Exactly when each call ends how: the checks in the order in which they are made. */
  lemma OutcomesExactly(norm: Vec -> real, s: Stores, p: Payload, now: Time, newId: Id, fault: Fault)
    requires ValidEmbedding(p.embedding) ==> norm(p.embedding) != 0.0
    ensures var o := OutcomeOf(norm, s, p, now, newId, fault);
      && (o.Rejected? <==> Refused(p))
      && (o.NotStored? <==> !Refused(p) && !fault.Reading? && p.urlHash !in s.articles)
      && (o.Unusable? <==> !Refused(p) && !fault.Reading? && p.urlHash in s.articles && !Saves(norm, s, p, fault))
      && (o.Failed? <==> !Refused(p) && (fault.Reading? || (Saves(norm, s, p, fault) && fault.Saving?)))
    ensures !Refused(p) && Saves(norm, s, p, fault) && !fault.Saving? ==>
      var o, pick := OutcomeOf(norm, s, p, now, newId, fault), Pick(norm, s, p.embedding);
      var id := if pick.Some? then pick.value.id else newId;
      if pick.Some? && LosesRace(s, pick.value, now) then o == Conflict
      else if fault.Caching? then o == Uncached(id)
      else if fault.Announcing? then o == Unannounced(id)
      else o == Clustered(id, pick.None?)
  {
  }

  /** What each ending of the transaction leaves in the stores. */
  lemma EffectsExactly(s: Stores, row: Row, isNew: bool, fault: Fault)
    ensures var o := OutcomeOfSave(s, row, isNew, fault);
      var t := Stored(s, row, o);
      if o.Failed? || o.Conflict? then t == s
      else
        && t.articles == s.articles
        && t.db == (if row.id in s.db && s.db[row.id].version >= row.version then s.db else s.db[row.id := row])
        && t.cache == (if o.Uncached? then s.cache else s.cache[row.id := row])
        && t.index == (if o.Uncached? then s.index else s.index[row.id := row.lastActivity])
  {
  }

  /** A call that does not get as far as its transaction changes nothing. */
  lemma EarlyEndsChangeNothing(norm: Vec -> real, s: Stores, p: Payload, now: Time, newId: Id, fault: Fault)
    requires ValidEmbedding(p.embedding) ==> norm(p.embedding) != 0.0
    ensures Refused(p) || !Saves(norm, s, p, fault) ==> After(norm, s, p, now, newId, fault) == s
  {
  }

  class Handler {
    const cache: RedisCache.RedisCacheStore
    /** The clusters table, and the url hashes of the articles table. */
    var db: map<Id, Row>
    var articles: set<string>

    constructor (cache: RedisCache.RedisCacheStore)
      ensures this.cache == cache && db == map[] && articles == {}
    {
      this.cache := cache;
      db, articles := map[], {};
    }

    ghost function View(now: Time): Stores
      reads this, cache
    {
      Stores(db, articles, RedisCache.LiveObjects(cache.clusters, now), cache.active)
    }

    /** The look-ups: the active clusters, the best match, and the matched cluster once more. */
    method Match(norm: Vec -> real, e: Vec, now: Time) returns (cached: Option<Row>)
      requires |e| == DIM
      ensures cached == Pick(norm, View(now), e)
    {
      var rows := cache.GetActiveClusters(0, P.ACTIVE_LIMIT, now);
      var choice, _ := BestMatch(norm, rows, e);
      cached := None;
      if choice.Some? { cached := cache.GetCluster(choice.value, now); }
    }

    /** The transaction, and the cache write after it. */
    method Commit(row: Row, isNew: bool, now: Time, fault: Fault) returns (outcome: Outcome)
      modifies this`db, cache`clusters, cache`active
      ensures outcome == OutcomeOfSave(old(View(now)), row, isNew, fault)
      ensures View(now) == Stored(old(View(now)), row, outcome)
    {
      if fault.Saving? { return Failed; }
      var accepted := P.Accepted(db, row, isNew);
      if !accepted { return Conflict; }
      db := P.Upsert(db, row);
      if fault.Caching? { return Uncached(row.id); }
      ghost var before := cache.clusters;
      cache.SetCluster(row.id, row, true, now);
      RedisCache.WriteIsLive(before, row.id, row, now + 86400.0, now);
      outcome := if fault.Announcing? then Unannounced(row.id) else Clustered(row.id, isNew);
    }

    /** All of the call takes place at one instant. */
    method ProcessArticle(norm: Vec -> real, p: Payload, now: Time, newId: Id, fault: Fault) returns (outcome: Outcome)
      requires ValidEmbedding(p.embedding) ==> norm(p.embedding) != 0.0
      modifies this`db, cache`clusters, cache`active
      ensures outcome == OutcomeOf(norm, old(View(now)), p, now, newId, fault)
      ensures View(now) == After(norm, old(View(now)), p, now, newId, fault)
    {
      if |p.embedding| != DIM || IsZero(p.embedding) { return Rejected; }
      if fault.Reading? { return Failed; }
      var cached := Match(norm, p.embedding, now);
      var row := Updated(norm, cached, p, now, newId);
      if p.urlHash !in articles { return NotStored; }
      if row.None? { return Unusable; }
      outcome := Commit(row.value, cached.None?, now, fault);
    }
  }

  /** The row to save: the cached cluster updated in place, or a new one. */
  method Updated(norm: Vec -> real, cached: Option<Row>, p: Payload, now: Time, newId: Id) returns (row: Option<Row>)
    requires norm(p.embedding) != 0.0
    ensures row == NewRow(norm, cached, p, now, newId)
  {
    if cached.Some? {
      if |cached.value.centroid| != |p.embedding| { return None; }
      var cluster := new Cluster.FromRow(cached.value);
      var finite := cluster.Absorb(norm, p, now);
      row := if finite then Some(cluster.ToRow()) else None;
    } else {
      var cluster := new Cluster.New(norm, newId, p, now);
      row := Some(cluster.ToRow());
    }
  }

  // ---- the call in the protocol ------------------------------------------------------------

  function StoresOf(s: P.State): Stores {
    Stores(s.db, s.articles, s.cache, s.index)
  }

  predicate Settles(o: Outcome) {
    o.Rejected? || o.NotStored? || o.Clustered?
  }

  predicate By(ev: P.Event, w: P.Worker) {
    match ev
    case Reject(v) => v == w
    case ReadActive(v) => v == w
    case ReadCluster(v, _, _) => v == w
    case Missing(v) => v == w
    case Transact(v) => v == w
    case WriteCache(v) => v == w
    case Finish(v) => v == w
    case Fail(v) => v == w
    case _ => false
  }

  /** From `s`, events of worker `w` alone lead to `t`. */
  ghost predicate RunsBy(norm: Vec -> real, s: P.State, t: P.State, evs: seq<P.Event>, w: P.Worker) {
    P.Run(norm, s, evs) && P.Exec(norm, s, evs) == t && forall ev <- evs :: By(ev, w)
  }

  lemma Then(norm: Vec -> real, s: P.State, t: P.State, evs: seq<P.Event>, ev: P.Event, w: P.Worker) returns (more: seq<P.Event>)
    requires RunsBy(norm, s, t, evs, w) && P.Enabled(norm, t, ev) && By(ev, w)
    ensures more == evs + [ev] && RunsBy(norm, s, P.Apply(norm, t, ev), more, w)
  {
    more := evs + [ev];
    P.RunAppend(norm, s, evs, ev);
  }

  predicate Ready(s: P.State, w: P.Worker, newId: Id) {
    P.Known(s, w) && s.workers[w].Received? && newId !in s.usedIds
  }

  /** `t` holds the stores after the call; the worker is free, and the message done if it settled. */
  ghost predicate Agrees(norm: Vec -> real, s: P.State, w: P.Worker, now: Time, newId: Id, fault: Fault, t: P.State)
    requires Ready(s, w, newId)
    requires ValidEmbedding(P.PayloadOf(s, s.workers[w].token).embedding)
         ==> norm(P.PayloadOf(s, s.workers[w].token).embedding) != 0.0
  {
    var p := P.PayloadOf(s, s.workers[w].token);
    && StoresOf(t) == After(norm, StoresOf(s), p, now, newId, fault)
    && Leaves(s, w, t, OutcomeOf(norm, StoresOf(s), p, now, newId, fault))
  }

  predicate Leaves(s: P.State, w: P.Worker, t: P.State, o: Outcome)
    requires P.Known(s, w)
  {
    var m := s.workers[w].token.msg;
    && t.workers == s.workers - {w}
    && t.queue == s.queue[m := s.queue[m].(done := s.queue[m].done || Settles(o))]
  }

  ghost function Matched(norm: Vec -> real, s: P.State, w: P.Worker): P.State
    requires P.Known(s, w) && ValidEmbedding(P.PayloadOf(s, s.workers[w].token).embedding)
  {
    var t := s.workers[w].token;
    var rows := ActiveIndex.Page(s.index, s.cache, 0, P.ACTIVE_LIMIT);
    s.(workers := s.workers[w := P.Matched(t, Choose(norm, rows, P.PayloadOf(s, t).embedding))])
  }

  /** What the protocol's two reads leave: a prepared row, or a stuck worker. */
  predicate Reads(s: P.State, b: P.State, w: P.Worker, row: Option<Row>, isNew: bool)
    requires P.Known(s, w)
  {
    && StoresOf(b) == StoresOf(s) && b.queue == s.queue
    && b.workers == if row.None? then s.workers[w := P.Stuck(s.workers[w].token)]
                    else s.workers[w := P.Prepared(s.workers[w].token, row.value, isNew)]
  }

  lemma ReadsNewRow(norm: Vec -> real, s: P.State, w: P.Worker, now: Time, newId: Id)
    requires Ready(s, w, newId) && ValidEmbedding(P.PayloadOf(s, s.workers[w].token).embedding)
    requires norm(P.PayloadOf(s, s.workers[w].token).embedding) != 0.0
    ensures var p := P.PayloadOf(s, s.workers[w].token);
      var pick := Pick(norm, StoresOf(s), p.embedding);
      Reads(s, P.Read(norm, Matched(norm, s, w), w, now, newId), w, NewRow(norm, pick, p, now, newId), pick.None?)
  {
    var rows := ActiveIndex.Page(s.index, s.cache, 0, P.ACTIVE_LIMIT);
    ReadsMatched(norm, s, w, Choose(norm, rows, P.PayloadOf(s, s.workers[w].token).embedding), now, newId);
  }

  lemma ReadsMatched(norm: Vec -> real, s: P.State, w: P.Worker, choice: Option<Id>, now: Time, newId: Id)
    requires P.Known(s, w) && norm(P.PayloadOf(s, s.workers[w].token).embedding) != 0.0
    ensures var a := s.(workers := s.workers[w := P.Matched(s.workers[w].token, choice)]);
      var cached := if choice.Some? && choice.value in s.cache then Some(s.cache[choice.value]) else None;
      Reads(s, P.Read(norm, a, w, now, newId), w,
            NewRow(norm, cached, P.PayloadOf(s, s.workers[w].token), now, newId), cached.None?)
  {
    var a := s.(workers := s.workers[w := P.Matched(s.workers[w].token, choice)]);
    assert a.workers - {w} == s.workers - {w};
    assert P.Joins(a, w) <==> choice.Some? && choice.value in s.cache;
  }

  /** The call does to the stores, and to the message, exactly what events of its worker do when no
      other event comes between them. */
  lemma CallIsARun(norm: Vec -> real, s: P.State, w: P.Worker, now: Time, newId: Id, fault: Fault)
    returns (evs: seq<P.Event>, t: P.State)
    requires Ready(s, w, newId)
    requires ValidEmbedding(P.PayloadOf(s, s.workers[w].token).embedding)
         ==> norm(P.PayloadOf(s, s.workers[w].token).embedding) != 0.0
    ensures P.Run(norm, s, evs) && P.Exec(norm, s, evs) == t && forall ev <- evs :: By(ev, w)
    ensures Agrees(norm, s, w, now, newId, fault, t)
  {
    var p := P.PayloadOf(s, s.workers[w].token);
    if !ValidEmbedding(p.embedding) {
      assert RunsBy(norm, s, s, [], w);
      evs, t := AckIsARun(norm, s, s, [], w, P.Reject(w));
    } else if fault.Reading? {
      assert RunsBy(norm, s, s, [], w);
      evs, t := FailIsARun(norm, s, s, [], w);
    } else {
      var b;
      evs, b := ReadsAreARun(norm, s, w, now, newId);
      evs, t := ReadsLeadOn(norm, s, b, evs, w, now, newId, fault);
    }
  }

  lemma ReadsLeadOn(norm: Vec -> real, s: P.State, b: P.State, before: seq<P.Event>, w: P.Worker, now: Time, newId: Id, fault: Fault)
    returns (evs: seq<P.Event>, t: P.State)
    requires Ready(s, w, newId) && ValidEmbedding(P.PayloadOf(s, s.workers[w].token).embedding) && !fault.Reading?
    requires norm(P.PayloadOf(s, s.workers[w].token).embedding) != 0.0
    requires RunsBy(norm, s, b, before, w)
    requires var p := P.PayloadOf(s, s.workers[w].token);
      var pick := Pick(norm, StoresOf(s), p.embedding);
      Reads(s, b, w, NewRow(norm, pick, p, now, newId), pick.None?)
    ensures RunsBy(norm, s, t, evs, w) && Agrees(norm, s, w, now, newId, fault, t)
  {
    var p := P.PayloadOf(s, s.workers[w].token);
    var pick := Pick(norm, StoresOf(s), p.embedding);
    var row := NewRow(norm, pick, p, now, newId);
    var outcome := OutcomeOf(norm, StoresOf(s), p, now, newId, fault);
    if p.urlHash !in s.articles {
      assert outcome == NotStored;
      evs, t := AckIsARun(norm, s, b, before, w, P.Missing(w));
    } else if row.None? {
      assert outcome == Unusable;
      evs, t := FailIsARun(norm, s, b, before, w);
    } else {
      assert outcome == OutcomeOfSave(StoresOf(s), row.value, pick.None?, fault);
      evs, t := CommitIsARun(norm, s, b, before, w, row.value, pick.None?, fault);
    }
  }

  /** The handler raises, and its message is released. */
  lemma FailIsARun(norm: Vec -> real, s: P.State, b: P.State, before: seq<P.Event>, w: P.Worker)
    returns (evs: seq<P.Event>, t: P.State)
    requires P.Known(s, w) && RunsBy(norm, s, b, before, w)
    requires w in b.workers && b.workers - {w} == s.workers - {w} && b.queue == s.queue
    ensures RunsBy(norm, s, t, evs, w) && StoresOf(t) == StoresOf(b)
    ensures t.workers == s.workers - {w} && t.queue == s.queue
  {
    evs := Then(norm, s, b, before, P.Fail(w), w);
    t := P.Idle(b, w);
  }

  lemma AckIsARun(norm: Vec -> real, s: P.State, b: P.State, before: seq<P.Event>, w: P.Worker, ev: P.Event)
    returns (evs: seq<P.Event>, t: P.State)
    requires P.Known(s, w) && RunsBy(norm, s, b, before, w) && P.Enabled(norm, b, ev)
    requires ev == P.Reject(w) || ev == P.Missing(w) || ev == P.Finish(w)
    requires b.queue == s.queue
    requires w in b.workers && b.workers[w].token == s.workers[w].token && b.workers - {w} == s.workers - {w}
    ensures RunsBy(norm, s, t, evs, w) && StoresOf(t) == StoresOf(b) && t.workers == s.workers - {w}
    ensures var m := s.workers[w].token.msg; t.queue == s.queue[m := s.queue[m].(done := true)]
  {
    evs := Then(norm, s, b, before, ev, w);
    t := P.Ack(b, w);
  }

  lemma ReadsAreARun(norm: Vec -> real, s: P.State, w: P.Worker, now: Time, newId: Id) returns (evs: seq<P.Event>, b: P.State)
    requires Ready(s, w, newId) && ValidEmbedding(P.PayloadOf(s, s.workers[w].token).embedding)
    requires norm(P.PayloadOf(s, s.workers[w].token).embedding) != 0.0
    ensures RunsBy(norm, s, b, evs, w)
    ensures var p := P.PayloadOf(s, s.workers[w].token);
      var pick := Pick(norm, StoresOf(s), p.embedding);
      Reads(s, b, w, NewRow(norm, pick, p, now, newId), pick.None?)
  {
    assert RunsBy(norm, s, s, [], w);
    evs := Then(norm, s, s, [], P.ReadActive(w), w);
    var a := Matched(norm, s, w);
    assert P.Apply(norm, s, P.ReadActive(w)) == a;
    evs := Then(norm, s, a, evs, P.ReadCluster(w, now, newId), w);
    b := P.Read(norm, a, w, now, newId);
    ReadsNewRow(norm, s, w, now, newId);
  }

  lemma CommitIsARun(norm: Vec -> real, s: P.State, b: P.State, before: seq<P.Event>, w: P.Worker, row: Row, isNew: bool, fault: Fault)
    returns (evs: seq<P.Event>, t: P.State)
    requires P.Known(s, w) && Reads(s, b, w, Some(row), isNew) && RunsBy(norm, s, b, before, w)
    requires P.PayloadOf(s, s.workers[w].token).urlHash in s.articles
    ensures RunsBy(norm, s, t, evs, w)
    ensures var o := OutcomeOfSave(StoresOf(s), row, isNew, fault);
      StoresOf(t) == Stored(StoresOf(s), row, o) && Leaves(s, w, t, o)
  {
    if fault.Saving? {
      evs, t := FailIsARun(norm, s, b, before, w);
    } else {
      evs := Then(norm, s, b, before, P.Transact(w), w);
      var c := P.Save(b, w);
      if P.Accepted(s.db, row, isNew) {
        SavesRow(s, b, w, row, isNew);
        evs, t := CacheIsARun(norm, s, c, evs, w, row, fault);
      } else {
        t := c;
        DropsRow(s, b, w, row, isNew);
      }
    }
  }

  lemma SavesRow(s: P.State, b: P.State, w: P.Worker, row: Row, isNew: bool)
    requires P.Known(s, w) && Reads(s, b, w, Some(row), isNew) && P.Accepted(s.db, row, isNew)
    ensures var c := P.Save(b, w);
      && c.workers == s.workers[w := P.Saved(s.workers[w].token, row)] && c.queue == s.queue
      && StoresOf(c) == StoresOf(s).(db := P.Upsert(s.db, row))
  {
  }

  lemma DropsRow(s: P.State, b: P.State, w: P.Worker, row: Row, isNew: bool)
    requires P.Known(s, w) && Reads(s, b, w, Some(row), isNew) && !P.Accepted(s.db, row, isNew)
    ensures var c := P.Save(b, w);
      c.workers == s.workers - {w} && c.queue == s.queue && StoresOf(c) == StoresOf(s)
  {
    assert b.workers - {w} == s.workers - {w};
  }

  lemma CacheIsARun(norm: Vec -> real, s: P.State, c: P.State, before: seq<P.Event>, w: P.Worker, row: Row, fault: Fault)
    returns (evs: seq<P.Event>, t: P.State)
    requires P.Known(s, w) && RunsBy(norm, s, c, before, w) && c.queue == s.queue
    requires c.workers == s.workers[w := P.Saved(s.workers[w].token, row)]
    ensures RunsBy(norm, s, t, evs, w) && t.workers == s.workers - {w}
    ensures StoresOf(t) == if fault.Caching? then StoresOf(c) else InCache(StoresOf(c), row)
    ensures var m := s.workers[w].token.msg;
      t.queue == if fault.Caching? || fault.Announcing? then s.queue else s.queue[m := s.queue[m].(done := true)]
  {
    if fault.Caching? {
      evs, t := FailIsARun(norm, s, c, before, w);
    } else {
      evs := Then(norm, s, c, before, P.WriteCache(w), w);
      var d := P.PutCache(c, w);
      assert d.workers - {w} == s.workers - {w};
      if fault.Announcing? {
        evs, t := FailIsARun(norm, s, d, evs, w);
      } else {
        evs, t := AckIsARun(norm, s, d, evs, w, P.Finish(w));
      }
    }
  }
}

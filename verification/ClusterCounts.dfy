/** What every run whatsoever keeps: the counts of the table, and how many updates a run has lost. */
module ClusterCounts {
  import opened Options
  import opened Vectors
  import opened Clusters
  import opened ClusterProtocol
  import NatsBus
  import opened Naturals

  // ---- the invariant -----------------------------------------------------------------------

  predicate QueueOk(s: State) {
    && (forall m :: m in s.queue ==> s.queue[m].count <= NatsBus.MAX_DELIVER)
    && (forall t :: t in s.committed ==> t.msg in s.queue && 1 <= t.nth <= s.queue[t.msg].count)
  }

  /** A version is an article count, of no more articles than were accepted. */
  predicate StoredOk(s: State, id: Id)
    requires id in s.db
  {
    && s.db[id].id == id && id in s.usedIds
    && 1 <= s.db[id].version == s.db[id].articleCount <= |Entries(s.ledger, id)|
  }

  predicate CachedOk(s: State, id: Id)
    requires id in s.cache
  {
    && id in s.db && s.cache[id].id == id
    && 1 <= s.cache[id].version == s.cache[id].articleCount <= s.db[id].version
  }

  predicate TokenOk(s: State, ph: Phase) {
    && ph.token.msg in s.queue && 1 <= ph.token.nth <= s.queue[ph.token.msg].count
    && (ph.BeforeCommit() ==> ph.token !in s.committed)
  }

  /** A handler's own copy is at most one version ahead of the table. */
  predicate HeldOk(s: State, ph: Phase) {
    && (ph.Prepared? && ph.isNew ==>
          ph.row.version == ph.row.articleCount == 1 && ph.row.id in s.usedIds && ph.row.id !in s.db)
    && (ph.Prepared? && !ph.isNew ==>
          ph.row.id in s.db && 2 <= ph.row.version == ph.row.articleCount <= s.db[ph.row.id].version + 1)
    && (ph.Saved? ==>
          ph.row.id in s.db && 1 <= ph.row.version == ph.row.articleCount <= s.db[ph.row.id].version)
  }

  predicate HandlerOk(s: State, ph: Phase) {
    TokenOk(s, ph) && HeldOk(s, ph)
  }

  /** Two handlers never share a delivery or a new id. */
  predicate Apart(a: Phase, b: Phase) {
    a.token != b.token && (a.Prepared? && b.Prepared? && a.isNew && b.isNew ==> a.row.id != b.row.id)
  }

  predicate StoresOk(s: State) {
    (forall id :: id in s.db ==> StoredOk(s, id)) && (forall id :: id in s.cache ==> CachedOk(s, id))
  }

  predicate HandlersOk(s: State) {
    forall w :: w in s.workers ==> HandlerOk(s, s.workers[w])
  }

  predicate AllApart(s: State) {
    forall v, w :: v in s.workers && w in s.workers && v != w ==> Apart(s.workers[v], s.workers[w])
  }

  predicate Base(s: State) {
    QueueOk(s) && StoresOk(s) && HandlersOk(s) && AllApart(s)
  }

  // ---- events that leave the table alone ---------------------------------------------------

  /** The queue only gains messages and deliveries; what a message says never changes. */
  predicate QueueGrows(s: State, t: State) {
    forall m :: m in s.queue ==>
      m in t.queue && t.queue[m].payload == s.queue[m].payload && s.queue[m].count <= t.queue[m].count
  }

  /** A handler that stops, or changes phase to `ph`, while all others stay as they are. */
  predicate Moves(s: State, t: State, w: Worker, ph: Option<Phase>) {
    t.workers == if ph.Some? then s.workers[w := ph.value] else s.workers - {w}
  }

  /** The rows and their history are the same, apart from expired cache entries and ids taken. */
  predicate SameStores(s: State, t: State) {
    && t.db == s.db && t.ledger == s.ledger && t.published == s.published && t.committed == s.committed
    && (forall id :: id in t.cache ==> id in s.cache && t.cache[id] == s.cache[id])
    && s.usedIds <= t.usedIds
  }

  lemma StoresKept(s: State, t: State)
    requires StoresOk(s) && SameStores(s, t)
    ensures StoresOk(t)
  {
    forall id | id in t.db ensures StoredOk(t, id) { assert StoredOk(s, id); }
    forall id | id in t.cache ensures CachedOk(t, id) { assert CachedOk(s, id); }
  }

  lemma HandlerKept(s: State, t: State, ph: Phase)
    requires HandlerOk(s, ph) && SameStores(s, t) && QueueGrows(s, t)
    ensures HandlerOk(t, ph)
  {
  }

  lemma HandlerMoves(s: State, t: State, w: Worker, ph: Option<Phase>)
    requires Base(s) && SameStores(s, t) && QueueGrows(s, t) && QueueOk(t) && Moves(s, t, w, ph)
    requires ph.Some? ==> HandlerOk(t, ph.value)
    requires ph.Some? ==> forall v :: v in s.workers && v != w ==> Apart(ph.value, s.workers[v]) && Apart(s.workers[v], ph.value)
    ensures Base(t)
  {
    StoresKept(s, t);
    forall v | v in t.workers ensures HandlerOk(t, t.workers[v]) {
      if v in s.workers && t.workers[v] == s.workers[v] { HandlerKept(s, t, s.workers[v]); }
    }
  }

  lemma NothingMoves(s: State, t: State)
    requires Base(s) && SameStores(s, t) && QueueGrows(s, t) && QueueOk(t) && t.workers == s.workers
    ensures Base(t)
  {
    StoresKept(s, t);
    forall v | v in t.workers ensures HandlerOk(t, t.workers[v]) { HandlerKept(s, t, s.workers[v]); }
  }

  // ---- one lemma for each kind of event ----------------------------------------------------

  lemma BasePublish(norm: Vec -> real, s: State, ev: Event)
    requires Base(s) && Enabled(norm, s, ev) && (ev.Publish? || ev.StoreArticle? || ev.Expire?)
    ensures Base(Apply(norm, s, ev))
  {
    NothingMoves(s, Apply(norm, s, ev));
  }

  lemma BaseDeliver(norm: Vec -> real, s: State, ev: Event)
    requires Base(s) && Enabled(norm, s, ev) && ev.Deliver?
    ensures Base(Apply(norm, s, ev))
  {
    var t := Apply(norm, s, ev);
    HandlerMoves(s, t, ev.w, Some(t.workers[ev.w]));
  }

  lemma BaseIdle(s: State, w: Worker)
    requires Base(s) && w in s.workers
    ensures Base(Idle(s, w))
  {
    HandlerMoves(s, Idle(s, w), w, None);
  }

  lemma BaseAck(s: State, w: Worker)
    requires Base(s) && Known(s, w)
    ensures Base(Ack(s, w))
  {
    HandlerMoves(s, Ack(s, w), w, None);
  }

  lemma BaseReadActive(norm: Vec -> real, s: State, ev: Event)
    requires Base(s) && Enabled(norm, s, ev) && ev.ReadActive?
    ensures Base(Apply(norm, s, ev))
  {
    var t := Apply(norm, s, ev);
    HandlerMoves(s, t, ev.w, Some(t.workers[ev.w]));
  }

  predicate Reading(norm: Vec -> real, s: State, w: Worker) {
    Known(s, w) && s.workers[w].Matched? && norm(PayloadOf(s, s.workers[w].token).embedding) != 0.0
  }

  /** What the handler holds after its read. */
  function AfterRead(norm: Vec -> real, s: State, w: Worker, now: Time, newId: Id): Phase
    requires Reading(norm, s, w)
  {
    var t, p := s.workers[w].token, PayloadOf(s, s.workers[w].token);
    if !Joins(s, w) then Prepared(t, Create(norm, newId, p, now), true)
    else if Joinable(norm, s.cache[s.workers[w].pick.value], p) then
      Prepared(t, Join(norm, s.cache[s.workers[w].pick.value], p, now), false)
    else Stuck(t)
  }

  /** A read changes the handler, and what ids and attempts are taken. */
  lemma ReadMoves(norm: Vec -> real, s: State, w: Worker, now: Time, newId: Id)
    requires Reading(norm, s, w)
    ensures var t := Read(norm, s, w, now, newId);
      && t.workers == s.workers[w := AfterRead(norm, s, w, now, newId)]
      && t == s.(workers := t.workers, attempts := t.attempts, usedIds := t.usedIds)
      && t.usedIds == (if Joins(s, w) then s.usedIds else s.usedIds + {newId})
  {
    if !Joins(s, w) { ReadFounds(norm, s, w, now, newId); }
  }

  lemma ReadFounds(norm: Vec -> real, s: State, w: Worker, now: Time, newId: Id)
    requires Reading(norm, s, w) && !Joins(s, w)
    ensures Read(norm, s, w, now, newId)
         == s.(workers := s.workers[w := AfterRead(norm, s, w, now, newId)], usedIds := s.usedIds + {newId})
  {
  }

  lemma ReadHolds(norm: Vec -> real, s: State, w: Worker, now: Time, newId: Id)
    requires Base(s) && Reading(norm, s, w) && newId !in s.usedIds
    ensures HandlerOk(Read(norm, s, w, now, newId), AfterRead(norm, s, w, now, newId))
  {
    ReadMoves(norm, s, w, now, newId);
    assert HandlerOk(s, s.workers[w]);
    assert newId in s.db ==> StoredOk(s, newId);
    if Joins(s, w) { assert CachedOk(s, s.workers[w].pick.value); }
  }

  lemma BaseRead(norm: Vec -> real, s: State, w: Worker, now: Time, newId: Id)
    requires Base(s) && Enabled(norm, s, ReadCluster(w, now, newId))
    ensures Base(Read(norm, s, w, now, newId))
  {
    var t := Read(norm, s, w, now, newId);
    ReadMoves(norm, s, w, now, newId);
    ReadHolds(norm, s, w, now, newId);
    var ph := AfterRead(norm, s, w, now, newId);
    ReadApart(s, w, ph);
    HandlerMoves(s, t, w, Some(ph));
  }

  lemma ReadApart(s: State, w: Worker, ph: Phase)
    requires Base(s) && w in s.workers && ph.token == s.workers[w].token
    requires ph.Prepared? && ph.isNew ==> ph.row.id !in s.usedIds
    ensures forall v :: v in s.workers && v != w ==> Apart(ph, s.workers[v]) && Apart(s.workers[v], ph)
  {
    forall v | v in s.workers && v != w ensures Apart(ph, s.workers[v]) && Apart(s.workers[v], ph) {
      assert HandlerOk(s, s.workers[v]) && Apart(s.workers[w], s.workers[v]);
    }
  }

  /** What an accepted transaction leaves in the table: a new row, the next version, or what was there. */
  lemma AcceptedJoin(s: State, w: Worker)
    requires Base(s) && Preparing(s, w) && Accepted(s.db, s.workers[w].row, s.workers[w].isNew)
    ensures var row := s.workers[w].row;
      if Loses(s, Transact(w)) then Upsert(s.db, row) == s.db
      else && Upsert(s.db, row) == s.db[row.id := row]
           && row.articleCount == 1 + if row.id in s.db then s.db[row.id].articleCount else 0
  {
    assert HandlerOk(s, s.workers[w]);
    assert s.workers[w].row.id in s.db ==> StoredOk(s, s.workers[w].row.id);
  }

  predicate Preparing(s: State, w: Worker) {
    Known(s, w) && s.workers[w].Prepared?
  }

  lemma SaveStores(s: State, w: Worker)
    requires Base(s) && Preparing(s, w) && Accepted(s.db, s.workers[w].row, s.workers[w].isNew)
    ensures StoresOk(Save(s, w)) && QueueOk(Save(s, w))
  {
    var ph, t := s.workers[w], Save(s, w);
    assert HandlerOk(s, ph);
    AcceptedJoin(s, w);
    forall id | id in t.db ensures StoredOk(t, id) { assert id in s.db ==> StoredOk(s, id); }
    forall id | id in t.cache ensures CachedOk(t, id) { assert CachedOk(s, id) && StoredOk(s, id); }
  }

  lemma SaveHandler(s: State, w: Worker, v: Worker)
    requires Base(s) && Preparing(s, w) && Accepted(s.db, s.workers[w].row, s.workers[w].isNew) && v in s.workers
    ensures HandlerOk(Save(s, w), Save(s, w).workers[v])
    ensures v != w ==> Apart(Save(s, w).workers[w], s.workers[v]) && Apart(s.workers[v], Save(s, w).workers[w])
  {
    AcceptedJoin(s, w);
    assert HandlerOk(s, s.workers[w]) && HandlerOk(s, s.workers[v]);
    if v != w { assert Apart(s.workers[v], s.workers[w]) && Apart(s.workers[w], s.workers[v]); }
  }

  lemma BaseSave(s: State, w: Worker)
    requires Base(s) && Preparing(s, w)
    ensures Base(Save(s, w))
  {
    var ph, t := s.workers[w], Save(s, w);
    if Accepted(s.db, ph.row, ph.isNew) {
      SaveStores(s, w);
      forall v | v in t.workers
        ensures HandlerOk(t, t.workers[v])
        ensures v != w ==> Apart(t.workers[w], t.workers[v]) && Apart(t.workers[v], t.workers[w])
      {
        SaveHandler(s, w, v);
      }
    } else {
      BaseIdle(s, w);
    }
  }

  lemma BasePutCache(s: State, w: Worker)
    requires Base(s) && w in s.workers && s.workers[w].Saved?
    ensures Base(PutCache(s, w))
  {
    var t := PutCache(s, w);
    assert HandlerOk(s, s.workers[w]);
    forall id | id in t.db ensures StoredOk(t, id) { assert StoredOk(s, id); }
    forall id | id in t.cache ensures CachedOk(t, id) { assert id in s.cache ==> CachedOk(s, id); }
    forall v | v in t.workers ensures HandlerOk(t, t.workers[v]) { assert HandlerOk(s, s.workers[v]); }
    forall v, u | v in t.workers && u in t.workers && v != u ensures Apart(t.workers[v], t.workers[u]) {
      assert Apart(s.workers[v], s.workers[u]);
    }
  }

  lemma BaseStep(norm: Vec -> real, s: State, ev: Event)
    requires Base(s) && Enabled(norm, s, ev)
    ensures Base(Apply(norm, s, ev))
  {
    match ev
    case Publish(_, _) => BasePublish(norm, s, ev);
    case StoreArticle(_) => BasePublish(norm, s, ev);
    case Expire(_) => BasePublish(norm, s, ev);
    case Deliver(_, _) => BaseDeliver(norm, s, ev);
    case ReadActive(_) => BaseReadActive(norm, s, ev);
    case ReadCluster(w, now, newId) => BaseRead(norm, s, w, now, newId);
    case Transact(w) => BaseSave(s, w);
    case WriteCache(w) => BasePutCache(s, w);
    case Reject(w) => BaseAck(s, w);
    case Missing(w) => BaseAck(s, w);
    case Finish(w) => BaseAck(s, w);
    case Fail(w) => BaseIdle(s, w);
  }

  lemma {:induction false} BaseRun(norm: Vec -> real, s: State, evs: seq<Event>)
    requires Base(s) && Run(norm, s, evs)
    ensures Base(Exec(norm, s, evs))
    decreases |evs|
  {
    if evs != [] {
      BaseStep(norm, s, evs[0]);
      BaseRun(norm, Apply(norm, s, evs[0]), evs[1..]);
    }
  }

  // ---- ids that are free ------------------------------------------------------------------

  lemma {:induction false} LongerThanAll(used: set<Id>) returns (n: nat)
    ensures forall id <- used :: |id| < n
  {
    n := 0;
    if used != {} {
      var id :| id in used;
      n := LongerThanAll(used - {id});
      if n <= |id| { n := |id| + 1; }
    }
  }

  lemma UnusedId(used: set<Id>) returns (id: Id)
    ensures id !in used
  {
    var n := LongerThanAll(used);
    id := seq(n, _ => 'x');
  }

  // ---- the sum of the counts ---------------------------------------------------------------

  /** Sum of `article_count` over a table. */
  ghost function Total(db: map<Id, Row>): nat
    decreases |db|
  {
    if db == map[] then 0
    else
      var id :| id in db;
      assert db.Keys == (db - {id}).Keys + {id};
      db[id].articleCount + Total(db - {id})
  }

  lemma {:induction false} TotalWithout(db: map<Id, Row>, id: Id)
    requires id in db
    ensures Total(db) == db[id].articleCount + Total(db - {id})
    decreases |db|
  {
    var k :| k in db && Total(db) == db[k].articleCount + Total(db - {k});
    if k != id {
      assert db.Keys == (db - {k}).Keys + {k};
      assert db.Keys == (db - {id}).Keys + {id};
      TotalWithout(db - {k}, id);
      TotalWithout(db - {id}, k);
      assert db - {k} - {id} == db - {id} - {k};
    }
  }

  lemma TotalUpdate(db: map<Id, Row>, row: Row)
    ensures Total(db[row.id := row])
         == Total(db) + row.articleCount - (if row.id in db then db[row.id].articleCount else 0)
  {
    var r := db[row.id := row];
    TotalWithout(r, row.id);
    if row.id in db {
      TotalWithout(db, row.id);
      assert r - {row.id} == db - {row.id};
    } else {
      assert r - {row.id} == db;
    }
  }

  lemma OthersDoNotSave(norm: Vec -> real, s: State, ev: Event)
    requires Enabled(norm, s, ev) && !ev.Transact?
    ensures var t := Apply(norm, s, ev); t.db == s.db && t.committed == s.committed && t.ledger == s.ledger
  {
    match ev
    case ReadCluster(w, now, newId) =>
      var t := Read(norm, s, w, now, newId);
      assert t.db == s.db && t.committed == s.committed && t.ledger == s.ledger;
    case _ =>
  }

  /** One event: the sum grows with the commits, but for a lost update. */
  lemma SumStep(norm: Vec -> real, s: State, ev: Event)
    requires Base(s) && Enabled(norm, s, ev)
    ensures var t := Apply(norm, s, ev);
      Total(t.db) - Total(s.db) + (if Loses(s, ev) then 1 else 0) == |t.committed| - |s.committed|
  {
    if !ev.Transact? {
      OthersDoNotSave(norm, s, ev);
    } else if Accepted(s.db, s.workers[ev.w].row, s.workers[ev.w].isNew) {
      var ph := s.workers[ev.w];
      AcceptedJoin(s, ev.w);
      TotalUpdate(s.db, ph.row);
      assert ph.token !in s.committed by { assert HandlerOk(s, ph); }
    }
  }

  lemma {:induction false} SumRun(norm: Vec -> real, s: State, evs: seq<Event>)
    requires Base(s) && Run(norm, s, evs)
    ensures var t := Exec(norm, s, evs);
      Total(t.db) - Total(s.db) + Lost(norm, s, evs) == |t.committed| - |s.committed|
    decreases |evs|
  {
    if evs != [] {
      BaseStep(norm, s, evs[0]);
      SumStep(norm, s, evs[0]);
      SumRun(norm, Apply(norm, s, evs[0]), evs[1..]);
    }
  }

  // ---- the deliveries ----------------------------------------------------------------------

  /** The deliveries that are possible for a set of messages. */
  function Deliveries(msgs: set<Msg>): set<Token> {
    set m, k | m in msgs && 1 <= k <= NatsBus.MAX_DELIVER :: Token(m, k)
  }

  lemma {:induction false} DeliveriesCount(msgs: set<Msg>)
    ensures |Deliveries(msgs)| == NatsBus.MAX_DELIVER * |msgs|
    decreases |msgs|
  {
    if msgs == {} {
      assert Deliveries(msgs) == {};
    } else {
      var m :| m in msgs;
      var rest := msgs - {m};
      DeliveriesCount(rest);
      var own := {Token(m, 1), Token(m, 2), Token(m, 3), Token(m, 4), Token(m, 5)};
      assert |own| == 5;
      assert Deliveries(msgs) == Deliveries(rest) + own;
      assert Deliveries(rest) !! own;
    }
  }

  /** Over every run: the article counts of all clusters and the lost updates together are the accepted
      transactions, each of which belongs to a delivery of its own; so they are at most five for each
      published message. */
  lemma CountsAreConserved(norm: Vec -> real, evs: seq<Event>)
    requires Run(norm, INIT, evs)
    ensures var s := Exec(norm, INIT, evs);
      Total(s.db) + Lost(norm, INIT, evs) == |s.committed| <= NatsBus.MAX_DELIVER * |s.queue.Keys|
  {
    var s := Exec(norm, INIT, evs);
    SumRun(norm, INIT, evs);
    BaseRun(norm, INIT, evs);
    DeliveriesCount(s.queue.Keys);
    assert s.committed <= Deliveries(s.queue.Keys);
    SubsetSize(s.committed, Deliveries(s.queue.Keys));
  }
}

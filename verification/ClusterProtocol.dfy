/** The clustering pipeline as a state machine: any number of workers, one clusters table, one
    cache, and a message queue that redelivers. Each event is one atomic effect on a shared store;
    an interleaving is a sequence of events. */
module ClusterProtocol {
  import opened Options
  import opened Vectors
  import opened Clusters
  import opened ActiveIndex
  import opened ZSets
  import NatsBus

  const ACTIVE_LIMIT: nat := 100

  type Worker = nat
  type Msg = nat

  /** The `nth` delivery of a message. */
  datatype Token = Token(msg: Msg, nth: nat)

  datatype Delivery = Delivery(payload: Payload, count: nat, done: bool)

  /** How far a handler got with its delivery; `row` is its private copy of the cluster. A stuck
      handler holds a centroid of NaNs, which the table refuses. */
  datatype Phase =
    | Received(token: Token)
    | Matched(token: Token, pick: Option<Id>)
    | Prepared(token: Token, row: Row, isNew: bool)
    | Stuck(token: Token)
    | Saved(token: Token, row: Row)
    | Cached(token: Token)
  {
    predicate BeforeCommit() { Received? || Matched? || Prepared? || Stuck? }
  }

  /** An accepted transaction: the handler went on as if its row had been stored. */
  datatype Commit = Commit(token: Token, payload: Payload, row: Row)

  /** One join attempt: which version of which cluster it wants to write, and its time stamp. */
  datatype Attempt = Attempt(id: Id, version: nat, stamp: Time)

  /** `ledger`, `committed`, `published`, `attempts` and `usedIds` record history; no handler reads them. */
  datatype State = State(
    db: map<Id, Row>,
    articles: set<string>,
    cache: map<Id, Row>,
    index: ZSet,
    queue: map<Msg, Delivery>,
    workers: map<Worker, Phase>,
    ledger: map<Id, seq<Commit>>,
    committed: set<Token>,
    published: map<Id, nat>,
    attempts: set<Attempt>,
    usedIds: set<Id>)

  datatype Event =
    | Publish(msg: Msg, payload: Payload)
    | StoreArticle(urlHash: string)
    | Deliver(w: Worker, msg: Msg)
    | Reject(w: Worker)
    | ReadActive(w: Worker)
    | ReadCluster(w: Worker, now: Time, newId: Id)
    | Missing(w: Worker)
    | Transact(w: Worker)
    | WriteCache(w: Worker)
    | Finish(w: Worker)
    | Fail(w: Worker)
    | Expire(id: Id)

  const INIT := State(map[], {}, map[], map[], map[], map[], map[], {}, map[], {}, {})

  // ---- the database transaction ------------------------------------------------------------

  /** `INSERT ... ON CONFLICT (id) DO UPDATE ... WHERE clusters.version < excluded.version`. */
  function Upsert(db: map<Id, Row>, row: Row): (r: map<Id, Row>)
    ensures row.id in r
  {
    if row.id in db && db[row.id].version >= row.version then db else db[row.id := row]
  }

  /** The check on the row that the upsert leaves behind. */
  predicate Accepted(db: map<Id, Row>, row: Row, isNew: bool) {
    var saved := Upsert(db, row)[row.id];
    isNew || (saved.version == row.version && saved.lastActivity == row.lastActivity)
  }

  // ---- events ------------------------------------------------------------------------------

  function PayloadOf(s: State, t: Token): Payload
    requires t.msg in s.queue
  {
    s.queue[t.msg].payload
  }

  predicate Known(s: State, w: Worker) {
    w in s.workers && s.workers[w].token.msg in s.queue
  }

  function Idle(s: State, w: Worker): State {
    s.(workers := s.workers - {w})
  }

  function Ack(s: State, w: Worker): State
    requires Known(s, w)
  {
    var m := s.workers[w].token.msg;
    Idle(s, w).(queue := s.queue[m := s.queue[m].(done := true)])
  }

  /** A pick that is still cached is joined; otherwise the article founds a cluster. */
  predicate Joins(s: State, w: Worker)
    requires w in s.workers && s.workers[w].Matched?
  {
    s.workers[w].pick.Some? && s.workers[w].pick.value in s.cache
  }

  function Read(norm: Vec -> real, s: State, w: Worker, now: Time, newId: Id): State
    requires Known(s, w) && s.workers[w].Matched?
    requires norm(PayloadOf(s, s.workers[w].token).embedding) != 0.0
  {
    var t, p := s.workers[w].token, PayloadOf(s, s.workers[w].token);
    if Joins(s, w) then
      var base := s.cache[s.workers[w].pick.value];
      if Joinable(norm, base, p) then
        s.(workers := s.workers[w := Prepared(t, Join(norm, base, p, now), false)],
           attempts := s.attempts + {Attempt(base.id, base.version + 1, now)})
      else s.(workers := s.workers[w := Stuck(t)])
    else
      s.(workers := s.workers[w := Prepared(t, Create(norm, newId, p, now), true)],
         usedIds := s.usedIds + {newId})
  }

  function Entries(ledger: map<Id, seq<Commit>>, id: Id): seq<Commit> {
    if id in ledger then ledger[id] else []
  }

  function Save(s: State, w: Worker): State
    requires Known(s, w) && s.workers[w].Prepared?
  {
    var ph := s.workers[w];
    var id := ph.row.id;
    if Accepted(s.db, ph.row, ph.isNew) then
      s.(db := Upsert(s.db, ph.row),
         workers := s.workers[w := Saved(ph.token, ph.row)],
         ledger := s.ledger[id := Entries(s.ledger, id) + [Commit(ph.token, PayloadOf(s, ph.token), ph.row)]],
         committed := s.committed + {ph.token})
    else Idle(s, w)
  }

  function PutCache(s: State, w: Worker): State
    requires w in s.workers && s.workers[w].Saved?
  {
    var row := s.workers[w].row;
    s.(cache := s.cache[row.id := row],
       index := s.index[row.id := row.lastActivity],
       workers := s.workers[w := Cached(s.workers[w].token)],
       published := s.published[row.id := row.version])
  }

  ghost predicate Enabled(norm: Vec -> real, s: State, ev: Event) {
    match ev
    case Publish(m, _) => m !in s.queue
    case StoreArticle(_) => true
    case Deliver(w, m) => m in s.queue && !s.queue[m].done && s.queue[m].count < NatsBus.MAX_DELIVER && w !in s.workers
    case Reject(w) => Known(s, w) && s.workers[w].Received? && !ValidEmbedding(PayloadOf(s, s.workers[w].token).embedding)
    case ReadActive(w) => Known(s, w) && s.workers[w].Received? && ValidEmbedding(PayloadOf(s, s.workers[w].token).embedding)
    case ReadCluster(w, _, newId) =>
      && Known(s, w) && s.workers[w].Matched? && newId !in s.usedIds
      && norm(PayloadOf(s, s.workers[w].token).embedding) != 0.0
    case Missing(w) =>
      && Known(s, w) && (s.workers[w].Prepared? || s.workers[w].Stuck?)
      && PayloadOf(s, s.workers[w].token).urlHash !in s.articles
    case Transact(w) => Known(s, w) && s.workers[w].Prepared? && PayloadOf(s, s.workers[w].token).urlHash in s.articles
    case WriteCache(w) => w in s.workers && s.workers[w].Saved?
    case Finish(w) => Known(s, w) && s.workers[w].Cached?
    case Fail(w) => w in s.workers
    case Expire(id) => id in s.cache
  }

  ghost function Apply(norm: Vec -> real, s: State, ev: Event): State
    requires Enabled(norm, s, ev)
  {
    match ev
    case Publish(m, p) => s.(queue := s.queue[m := Delivery(p, 0, false)])
    case StoreArticle(h) => s.(articles := s.articles + {h})
    case Deliver(w, m) =>
      var n := s.queue[m].count + 1;
      s.(queue := s.queue[m := s.queue[m].(count := n)], workers := s.workers[w := Received(Token(m, n))])
    case Reject(w) => Ack(s, w)
    case ReadActive(w) =>
      var t := s.workers[w].token;
      var rows := Page(s.index, s.cache, 0, ACTIVE_LIMIT);
      s.(workers := s.workers[w := Matched(t, Choose(norm, rows, PayloadOf(s, t).embedding))])
    case ReadCluster(w, now, newId) => Read(norm, s, w, now, newId)
    case Missing(w) => Ack(s, w)
    case Transact(w) => Save(s, w)
    case WriteCache(w) => PutCache(s, w)
    case Finish(w) => Ack(s, w)
    case Fail(w) => Idle(s, w)
    case Expire(id) => s.(cache := s.cache - {id})
  }

  /** The run is possible: each event is enabled where it happens. */
  ghost predicate Run(norm: Vec -> real, s: State, evs: seq<Event>)
    decreases |evs|
  {
    evs == [] || (Enabled(norm, s, evs[0]) && Run(norm, Apply(norm, s, evs[0]), evs[1..]))
  }

  ghost function Exec(norm: Vec -> real, s: State, evs: seq<Event>): State
    requires Run(norm, s, evs)
    decreases |evs|
  {
    if evs == [] then s else Exec(norm, Apply(norm, s, evs[0]), evs[1..])
  }

  /** A join attempt whose time stamp no earlier attempt at the same version of that cluster used. */
  ghost predicate FreshStamp(s: State, ev: Event) {
    ev.ReadCluster? && ev.w in s.workers && s.workers[ev.w].Matched? && Joins(s, ev.w) ==>
      var base := s.cache[s.workers[ev.w].pick.value];
      Attempt(base.id, base.version + 1, ev.now) !in s.attempts
  }

  ghost predicate DistinctStamps(norm: Vec -> real, s: State, evs: seq<Event>)
    requires Run(norm, s, evs)
    decreases |evs|
  {
    evs == [] || (FreshStamp(s, evs[0]) && DistinctStamps(norm, Apply(norm, s, evs[0]), evs[1..]))
  }

  /** The table already holds a row of this version and this stamp: the check takes it for the new one. */
  predicate Ties(db: map<Id, Row>, row: Row) {
    row.id in db && db[row.id].version == row.version && db[row.id].lastActivity == row.lastActivity
  }

  /** An update is lost: a join is taken as stored on the strength of another row. */
  predicate Loses(s: State, ev: Event) {
    && ev.Transact? && ev.w in s.workers && s.workers[ev.w].Prepared? && !s.workers[ev.w].isNew
    && Ties(s.db, s.workers[ev.w].row)
  }

  /** How many updates a run loses. */
  ghost function Lost(norm: Vec -> real, s: State, evs: seq<Event>): nat
    requires Run(norm, s, evs)
    decreases |evs|
  {
    if evs == [] then 0
    else (if Loses(s, evs[0]) then 1 else 0) + Lost(norm, Apply(norm, s, evs[0]), evs[1..])
  }

  lemma {:induction false} RunAppend(norm: Vec -> real, s: State, evs: seq<Event>, ev: Event)
    requires Run(norm, s, evs) && Enabled(norm, Exec(norm, s, evs), ev)
    ensures Run(norm, s, evs + [ev]) && Exec(norm, s, evs + [ev]) == Apply(norm, Exec(norm, s, evs), ev)
    decreases |evs|
  {
    if evs == [] {
      assert [ev] == evs + [ev];
      var t := Apply(norm, s, ev);
      assert Run(norm, t, []) && Exec(norm, t, []) == t;
      assert [ev][1..] == [];
    } else {
      RunAppend(norm, Apply(norm, s, evs[0]), evs[1..], ev);
      assert (evs + [ev])[0] == evs[0] && (evs + [ev])[1..] == evs[1..] + [ev];
    }
  }
}

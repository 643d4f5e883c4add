/** Runs that show what the protocol does not promise: an update is lost when two join attempts at
    the same version carry the same time stamp, and a message is counted twice when it is delivered
    again after a commit or while a handler still holds it. */
module ClusterExamples {
  import opened Options
  import opened Vectors
  import opened Clusters
  import opened ActiveIndex
  import opened ZSets
  import opened ClusterProtocol
  import opened ClusterCounts

  /** `evs` is a possible run from the empty system and ends in `s`. */
  ghost predicate Leads(norm: Vec -> real, evs: seq<Event>, s: State) {
    Run(norm, INIT, evs) && Exec(norm, INIT, evs) == s
  }

  lemma Follow(norm: Vec -> real, evs: seq<Event>, s: State, ev: Event) returns (more: seq<Event>)
    requires Leads(norm, evs, s) && Enabled(norm, s, ev)
    ensures more == evs + [ev] && Leads(norm, more, Apply(norm, s, ev))
  {
    more := evs + [ev];
    RunAppend(norm, INIT, evs, ev);
  }

  // ---- a first cluster ---------------------------------------------------------------------

  const C: Id := "c"

  function First(norm: Vec -> real, p: Payload): Row
    requires norm(p.embedding) != 0.0
  {
    Create(norm, C, p, 1.0)
  }

  /** One article delivered to one handler, which founds cluster `C` and writes it to the cache. */
  function Founded(norm: Vec -> real, p: Payload): State
    requires norm(p.embedding) != 0.0
  {
    var row, t := First(norm, p), Token(0, 1);
    State(map[C := row], {p.urlHash}, map[C := row], map[C := 1.0], map[0 := Delivery(p, 1, false)],
          map[0 := Cached(t)], map[C := [Commit(t, p, row)]], {t}, map[C := 1], {}, {C})
  }

  ghost predicate GoodPayload(norm: Vec -> real, p: Payload) {
    IsNorm(norm) && ValidEmbedding(p.embedding) && norm(p.embedding) != 0.0
  }

  lemma LeadsToFounded(norm: Vec -> real, p: Payload) returns (evs: seq<Event>)
    requires GoodPayload(norm, p)
    ensures Leads(norm, evs, Founded(norm, p))
  {
    var s := INIT;
    evs := [];
    evs := Follow(norm, evs, s, Publish(0, p));
    s := Apply(norm, s, Publish(0, p));
    evs := Follow(norm, evs, s, StoreArticle(p.urlHash));
    s := Apply(norm, s, StoreArticle(p.urlHash));
    evs := Follow(norm, evs, s, Deliver(0, 0));
    s := Apply(norm, s, Deliver(0, 0));
    assert s == Waiting(p, Received(Token(0, 1)));
    evs := LeadsFromReceived(norm, p, evs);
    evs := LeadsFromPrepared(norm, p, evs);
  }

  /** Before the first transaction: one message, held by one handler. */
  function Waiting(p: Payload, ph: Phase): State {
    INIT.(queue := map[0 := Delivery(p, 1, false)], articles := {p.urlHash}, workers := map[0 := ph])
  }

  lemma LeadsFromReceived(norm: Vec -> real, p: Payload, evs: seq<Event>) returns (more: seq<Event>)
    requires GoodPayload(norm, p) && Leads(norm, evs, Waiting(p, Received(Token(0, 1))))
    ensures Leads(norm, more, Waiting(p, Prepared(Token(0, 1), First(norm, p), true)).(usedIds := {C}))
  {
    var t := Token(0, 1);
    var s := Waiting(p, Received(t));
    more := Follow(norm, evs, s, ReadActive(0));
    assert Page(s.index, s.cache, 0, ACTIVE_LIMIT) == [] by { assert Ranked(s.index) == []; }
    var matched := Waiting(p, Matched(t, None));
    assert Apply(norm, s, ReadActive(0)) == matched;
    more := Follow(norm, more, matched, ReadCluster(0, 1.0, C));
    assert matched.workers[0 := Prepared(t, First(norm, p), true)] == map[0 := Prepared(t, First(norm, p), true)];
  }

  lemma LeadsFromPrepared(norm: Vec -> real, p: Payload, evs: seq<Event>) returns (more: seq<Event>)
    requires GoodPayload(norm, p)
    requires Leads(norm, evs, Waiting(p, Prepared(Token(0, 1), First(norm, p), true)).(usedIds := {C}))
    ensures Leads(norm, more, Founded(norm, p))
  {
    var s := Waiting(p, Prepared(Token(0, 1), First(norm, p), true)).(usedIds := {C});
    more := Follow(norm, evs, s, Transact(0));
    var saved := Apply(norm, s, Transact(0));
    more := Follow(norm, more, saved, WriteCache(0));
    var r, f := Apply(norm, saved, WriteCache(0)), Founded(norm, p);
    assert r.workers == f.workers && r.db == f.db && r.cache == f.cache && r.index == f.index;
    assert r.ledger[C] == f.ledger[C];
    assert r.ledger == f.ledger && r.committed == f.committed && r.published == f.published;
  }

  /** The same article matches the cluster it founded, and can be joined to it. */
  lemma MatchesItself(norm: Vec -> real, p: Payload)
    requires GoodPayload(norm, p)
    ensures Choose(norm, [First(norm, p)], p.embedding) == Some(C)
    ensures Joinable(norm, First(norm, p), p)
  {
    var e, row := p.embedding, First(norm, p);
    NormalizeIsUnit(norm, e);
    CosineWithUnit(norm, e, row.centroid);
    DotSym(e, row.centroid);
    var n := norm(e);
    DotScale(1.0 / n, e, e);
    assert n * n == Dot(e, e);
    assert Cosine(norm, e, row.centroid) == 1.0 by { SelfCosine(n, Dot(e, e), Cosine(norm, e, row.centroid), Dot(e, row.centroid)); }
    assert [row][..0] == [];
    assert Best(norm, [], e) == None;
    assert Best(norm, [row], e) == Some(0);
    MatchIsJoinable(norm, row, p);
  }

  lemma SelfCosine(n: real, ee: real, cosine: real, d: real)
    requires n > 0.0 && n * n == ee && d == 1.0 / n * ee && cosine * n == d
    ensures cosine == 1.0
  {
    assert 1.0 / n * (n * n) == n;
  }

  lemma PageOfOne(row: Row, stamp: Time)
    ensures Page(map[C := stamp], map[C := row], 0, ACTIVE_LIMIT) == [row]
  {
    var z: ZSet := map[C := stamp];
    assert C in z;
    assert Top(z) == C;
    assert Without(z, C) == map[];
    assert Ranked(z) == [C];
    assert RevRange([C], 0, 99) == [C];
    assert Live([C][1..], map[C := row]) == [];
  }

  // ---- an update that is lost --------------------------------------------------------------

  /** Two handlers join `C` from the same cached copy in the same instant: both are told that they
      stored their article, the cluster counts one of them, and one update is lost. */
  lemma SharedStampLosesUpdate(norm: Vec -> real, p: Payload) returns (evs: seq<Event>)
    requires GoodPayload(norm, p)
    ensures Run(norm, INIT, evs)
    ensures var s := Exec(norm, INIT, evs); C in s.db && s.db.Keys == {C} && s.db[C].articleCount == 2 && |s.committed| == 3
    ensures Lost(norm, INIT, evs) == 1
  {
    evs := LeadsToFounded(norm, p);
    var s := Founded(norm, p);
    evs := Follow(norm, evs, s, Publish(1, p));
    s := Apply(norm, s, Publish(1, p));
    evs := Follow(norm, evs, s, Publish(2, p));
    s := Apply(norm, s, Publish(2, p));
    evs := Follow(norm, evs, s, Deliver(1, 1));
    s := Apply(norm, s, Deliver(1, 1));
    evs := Follow(norm, evs, s, Deliver(2, 2));
    s := Apply(norm, s, Deliver(2, 2));
    evs := BothJoin(norm, p, evs, s);
    OneRowTotal(Exec(norm, INIT, evs).db);
    CountsAreConserved(norm, evs);
  }

  lemma OneRowTotal(db: map<Id, Row>)
    requires db.Keys == {C}
    ensures Total(db) == db[C].articleCount
  {
    TotalWithout(db, C);
    assert db - {C} == map[];
  }

  lemma BothJoin(norm: Vec -> real, p: Payload, evs: seq<Event>, s: State) returns (more: seq<Event>)
    requires GoodPayload(norm, p) && Leads(norm, evs, s)
    requires 1 in s.queue && 2 in s.queue && s.queue[1].payload == p && s.queue[2].payload == p
    requires 1 in s.workers && s.workers[1] == Received(Token(1, 1))
    requires 2 in s.workers && s.workers[2] == Received(Token(2, 1))
    requires var f := Founded(norm, p);
      && s.db == f.db && s.cache == f.cache && s.index == f.index && s.articles == f.articles
      && s.ledger == f.ledger && s.committed == f.committed && s.usedIds == f.usedIds
    ensures Run(norm, INIT, more)
    ensures var r := Exec(norm, INIT, more); C in r.db && r.db.Keys == {C} && r.db[C].articleCount == 2 && |r.committed| == 3
  {
    var t := s;
    more := evs;
    more, t := JoinFirst(norm, p, more, t, 1, Token(1, 1), D);
    more, t := JoinFirst(norm, p, more, t, 2, Token(2, 1), D);
    more := BothSave(norm, p, more, t);
  }

  /** The first join is stored; the second finds its own version and stamp in the table. */
  lemma BothSave(norm: Vec -> real, p: Payload, evs: seq<Event>, s: State) returns (more: seq<Event>)
    requires GoodPayload(norm, p) && Leads(norm, evs, s) && Joinable(norm, First(norm, p), p)
    requires Known(s, 1) && s.workers[1] == Prepared(Token(1, 1), Join(norm, First(norm, p), p, 2.0), false)
    requires Known(s, 2) && s.workers[2] == Prepared(Token(2, 1), Join(norm, First(norm, p), p, 2.0), false)
    requires s.queue[1].payload == p && s.queue[2].payload == p && p.urlHash in s.articles
    requires s.db == map[C := First(norm, p)] && s.committed == {Token(0, 1)}
    ensures Run(norm, INIT, more)
    ensures var r := Exec(norm, INIT, more); C in r.db && r.db.Keys == {C} && r.db[C].articleCount == 2 && |r.committed| == 3
  {
    more := Follow(norm, evs, s, Transact(1));
    var t := Save(s, 1);
    more := Follow(norm, more, t, Transact(2));
  }

  /** A handler reads the page and the cached copy of `C`, and prepares its join at time 2. */
  lemma JoinFirst(norm: Vec -> real, p: Payload, evs: seq<Event>, s: State, w: Worker, t: Token, newId: Id)
    returns (more: seq<Event>, r: State)
    requires GoodPayload(norm, p) && Leads(norm, evs, s)
    requires t.msg in s.queue && s.queue[t.msg].payload == p
    requires w in s.workers && s.workers[w] == Received(t)
    requires s.cache == map[C := First(norm, p)] && s.index == map[C := 1.0] && newId !in s.usedIds
    ensures Leads(norm, more, r) && Joinable(norm, First(norm, p), p)
    ensures r == s.(workers := s.workers[w := Prepared(t, Join(norm, First(norm, p), p, 2.0), false)],
                    attempts := s.attempts + {Attempt(C, 2, 2.0)})
  {
    MatchesItself(norm, p);
    PageOfOne(First(norm, p), 1.0);
    more := Follow(norm, evs, s, ReadActive(w));
    var matched := s.(workers := s.workers[w := Matched(t, Some(C))]);
    assert Apply(norm, s, ReadActive(w)) == matched;
    r := s.(workers := s.workers[w := Prepared(t, Join(norm, First(norm, p), p, 2.0), false)],
            attempts := s.attempts + {Attempt(C, 2, 2.0)});
    assert Apply(norm, matched, ReadCluster(w, 2.0, newId)) == r by { JoinsFirst(norm, p, s, w, t, newId); }
    more := Follow(norm, more, matched, ReadCluster(w, 2.0, newId));
  }

  lemma JoinsFirst(norm: Vec -> real, p: Payload, s: State, w: Worker, t: Token, newId: Id)
    requires norm(p.embedding) != 0.0 && Joinable(norm, First(norm, p), p)
    requires t.msg in s.queue && s.queue[t.msg].payload == p && s.cache == map[C := First(norm, p)]
    ensures Read(norm, s.(workers := s.workers[w := Matched(t, Some(C))]), w, 2.0, newId)
         == s.(workers := s.workers[w := Prepared(t, Join(norm, First(norm, p), p, 2.0), false)],
               attempts := s.attempts + {Attempt(C, 2, 2.0)})
  {
    var matched := s.workers[w := Matched(t, Some(C))];
    assert matched[w := Prepared(t, Join(norm, First(norm, p), p, 2.0), false)]
        == s.workers[w := Prepared(t, Join(norm, First(norm, p), p, 2.0), false)];
  }

  // ---- a message that counts twice ---------------------------------------------------------

  /** The handler dies after its cache write and before its acknowledgement: the redelivered
      message is clustered again, so one published article counts as two. */
  lemma RedeliveryCountsTwice(norm: Vec -> real, p: Payload) returns (evs: seq<Event>)
    requires GoodPayload(norm, p)
    ensures Run(norm, INIT, evs)
    ensures var s := Exec(norm, INIT, evs);
      && C in s.db && s.queue.Keys == {0} && s.db[C].articleCount == 2
      && s.committed == {Token(0, 1), Token(0, 2)} && s.workers.Keys == {0}
  {
    evs := LeadsToFounded(norm, p);
    var s := Founded(norm, p);
    evs := Follow(norm, evs, s, Fail(0));
    s := Apply(norm, s, Fail(0));
    evs := Follow(norm, evs, s, Deliver(0, 0));
    s := Apply(norm, s, Deliver(0, 0));
    evs, s := JoinFirst(norm, p, evs, s, 0, Token(0, 2), D);
    evs := Follow(norm, evs, s, Transact(0));
  }

  // ---- two deliveries at once --------------------------------------------------------------

  const D: Id := "d"

  predicate NoFail(evs: seq<Event>) {
    forall ev <- evs :: !ev.Fail?
  }

  /** A handler that finds no active cluster prepares a new one. */
  lemma Prepares(norm: Vec -> real, p: Payload, evs: seq<Event>, s: State, w: Worker, t: Token, newId: Id)
    returns (more: seq<Event>, r: State)
    requires GoodPayload(norm, p) && Leads(norm, evs, s) && NoFail(evs)
    requires t.msg in s.queue && s.queue[t.msg].payload == p && w in s.workers && s.workers[w] == Received(t)
    requires s.index == map[] && newId !in s.usedIds
    ensures Leads(norm, more, r) && NoFail(more)
    ensures r == s.(workers := s.workers[w := Prepared(t, Create(norm, newId, p, 1.0), true)],
                    usedIds := s.usedIds + {newId})
  {
    more := Follow(norm, evs, s, ReadActive(w));
    assert Page(s.index, s.cache, 0, ACTIVE_LIMIT) == [] by { assert Ranked(s.index) == []; }
    var matched := s.(workers := s.workers[w := Matched(t, None)]);
    assert Apply(norm, s, ReadActive(w)) == matched;
    r := s.(workers := s.workers[w := Prepared(t, Create(norm, newId, p, 1.0), true)], usedIds := s.usedIds + {newId});
    assert matched.workers[w := Prepared(t, Create(norm, newId, p, 1.0), true)] == r.workers;
    assert Apply(norm, matched, ReadCluster(w, 1.0, newId)) == r;
    more := Follow(norm, more, matched, ReadCluster(w, 1.0, newId));
  }

  /** One message in the hands of two handlers, and what they made of it so far. */
  function Shared(p: Payload, a: Phase, b: Phase): State {
    INIT.(queue := map[0 := Delivery(p, 2, false)], articles := {p.urlHash}, workers := map[0 := a, 1 := b])
  }

  /** The message is delivered again while the first handler is still at work. No handler dies, both
      acknowledge, and the one published article founds two clusters. */
  lemma OverlapCountsTwice(norm: Vec -> real, p: Payload) returns (evs: seq<Event>)
    requires GoodPayload(norm, p)
    ensures Run(norm, INIT, evs) && NoFail(evs)
    ensures var s := Exec(norm, INIT, evs);
      && s.committed == {Token(0, 1), Token(0, 2)} && s.db.Keys == {C, D}
      && s.queue.Keys == {0} && s.queue[0].done && s.workers == map[]
  {
    evs := LeadsToShared(norm, p);
    var s := Shared(p, Received(Token(0, 1)), Received(Token(0, 2)));
    evs, s := Prepares(norm, p, evs, s, 0, Token(0, 1), C);
    evs, s := Prepares(norm, p, evs, s, 1, Token(0, 2), D);
    evs := BothFound(norm, p, evs, s);
  }

  lemma LeadsToShared(norm: Vec -> real, p: Payload) returns (evs: seq<Event>)
    ensures NoFail(evs) && Leads(norm, evs, Shared(p, Received(Token(0, 1)), Received(Token(0, 2))))
  {
    var s := INIT;
    evs := [];
    evs := Follow(norm, evs, s, Publish(0, p));
    s := Apply(norm, s, Publish(0, p));
    evs := Follow(norm, evs, s, StoreArticle(p.urlHash));
    s := Apply(norm, s, StoreArticle(p.urlHash));
    evs := Follow(norm, evs, s, Deliver(0, 0));
    s := Apply(norm, s, Deliver(0, 0));
    evs := Follow(norm, evs, s, Deliver(1, 0));
    s := Apply(norm, s, Deliver(1, 0));
    assert s == Shared(p, Received(Token(0, 1)), Received(Token(0, 2)));
  }

  lemma BothFound(norm: Vec -> real, p: Payload, evs: seq<Event>, s: State) returns (more: seq<Event>)
    requires norm(p.embedding) != 0.0 && Leads(norm, evs, s) && NoFail(evs)
    requires s == Shared(p, Prepared(Token(0, 1), Create(norm, C, p, 1.0), true),
                         Prepared(Token(0, 2), Create(norm, D, p, 1.0), true)).(usedIds := {C, D})
    ensures Run(norm, INIT, more) && NoFail(more)
    ensures var r := Exec(norm, INIT, more);
      && r.committed == {Token(0, 1), Token(0, 2)} && r.db.Keys == {C, D}
      && r.queue.Keys == {0} && r.queue[0].done && r.workers == map[]
  {
    more := Follow(norm, evs, s, Transact(0));
    var t := Save(s, 0);
    more := Follow(norm, more, t, Transact(1));
    t := Save(t, 1);
    assert t.workers == map[0 := Saved(Token(0, 1), Create(norm, C, p, 1.0)), 1 := Saved(Token(0, 2), Create(norm, D, p, 1.0))];
    assert t.committed == {Token(0, 1), Token(0, 2)} && t.db.Keys == {C, D};
    more := BothFinish(norm, more, t);
  }

  lemma BothFinish(norm: Vec -> real, evs: seq<Event>, s: State) returns (more: seq<Event>)
    requires Leads(norm, evs, s) && NoFail(evs) && s.queue.Keys == {0} && s.workers.Keys == {0, 1}
    requires s.workers[0].Saved? && s.workers[1].Saved? && s.workers[0].token.msg == 0 == s.workers[1].token.msg
    ensures Run(norm, INIT, more) && NoFail(more)
    ensures var r := Exec(norm, INIT, more);
      r.committed == s.committed && r.db == s.db && r.queue.Keys == {0} && r.queue[0].done && r.workers == map[]
  {
    more := Follow(norm, evs, s, WriteCache(0));
    var t := PutCache(s, 0);
    more := Follow(norm, more, t, WriteCache(1));
    t := PutCache(t, 1);
    assert t.workers == map[0 := Cached(s.workers[0].token), 1 := Cached(s.workers[1].token)];
    assert t.db == s.db && t.committed == s.committed && t.queue == s.queue;
    more := BothAck(norm, more, t);
  }

  lemma BothAck(norm: Vec -> real, evs: seq<Event>, s: State) returns (more: seq<Event>)
    requires Leads(norm, evs, s) && NoFail(evs) && s.queue.Keys == {0} && s.workers.Keys == {0, 1}
    requires s.workers[0].Cached? && s.workers[1].Cached? && s.workers[0].token.msg == 0 == s.workers[1].token.msg
    ensures Run(norm, INIT, more) && NoFail(more)
    ensures var r := Exec(norm, INIT, more);
      r.committed == s.committed && r.db == s.db && r.queue.Keys == {0} && r.queue[0].done && r.workers == map[]
  {
    more := Follow(norm, evs, s, Finish(0));
    more := Follow(norm, more, Ack(s, 0), Finish(1));
  }
}

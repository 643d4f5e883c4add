/** When a published message counts once: the exact condition on each of its deliveries. */
module ClusterOnce {
  import opened Options
  import opened Vectors
  import opened Clusters
  import opened ClusterProtocol
  import opened ClusterCounts
  import opened Naturals

  predicate Counted(s: State, m: Msg) {
    exists t :: t in s.committed && t.msg == m
  }

  predicate CountedOnce(s: State, m: Msg) {
    forall t, u :: t in s.committed && u in s.committed && t.msg == m && u.msg == m ==> t == u
  }

  /** The handler can still get its row accepted: it has none yet, or its row would be accepted now. */
  predicate MayCommit(s: State, ph: Phase) {
    ph.Received? || ph.Matched? || (ph.Prepared? && Accepted(s.db, ph.row, ph.isNew))
  }

  predicate Pending(s: State, m: Msg) {
    exists w :: w in s.workers && s.workers[w].token.msg == m && MayCommit(s, s.workers[w])
  }

  /** If the event delivers `m`, no delivery of `m` was committed and no handler of `m` can still commit. */
  predicate Clear(s: State, ev: Event, m: Msg) {
    ev.Deliver? && ev.msg == m ==> !Counted(s, m) && !Pending(s, m)
  }

  ghost predicate DeliveredClear(norm: Vec -> real, s: State, evs: seq<Event>, m: Msg)
    requires Run(norm, s, evs)
    decreases |evs|
  {
    evs == [] || (Clear(s, evs[0], m) && DeliveredClear(norm, Apply(norm, s, evs[0]), evs[1..], m))
  }

  // ---- clear deliveries are enough ---------------------------------------------------------

  predicate PendingOnce(s: State, m: Msg) {
    forall v, w :: (
      && v in s.workers && s.workers[v].token.msg == m && MayCommit(s, s.workers[v])
      && w in s.workers && s.workers[w].token.msg == m && MayCommit(s, s.workers[w])) ==> v == w
  }

  predicate Once(s: State, m: Msg) {
    CountedOnce(s, m) && PendingOnce(s, m) && (Counted(s, m) ==> !Pending(s, m))
  }

  /** Whoever can commit afterwards could before, for the same delivery. */
  predicate Follows(s: State, t: State) {
    forall w :: w in t.workers && MayCommit(t, t.workers[w]) ==> (
      w in s.workers && s.workers[w].token == t.workers[w].token && MayCommit(s, s.workers[w]))
  }

  lemma OnceStays(s: State, t: State, m: Msg)
    requires Once(s, m) && Follows(s, t) && t.committed == s.committed
    ensures Once(t, m)
  {
  }

  lemma OthersFollow(norm: Vec -> real, s: State, ev: Event)
    requires Enabled(norm, s, ev) && !ev.Deliver? && !ev.Transact?
    ensures Follows(s, Apply(norm, s, ev)) && Apply(norm, s, ev).committed == s.committed
  {
    match ev
    case ReadCluster(w, now, newId) => ReadFollows(norm, s, w, now, newId);
    case Reject(w) => assert Follows(s, Ack(s, w));
    case Missing(w) => assert Follows(s, Ack(s, w));
    case Finish(w) => assert Follows(s, Ack(s, w));
    case WriteCache(w) => assert Follows(s, PutCache(s, w));
    case _ =>
  }

  lemma ReadFollows(norm: Vec -> real, s: State, w: Worker, now: Time, newId: Id)
    requires Reading(norm, s, w)
    ensures var t := Read(norm, s, w, now, newId); Follows(s, t) && t.committed == s.committed
  {
    ReadMoves(norm, s, w, now, newId);
    OneFollows(s, Read(norm, s, w, now, newId), w);
  }

  lemma OneFollows(s: State, t: State, w: Worker)
    requires w in s.workers && MayCommit(s, s.workers[w]) && t.db == s.db
    requires w in t.workers && t.workers == s.workers[w := t.workers[w]] && t.workers[w].token == s.workers[w].token
    ensures Follows(s, t)
  {
  }

  lemma OnceDelivered(norm: Vec -> real, s: State, ev: Event, m: Msg)
    requires Once(s, m) && Enabled(norm, s, ev) && ev.Deliver? && Clear(s, ev, m)
    ensures Once(Apply(norm, s, ev), m)
  {
    var t := Apply(norm, s, ev);
    assert t.committed == s.committed && t.db == s.db;
    forall v | v in t.workers && v != ev.w ensures v in s.workers && t.workers[v] == s.workers[v] {
    }
  }

  /** A row that a save has shut out is never accepted again. */
  lemma AcceptedBefore(db: map<Id, Row>, saved: Row, row: Row, isNew: bool)
    ensures Accepted(Upsert(db, saved), row, isNew) ==> Accepted(db, row, isNew)
  {
  }

  lemma OnceSaved(s: State, w: Worker, m: Msg)
    requires Once(s, m) && Known(s, w) && s.workers[w].Prepared?
    ensures Once(Save(s, w), m)
  {
    var ph, t := s.workers[w], Save(s, w);
    if Accepted(s.db, ph.row, ph.isNew) {
      forall v | v in t.workers && MayCommit(t, t.workers[v])
        ensures v != w && v in s.workers && s.workers[v] == t.workers[v] && MayCommit(s, s.workers[v])
      {
        if t.workers[v].Prepared? { AcceptedBefore(s.db, ph.row, t.workers[v].row, t.workers[v].isNew); }
      }
      OnceCommitted(s, t, w, m);
    } else {
      OnceStays(s, t, m);
    }
  }

  lemma OnceCommitted(s: State, t: State, w: Worker, m: Msg)
    requires Once(s, m) && w in s.workers && MayCommit(s, s.workers[w]) && Follows(s, t)
    requires t.committed == s.committed + {s.workers[w].token}
    requires forall v :: v in t.workers && MayCommit(t, t.workers[v]) ==> v != w
    ensures Once(t, m)
  {
    if s.workers[w].token.msg == m {
      assert Pending(s, m);
      assert !Pending(t, m);
    } else {
      assert Counted(t, m) ==> Counted(s, m);
      assert Pending(t, m) ==> Pending(s, m);
    }
  }

  lemma OnceStep(norm: Vec -> real, s: State, ev: Event, m: Msg)
    requires Once(s, m) && Enabled(norm, s, ev) && Clear(s, ev, m)
    ensures Once(Apply(norm, s, ev), m)
  {
    if ev.Deliver? {
      OnceDelivered(norm, s, ev, m);
    } else if ev.Transact? {
      OnceSaved(s, ev.w, m);
    } else {
      OthersFollow(norm, s, ev);
      OnceStays(s, Apply(norm, s, ev), m);
    }
  }

  lemma {:induction false} OnceRun(norm: Vec -> real, s: State, evs: seq<Event>, m: Msg)
    requires Once(s, m) && Run(norm, s, evs) && DeliveredClear(norm, s, evs, m)
    ensures Once(Exec(norm, s, evs), m)
    decreases |evs|
  {
    if evs != [] {
      OnceStep(norm, s, evs[0], m);
      OnceRun(norm, Apply(norm, s, evs[0]), evs[1..], m);
    }
  }

  /** A message counts at most once if each of its deliveries begins when none was committed and no
      handler of it can still commit. Time stamps play no part. */
  lemma CountsOnceIfDeliveredClear(norm: Vec -> real, evs: seq<Event>, m: Msg)
    requires Run(norm, INIT, evs) && DeliveredClear(norm, INIT, evs, m)
    ensures CountedOnce(Exec(norm, INIT, evs), m)
  {
    OnceRun(norm, INIT, evs, m);
  }

  // ---- and an unclear one can count the message twice --------------------------------------

  /** A run of events other than deliveries, with fresh stamps. */
  ghost predicate Quiet(norm: Vec -> real, s: State, evs: seq<Event>, t: State) {
    && Run(norm, s, evs) && Exec(norm, s, evs) == t && DistinctStamps(norm, s, evs)
    && forall ev <- evs :: !ev.Deliver?
  }

  lemma {:induction false} StampsAppend(norm: Vec -> real, s: State, evs: seq<Event>, ev: Event)
    requires Run(norm, s, evs) && DistinctStamps(norm, s, evs)
    requires Enabled(norm, Exec(norm, s, evs), ev) && FreshStamp(Exec(norm, s, evs), ev)
    ensures Run(norm, s, evs + [ev]) && DistinctStamps(norm, s, evs + [ev])
    decreases |evs|
  {
    RunAppend(norm, s, evs, ev);
    if evs == [] {
      assert evs + [ev] == [ev] && [ev][1..] == [];
    } else {
      assert (evs + [ev])[0] == evs[0] && (evs + [ev])[1..] == evs[1..] + [ev];
      StampsAppend(norm, Apply(norm, s, evs[0]), evs[1..], ev);
    }
  }

  lemma Go(norm: Vec -> real, s: State, evs: seq<Event>, t: State, ev: Event) returns (more: seq<Event>)
    requires Quiet(norm, s, evs, t) && Enabled(norm, t, ev) && !ev.Deliver? && FreshStamp(t, ev)
    ensures Quiet(norm, s, more, Apply(norm, t, ev))
  {
    more := evs + [ev];
    RunAppend(norm, s, evs, ev);
    StampsAppend(norm, s, evs, ev);
  }

  predicate Storable(norm: Vec -> real, p: Payload) {
    ValidEmbedding(p.embedding) && norm(p.embedding) != 0.0
  }

  /** The same handlers but for `v`, and the same queue. */
  predicate OnlyMoves(s: State, t: State, v: Worker) {
    t.queue == s.queue && v in t.workers && t.workers == s.workers[v := t.workers[v]]
  }

  /** A handler that may commit can go on to do so, whatever the others hold. */
  lemma CommitsAlone(norm: Vec -> real, s: State, v: Worker) returns (evs: seq<Event>, t: State)
    requires Known(s, v) && MayCommit(s, s.workers[v]) && Storable(norm, PayloadOf(s, s.workers[v].token))
    ensures Quiet(norm, s, evs, t) && OnlyMoves(s, t, v)
    ensures t.committed == s.committed + {s.workers[v].token}
  {
    var p := PayloadOf(s, s.workers[v].token);
    assert Quiet(norm, s, [], s);
    evs := Go(norm, s, [], s, StoreArticle(p.urlHash));
    t := Apply(norm, s, StoreArticle(p.urlHash));
    if t.workers[v].Received? { evs, t := GetsMatched(norm, s, evs, t, v); }
    if t.workers[v].Matched? { evs, t := GetsPrepared(norm, s, evs, t, v); }
    evs := Go(norm, s, evs, t, Transact(v));
    t := Save(t, v);
  }

  lemma GetsMatched(norm: Vec -> real, s: State, before: seq<Event>, b: State, v: Worker) returns (evs: seq<Event>, t: State)
    requires Quiet(norm, s, before, b) && OnlyMoves(s, b, v) && Known(b, v) && b.workers[v].Received?
    requires Storable(norm, PayloadOf(b, b.workers[v].token))
    ensures Quiet(norm, s, evs, t) && OnlyMoves(s, t, v) && t.committed == b.committed && t.articles == b.articles
    ensures t.workers[v].Matched? && t.workers[v].token == b.workers[v].token
  {
    evs := Go(norm, s, before, b, ReadActive(v));
    t := Apply(norm, b, ReadActive(v));
  }

  /** The cached copy expires, and the handler founds a cluster of its own. */
  lemma GetsPrepared(norm: Vec -> real, s: State, before: seq<Event>, b: State, v: Worker) returns (evs: seq<Event>, t: State)
    requires Quiet(norm, s, before, b) && OnlyMoves(s, b, v) && Known(b, v) && b.workers[v].Matched?
    requires Storable(norm, PayloadOf(b, b.workers[v].token))
    ensures Quiet(norm, s, evs, t) && OnlyMoves(s, t, v) && t.committed == b.committed && t.articles == b.articles
    ensures t.workers[v].Prepared? && t.workers[v].isNew && t.workers[v].token == b.workers[v].token
  {
    evs, t := before, b;
    if Joins(b, v) {
      evs := Go(norm, s, before, b, Expire(b.workers[v].pick.value));
      t := Apply(norm, b, Expire(b.workers[v].pick.value));
    }
    evs, t := Founds(norm, s, evs, t, v);
  }

  lemma Founds(norm: Vec -> real, s: State, before: seq<Event>, b: State, v: Worker) returns (evs: seq<Event>, t: State)
    requires Quiet(norm, s, before, b) && OnlyMoves(s, b, v) && Known(b, v) && b.workers[v].Matched? && !Joins(b, v)
    requires Storable(norm, PayloadOf(b, b.workers[v].token))
    ensures Quiet(norm, s, evs, t) && OnlyMoves(s, t, v) && t.committed == b.committed && t.articles == b.articles
    ensures t.workers[v].Prepared? && t.workers[v].isNew && t.workers[v].token == b.workers[v].token
  {
    var id := UnusedId(b.usedIds);
    evs := Go(norm, s, before, b, ReadCluster(v, 0.0, id));
    t := Read(norm, b, v, 0.0, id);
  }

  lemma {:induction false} QuietConcat(norm: Vec -> real, s: State, a: seq<Event>, t: State, b: seq<Event>, u: State)
    requires Quiet(norm, s, a, t) && Quiet(norm, t, b, u)
    ensures Quiet(norm, s, a + b, u)
    decreases |a|
  {
    if a == [] {
      assert a + b == b;
    } else {
      var next := Apply(norm, s, a[0]);
      assert Quiet(norm, next, a[1..], t) by { assert forall ev <- a[1..] :: ev in a; }
      QuietConcat(norm, next, a[1..], t, b, u);
      assert (a + b)[0] == a[0] && (a + b)[1..] == a[1..] + b;
      assert forall ev <- a + b :: ev in a || ev in b;
    }
  }

  lemma {:induction false} QuietIsClear(norm: Vec -> real, s: State, evs: seq<Event>, m: Msg)
    requires Run(norm, s, evs) && forall ev <- evs :: !ev.Deliver?
    ensures DeliveredClear(norm, s, evs, m)
    decreases |evs|
  {
    if evs != [] {
      assert evs[0] in evs && forall ev <- evs[1..] :: ev in evs;
      QuietIsClear(norm, Apply(norm, s, evs[0]), evs[1..], m);
    }
  }

  /** After this delivery, and with only clear deliveries of the message from then on, it is
      counted twice. */
  ghost predicate Doubles(norm: Vec -> real, s: State, ev: Event, more: seq<Event>, m: Msg) {
    && Enabled(norm, s, ev) && FreshStamp(s, ev)
    && var t := Apply(norm, s, ev);
      && Run(norm, t, more) && DistinctStamps(norm, t, more) && DeliveredClear(norm, t, more, m)
      && !CountedOnce(Exec(norm, t, more), m)
  }

  /** The new handler, after a committed delivery, commits too. */
  lemma DoublesAfterCommit(norm: Vec -> real, s: State, w: Worker, m: Msg) returns (more: seq<Event>)
    requires Base(s) && Enabled(norm, s, Deliver(w, m)) && Storable(norm, s.queue[m].payload) && Counted(s, m)
    ensures Doubles(norm, s, Deliver(w, m), more, m)
  {
    var t := Apply(norm, s, Deliver(w, m));
    var first :| first in s.committed && first.msg == m;
    assert QueueOk(s) && first != t.workers[w].token;
    var u;
    more, u := CommitsAlone(norm, t, w);
    assert first in u.committed && t.workers[w].token in u.committed;
    QuietIsClear(norm, t, more, m);
  }

  /** The old handler commits, and then the new one does. */
  lemma DoublesBesideHolder(norm: Vec -> real, s: State, w: Worker, m: Msg, v: Worker) returns (more: seq<Event>)
    requires Base(s) && Enabled(norm, s, Deliver(w, m)) && Storable(norm, s.queue[m].payload)
    requires v in s.workers && s.workers[v].token.msg == m && MayCommit(s, s.workers[v])
    ensures Doubles(norm, s, Deliver(w, m), more, m)
  {
    var t := Apply(norm, s, Deliver(w, m));
    assert HandlerOk(s, s.workers[v]);
    var earlier := s.workers[v].token;
    assert v != w && t.workers[v] == s.workers[v] && t.db == s.db && earlier != t.workers[w].token;
    var a, b, u, x;
    a, u := CommitsAlone(norm, t, v);
    assert u.workers[w] == t.workers[w] && u.queue == t.queue;
    b, x := CommitsAlone(norm, u, w);
    assert earlier in x.committed && t.workers[w].token in x.committed;
    more := a + b;
    QuietConcat(norm, t, a, u, b, x);
    QuietIsClear(norm, t, more, m);
  }

  /** The exact condition. After any run whatever, a possible delivery of a storable message can be
      followed, with only clear deliveries of it from then on, by a second commit exactly when it is
      not clear itself: when the message was committed before, or a handler can still commit it. */
  lemma UnclearDeliveriesExactly(norm: Vec -> real, evs: seq<Event>, s: State, w: Worker, m: Msg)
    requires Run(norm, INIT, evs) && s == Exec(norm, INIT, evs)
    requires Enabled(norm, s, Deliver(w, m)) && Storable(norm, s.queue[m].payload)
    ensures (exists more :: Doubles(norm, s, Deliver(w, m), more, m)) <==> Counted(s, m) || Pending(s, m)
  {
    BaseRun(norm, INIT, evs);
    if Counted(s, m) {
      var more := DoublesAfterCommit(norm, s, w, m);
    } else if Pending(s, m) {
      var v :| v in s.workers && s.workers[v].token.msg == m && MayCommit(s, s.workers[v]);
      var more := DoublesBesideHolder(norm, s, w, m, v);
    } else {
      var t := Apply(norm, s, Deliver(w, m));
      OnceDelivered(norm, s, Deliver(w, m), m);
      forall more | Run(norm, t, more) && DeliveredClear(norm, t, more, m)
        ensures CountedOnce(Exec(norm, t, more), m)
      {
        OnceRun(norm, t, more, m);
      }
    }
  }

  // ---- the whole table ---------------------------------------------------------------------

  lemma {:induction false} OneTokenEach(tokens: set<Token>, msgs: set<Msg>)
    requires forall t :: t in tokens ==> t.msg in msgs
    requires forall t, u :: t in tokens && u in tokens && t.msg == u.msg ==> t == u
    ensures |tokens| <= |msgs|
  {
    if tokens != {} {
      var t :| t in tokens;
      OneTokenEach(tokens - {t}, msgs - {t.msg});
    }
  }

  /** If all deliveries are clear, the article counts and the lost updates together are at most one for
      each message. */
  lemma CountsAtMostPublished(norm: Vec -> real, evs: seq<Event>, s: State)
    requires Run(norm, INIT, evs) && s == Exec(norm, INIT, evs)
    requires forall m :: DeliveredClear(norm, INIT, evs, m)
    ensures Total(s.db) + Lost(norm, INIT, evs) == |s.committed| <= |s.queue|
  {
    CountsAreConserved(norm, evs);
    BaseRun(norm, INIT, evs);
    forall t, u | t in s.committed && u in s.committed && t.msg == u.msg ensures t == u {
      CountsOnceIfDeliveredClear(norm, evs, t.msg);
    }
    OneTokenEach(s.committed, s.queue.Keys);
  }
}

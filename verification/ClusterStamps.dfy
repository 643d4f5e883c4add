/** Join attempts at one version of a cluster that never share a time stamp lose no update. */
module ClusterStamps {
  import opened Options
  import opened Vectors
  import opened Clusters
  import opened ClusterProtocol
  import opened ClusterCounts

  function AttemptOf(row: Row): Attempt {
    Attempt(row.id, row.version, row.lastActivity)
  }

  predicate PreparesJoin(ph: Phase) {
    ph.Prepared? && !ph.isNew
  }

  predicate RowStamped(s: State, id: Id)
    requires id in s.db
  {
    s.db[id].version > 1 ==> AttemptOf(s.db[id]) in s.attempts
  }

  predicate JoinStamped(s: State, ph: Phase) {
    PreparesJoin(ph) ==> AttemptOf(ph.row) in s.attempts && !Ties(s.db, ph.row)
  }

  predicate StampsDiffer(a: Phase, b: Phase) {
    PreparesJoin(a) && PreparesJoin(b) ==> AttemptOf(a.row) != AttemptOf(b.row)
  }

  /** Each attempt has a stamp of its own, be it still prepared or the one that made the stored row. */
  predicate Stamped(s: State) {
    && (forall id :: id in s.db ==> RowStamped(s, id))
    && (forall w :: w in s.workers ==> JoinStamped(s, s.workers[w]))
    && (forall v, w :: v in s.workers && w in s.workers && v != w ==> StampsDiffer(s.workers[v], s.workers[w]))
  }

  /** No handler has prepared a join that was not prepared before. */
  predicate JoinsBefore(s: State, t: State) {
    forall w :: w in t.workers && PreparesJoin(t.workers[w]) ==> w in s.workers && s.workers[w] == t.workers[w]
  }

  lemma NoNewJoin(s: State, t: State)
    requires Stamped(s) && JoinsBefore(s, t) && t.db == s.db && t.attempts == s.attempts
    ensures Stamped(t)
  {
    forall id | id in t.db ensures RowStamped(t, id) { assert RowStamped(s, id); }
    forall w | w in t.workers ensures JoinStamped(t, t.workers[w]) {
      assert w in s.workers ==> JoinStamped(s, s.workers[w]);
    }
    forall v, w | v in t.workers && w in t.workers && v != w ensures StampsDiffer(t.workers[v], t.workers[w]) {
      assert v in s.workers && w in s.workers ==> StampsDiffer(s.workers[v], s.workers[w]);
    }
  }

  lemma StampedOther(norm: Vec -> real, s: State, ev: Event)
    requires Stamped(s) && Enabled(norm, s, ev) && !ev.ReadCluster? && !ev.Transact?
    ensures Stamped(Apply(norm, s, ev))
  {
    NoNewJoin(s, Apply(norm, s, ev));
  }

  lemma StampedRead(norm: Vec -> real, s: State, w: Worker, now: Time, newId: Id)
    requires Base(s) && Stamped(s) && Enabled(norm, s, ReadCluster(w, now, newId)) && FreshStamp(s, ReadCluster(w, now, newId))
    ensures Stamped(Read(norm, s, w, now, newId))
  {
    var t, ph := Read(norm, s, w, now, newId), AfterRead(norm, s, w, now, newId);
    ReadMoves(norm, s, w, now, newId);
    if PreparesJoin(ph) {
      assert AttemptOf(ph.row) !in s.attempts && t.attempts == s.attempts + {AttemptOf(ph.row)};
      assert ph.row.version > 1 by { assert CachedOk(s, s.workers[w].pick.value); }
      OneNewJoin(s, t, w, ph);
    } else {
      assert t.attempts == s.attempts;
      NoNewJoin(s, t);
    }
  }

  lemma OneNewJoin(s: State, t: State, w: Worker, ph: Phase)
    requires StoresOk(s) && Stamped(s) && t.db == s.db && t.workers == s.workers[w := ph]
    requires PreparesJoin(ph) && ph.row.version > 1
    requires AttemptOf(ph.row) !in s.attempts && t.attempts == s.attempts + {AttemptOf(ph.row)}
    ensures Stamped(t)
  {
    forall id | id in t.db ensures RowStamped(t, id) { assert RowStamped(s, id); }
    if ph.row.id in s.db { assert StoredOk(s, ph.row.id) && RowStamped(s, ph.row.id); }
    forall v | v in t.workers ensures JoinStamped(t, t.workers[v]) {
      if v != w { assert JoinStamped(s, s.workers[v]); }
    }
    forall v, u | v in t.workers && u in t.workers && v != u ensures StampsDiffer(t.workers[v], t.workers[u]) {
      if v != w { assert JoinStamped(s, s.workers[v]); }
      if u != w { assert JoinStamped(s, s.workers[u]); }
      if v != w && u != w { assert StampsDiffer(s.workers[v], s.workers[u]); }
    }
  }

  lemma StampedSave(s: State, w: Worker)
    requires Base(s) && Stamped(s) && Preparing(s, w)
    ensures Stamped(Save(s, w))
  {
    if !Accepted(s.db, s.workers[w].row, s.workers[w].isNew) {
      NoNewJoin(s, Save(s, w));
    } else {
      SaveStampsRows(s, w);
      SaveStampsJoins(s, w);
    }
  }

  lemma SaveStampsJoins(s: State, w: Worker)
    requires Base(s) && Stamped(s) && Preparing(s, w) && Accepted(s.db, s.workers[w].row, s.workers[w].isNew)
    ensures var t := Save(s, w);
      && (forall v :: v in t.workers ==> JoinStamped(t, t.workers[v]))
      && (forall v, u :: v in t.workers && u in t.workers && v != u ==> StampsDiffer(t.workers[v], t.workers[u]))
  {
    var t := Save(s, w);
    forall v | v in t.workers ensures JoinStamped(t, t.workers[v]) {
      if v != w { OtherStamped(s, w, v); }
    }
    forall v, u | v in t.workers && u in t.workers && v != u ensures StampsDiffer(t.workers[v], t.workers[u]) {
      if v != w && u != w { assert StampsDiffer(s.workers[v], s.workers[u]); }
    }
  }

  lemma SaveStampsRows(s: State, w: Worker)
    requires Base(s) && Stamped(s) && Preparing(s, w) && Accepted(s.db, s.workers[w].row, s.workers[w].isNew)
    ensures forall id :: id in Save(s, w).db ==> RowStamped(Save(s, w), id)
  {
    var t := Save(s, w);
    AcceptedJoin(s, w);
    forall id | id in t.db ensures RowStamped(t, id) {
      if id == s.workers[w].row.id { SavedStamped(s, w); } else { assert RowStamped(s, id); }
    }
  }

  lemma SavedStamped(s: State, w: Worker)
    requires Base(s) && Stamped(s) && Preparing(s, w)
    ensures s.workers[w].row.version > 1 ==> AttemptOf(s.workers[w].row) in s.attempts
    ensures !Loses(s, Transact(w))
  {
    assert HandlerOk(s, s.workers[w]) && JoinStamped(s, s.workers[w]);
  }

  lemma OtherStamped(s: State, w: Worker, v: Worker)
    requires Base(s) && Stamped(s) && Preparing(s, w) && v in s.workers && v != w
    requires Accepted(s.db, s.workers[w].row, s.workers[w].isNew)
    ensures JoinStamped(Save(s, w), s.workers[v])
  {
    AcceptedJoin(s, w);
    assert HandlerOk(s, s.workers[w]) && HandlerOk(s, s.workers[v]);
    assert JoinStamped(s, s.workers[v]) && StampsDiffer(s.workers[w], s.workers[v]);
  }

  lemma StampedStep(norm: Vec -> real, s: State, ev: Event)
    requires Base(s) && Stamped(s) && Enabled(norm, s, ev) && FreshStamp(s, ev)
    ensures Stamped(Apply(norm, s, ev)) && !Loses(s, ev)
  {
    if ev.ReadCluster? {
      StampedRead(norm, s, ev.w, ev.now, ev.newId);
    } else if ev.Transact? {
      StampedSave(s, ev.w);
      SavedStamped(s, ev.w);
    } else {
      StampedOther(norm, s, ev);
    }
  }

  lemma {:induction false} StampedRun(norm: Vec -> real, s: State, evs: seq<Event>)
    requires Base(s) && Stamped(s) && Run(norm, s, evs) && DistinctStamps(norm, s, evs)
    ensures Lost(norm, s, evs) == 0 && Base(Exec(norm, s, evs)) && Stamped(Exec(norm, s, evs))
    decreases |evs|
  {
    if evs != [] {
      BaseStep(norm, s, evs[0]);
      StampedStep(norm, s, evs[0]);
      StampedRun(norm, Apply(norm, s, evs[0]), evs[1..]);
    }
  }

  /** If no two join attempts at one version of a cluster carry the same stamp, no update is lost, and
      none is about to be. */
  lemma DistinctStampsLoseNothing(norm: Vec -> real, evs: seq<Event>)
    requires Run(norm, INIT, evs) && DistinctStamps(norm, INIT, evs)
    ensures Lost(norm, INIT, evs) == 0
    ensures forall w :: !Loses(Exec(norm, INIT, evs), Transact(w))
  {
    StampedRun(norm, INIT, evs);
    var s := Exec(norm, INIT, evs);
    forall w ensures !Loses(s, Transact(w)) {
      if w in s.workers { assert JoinStamped(s, s.workers[w]); }
    }
  }
}

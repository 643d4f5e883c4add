/** When a cluster can still change: joins start from the cached copy, so a cluster whose newest row is
    not cached, and in nobody's hands, keeps its row for ever. */
module ClusterFrozen {
  import opened Options
  import opened Vectors
  import opened Clusters
  import opened ClusterProtocol
  import opened ClusterCounts
  import opened ClusterInvariant
  import opened ClusterTheorems

  /** The handler will write the cluster to the cache, or has prepared its next version. */
  predicate Carries(s: State, ph: Phase, id: Id)
    requires id in s.db
  {
    || (ph.Saved? && ph.row.id == id)
    || (ph.Prepared? && ph.row.id == id && ph.row.version > s.db[id].version)
  }

  /** The newest row is not in the cache, and no handler carries the cluster on. */
  predicate Frozen(s: State, id: Id) {
    && id in s.db
    && (id in s.cache ==> s.cache[id].version < s.db[id].version)
    && forall w :: w in s.workers ==> !Carries(s, s.workers[w], id)
  }

  // ---- frozen for ever ---------------------------------------------------------------------

  predicate StillFrozen(s: State, t: State, id: Id)
    requires id in s.db
  {
    Frozen(t, id) && t.db[id] == s.db[id] && (id !in s.cache ==> id !in t.cache)
  }

  lemma OneMoves(s: State, t: State, w: Worker, ph: Phase, id: Id)
    requires Frozen(s, id) && t.db == s.db && t.cache == s.cache && t.workers == s.workers[w := ph]
    requires !Carries(s, ph, id)
    ensures StillFrozen(s, t, id)
  {
  }

  lemma FrozenRead(norm: Vec -> real, s: State, w: Worker, now: Time, newId: Id, id: Id)
    requires Base(s) && Frozen(s, id) && Enabled(norm, s, ReadCluster(w, now, newId))
    ensures StillFrozen(s, Read(norm, s, w, now, newId), id)
  {
    ReadMoves(norm, s, w, now, newId);
    assert StoredOk(s, id);
    if Joins(s, w) { assert CachedOk(s, s.workers[w].pick.value); }
    OneMoves(s, Read(norm, s, w, now, newId), w, AfterRead(norm, s, w, now, newId), id);
  }

  lemma FrozenSave(s: State, w: Worker, id: Id)
    requires Base(s) && Frozen(s, id) && Preparing(s, w) && !Loses(s, Transact(w))
    ensures StillFrozen(s, Save(s, w), id)
  {
    assert HandlerOk(s, s.workers[w]) && StoredOk(s, id);
    assert !Carries(s, s.workers[w], id);
  }

  lemma FrozenOther(norm: Vec -> real, s: State, ev: Event, id: Id)
    requires Frozen(s, id) && Enabled(norm, s, ev) && !ev.ReadCluster? && !ev.Transact?
    ensures StillFrozen(s, Apply(norm, s, ev), id)
  {
    var t := Apply(norm, s, ev);
    if ev.WriteCache? { assert !Carries(s, s.workers[ev.w], id); }
    forall w | w in t.workers ensures !Carries(t, t.workers[w], id) {
      assert w in s.workers ==> !Carries(s, s.workers[w], id);
    }
  }

  lemma FrozenStep(norm: Vec -> real, s: State, ev: Event, id: Id)
    requires Base(s) && Frozen(s, id) && Enabled(norm, s, ev) && !Loses(s, ev)
    ensures StillFrozen(s, Apply(norm, s, ev), id)
  {
    if ev.ReadCluster? {
      FrozenRead(norm, s, ev.w, ev.now, ev.newId, id);
    } else if ev.Transact? {
      FrozenSave(s, ev.w, id);
    } else {
      FrozenOther(norm, s, ev, id);
    }
  }

  lemma {:induction false} FrozenRun(norm: Vec -> real, s: State, more: seq<Event>, id: Id)
    requires Base(s) && Frozen(s, id) && Run(norm, s, more) && Lost(norm, s, more) == 0
    ensures StillFrozen(s, Exec(norm, s, more), id)
    decreases |more|
  {
    if more != [] {
      BaseStep(norm, s, more[0]);
      FrozenStep(norm, s, more[0], id);
      FrozenRun(norm, Apply(norm, s, more[0]), more[1..], id);
    }
  }

  /** A handler that dies, or whose cache write fails, after its commit leaves the cluster frozen:
      nothing that happens later, not even the expiry of the cached copy, changes its row again. */
  lemma CrashFreezesCluster(norm: Vec -> real, evs: seq<Event>, s: State, w: Worker, more: seq<Event>)
    requires Reaches(norm, evs, s) && w in s.workers && s.workers[w].Saved?
    requires Run(norm, Idle(s, w), more) && Lost(norm, Idle(s, w), more) == 0
    ensures var id := s.workers[w].row.id; var t := Exec(norm, Idle(s, w), more);
      id in s.db && id in t.db && t.db[id] == s.db[id] == s.workers[w].row
  {
    ReachableInv(norm, evs, s);
    BaseIdle(s, w);
    CrashFreezes(norm, s, w);
    FrozenRun(norm, Idle(s, w), more, s.workers[w].row.id);
  }

  lemma CrashFreezes(norm: Vec -> real, s: State, w: Worker)
    requires Inv(norm, s) && w in s.workers && s.workers[w].Saved?
    ensures Frozen(Idle(s, w), s.workers[w].row.id) && s.db[s.workers[w].row.id] == s.workers[w].row
  {
    var id := s.workers[w].row.id;
    assert PhaseOk(norm, s, s.workers[w]);
    if id in s.cache { CachedVersion(norm, s, id); }
    forall v | v in s.workers && v != w ensures !Carries(s, s.workers[v], id) {
      assert PhaseOk(norm, s, s.workers[v]) && HandlerOk(s, s.workers[v]);
      assert !SaveSameCluster(s.workers[v], s.workers[w]);
    }
  }

  /** A cluster that expires from the cache while no handler carries it on is frozen as well, and is
      never cached again. */
  lemma ExpiryFreezesCluster(norm: Vec -> real, evs: seq<Event>, s: State, id: Id, more: seq<Event>)
    requires Reaches(norm, evs, s) && Run(norm, s, more) && Lost(norm, s, more) == 0
    requires id in s.db && id !in s.cache && forall w :: w in s.workers ==> !Carries(s, s.workers[w], id)
    ensures var t := Exec(norm, s, more); id in t.db && t.db[id] == s.db[id] && id !in t.cache
  {
    ReachableInv(norm, evs, s);
    FrozenRun(norm, s, more, id);
  }

  // ---- and otherwise not -------------------------------------------------------------------

  /** A run that loses no update and ends in `t`. */
  ghost predicate Goes(norm: Vec -> real, s: State, more: seq<Event>, t: State) {
    Run(norm, s, more) && Exec(norm, s, more) == t && Lost(norm, s, more) == 0
  }

  lemma {:induction false} GoOn(norm: Vec -> real, s: State, more: seq<Event>, t: State, ev: Event) returns (evs: seq<Event>)
    requires Goes(norm, s, more, t) && Enabled(norm, t, ev) && !Loses(t, ev)
    ensures evs == more + [ev] && Goes(norm, s, evs, Apply(norm, t, ev))
    decreases |more|
  {
    evs := more + [ev];
    RunAppend(norm, s, more, ev);
    if more == [] {
      assert evs == [ev] && [ev][1..] == [];
    } else {
      assert evs[0] == more[0] && evs[1..] == more[1..] + [ev];
      var rest := GoOn(norm, Apply(norm, s, more[0]), more[1..], t, ev);
    }
  }

  /** A handler that has prepared the next version stores it. */
  lemma NextIsStored(norm: Vec -> real, s: State, more: seq<Event>, b: State, v: Worker)
    returns (evs: seq<Event>, t: State)
    requires Goes(norm, s, more, b) && Preparing(b, v) && b.workers[v].row.id in b.db
    requires b.workers[v].row.version > b.db[b.workers[v].row.id].version
    ensures Goes(norm, s, evs, t) && b.workers[v].row.id in t.db && t.db[b.workers[v].row.id] == b.workers[v].row
  {
    var h := PayloadOf(b, b.workers[v].token).urlHash;
    evs := GoOn(norm, s, more, b, StoreArticle(h));
    t := Apply(norm, b, StoreArticle(h));
    evs := GoOn(norm, s, evs, t, Transact(v));
    t := Save(t, v);
  }

  /** A handler that has picked a cluster joins it from a cached copy that is up to date. */
  lemma PickIsJoined(norm: Vec -> real, s: State, more: seq<Event>, b: State, w: Worker, id: Id)
    returns (evs: seq<Event>, t: State)
    requires Goes(norm, s, more, b) && Picked(norm, b, w, id)
    requires id in b.cache && b.cache[id] == b.db[id]
    ensures Goes(norm, s, evs, t) && id in t.db && t.db[id].version > b.db[id].version
  {
    var newId := UnusedId(b.usedIds);
    evs := GoOn(norm, s, more, b, ReadCluster(w, 0.0, newId));
    t := Read(norm, b, w, 0.0, newId);
    ReadMoves(norm, b, w, 0.0, newId);
    evs, t := NextIsStored(norm, s, evs, t, w);
  }

  /** Handler `w` has picked the cluster, and its article can be joined to the stored row. */
  ghost predicate Picked(norm: Vec -> real, s: State, w: Worker, id: Id) {
    && Reading(norm, s, w) && s.workers[w].pick == Some(id)
    && id in s.db && s.db[id].id == id && Joinable(norm, s.db[id], PayloadOf(s, s.workers[w].token))
  }

  ghost predicate Unchanged(norm: Vec -> real, s: State, more: seq<Event>, id: Id)
    requires Run(norm, s, more) && id in s.db
  {
    var t := Exec(norm, s, more);
    id in t.db && t.db[id] == s.db[id]
  }

  lemma Thaws(norm: Vec -> real, s: State, id: Id, w: Worker) returns (more: seq<Event>, t: State)
    requires Inv(norm, s) && Picked(norm, s, w, id) && !Frozen(s, id)
    ensures Goes(norm, s, more, t) && id in t.db && t.db[id] != s.db[id]
  {
    assert Goes(norm, s, [], s);
    if id in s.cache && s.cache[id].version == s.db[id].version {
      UpToDateIsNewest(norm, s, id);
      more, t := PickIsJoined(norm, s, [], s, w, id);
    } else {
      if id in s.cache { assert CachedOk(s, id); }
      var v :| v in s.workers && Carries(s, s.workers[v], id);
      more, t := CarriedOn(norm, s, id, w, v);
    }
  }

  /** The handler that carries the cluster on stores it, or caches it to be joined. */
  lemma CarriedOn(norm: Vec -> real, s: State, id: Id, w: Worker, v: Worker) returns (more: seq<Event>, t: State)
    requires PhasesOk(norm, s) && Picked(norm, s, w, id) && Goes(norm, s, [], s)
    requires v in s.workers && Carries(s, s.workers[v], id)
    ensures Goes(norm, s, more, t) && id in t.db && t.db[id] != s.db[id]
  {
    assert PhaseOk(norm, s, s.workers[v]);
    if s.workers[v].Prepared? {
      more, t := NextIsStored(norm, s, [], s, v);
    } else {
      more := GoOn(norm, s, [], s, WriteCache(v));
      t := PutCache(s, v);
      assert Picked(norm, t, w, id);
      more, t := PickIsJoined(norm, s, more, t, w, id);
    }
  }

  lemma UpToDateIsNewest(norm: Vec -> real, s: State, id: Id)
    requires Inv(norm, s) && id in s.cache && id in s.db && s.cache[id].version == s.db[id].version
    ensures s.cache[id] == s.db[id]
  {
    CachedVersion(norm, s, id);
    assert RowOk(norm, s, id);
    assert EntryOk(norm, id, s.ledger[id], |s.ledger[id]| - 1);
  }

  /** The exact condition. A handler has picked a cluster for an article that can be joined to it. The
      cluster keeps its row over every continuation if and only if its newest row is not cached and no
      handler carries it on. */
  lemma FrozenExactly(norm: Vec -> real, evs: seq<Event>, s: State, id: Id, w: Worker)
    requires Reaches(norm, evs, s) && Picked(norm, s, w, id)
    ensures Frozen(s, id)
       <==> forall more | Run(norm, s, more) && Lost(norm, s, more) == 0 :: Unchanged(norm, s, more, id)
  {
    ReachableInv(norm, evs, s);
    if Frozen(s, id) {
      forall more | Run(norm, s, more) && Lost(norm, s, more) == 0 ensures Unchanged(norm, s, more, id) {
        FrozenRun(norm, s, more, id);
      }
    } else {
      var more, t := Thaws(norm, s, id, w);
      assert !Unchanged(norm, s, more, id);
    }
  }
}

/** What every event keeps as long as no update is lost: the accepted rows of each cluster are a
    sequential history. */
module ClusterInvariant {
  import opened Options
  import opened Vectors
  import opened Clusters
  import opened ClusterProtocol
  import opened ClusterCounts

  /** Entry `i` is what the sequential update makes of the entry before it. */
  ghost predicate EntryOk(norm: Vec -> real, id: Id, l: seq<Commit>, i: nat)
    requires i < |l|
  {
    var c := l[i];
    && c.row.id == id && c.row.version == i + 1 && c.row.articleCount == i + 1
    && if i == 0 then
         norm(c.payload.embedding) != 0.0 && c.row == Create(norm, id, c.payload, c.row.lastActivity)
       else
         Joinable(norm, l[i - 1].row, c.payload) && c.row == Join(norm, l[i - 1].row, c.payload, c.row.lastActivity)
  }

  ghost predicate LedgerOk(norm: Vec -> real, id: Id, l: seq<Commit>) {
    l != [] && forall i :: 0 <= i < |l| ==> EntryOk(norm, id, l, i)
  }

  /** The highest version of a cluster that was ever written to the cache. */
  function High(s: State, id: Id): nat {
    if id in s.published then s.published[id] else 0
  }

  ghost predicate RowOk(norm: Vec -> real, s: State, id: Id)
    requires id in s.db
  {
    && id in s.ledger && LedgerOk(norm, id, s.ledger[id])
    && var l := s.ledger[id];
    && s.db[id] == l[|l| - 1].row
    && |l| - 1 <= High(s, id) <= |l|
    && (id in s.cache ==> id in s.published && 1 <= s.published[id] && s.cache[id] == l[s.published[id] - 1].row)
  }

  ghost predicate KeysOk(s: State) {
    && s.ledger.Keys <= s.db.Keys
    && s.published.Keys <= s.db.Keys
    && s.cache.Keys <= s.db.Keys
  }

  /** A prepared join is the update of a row that had been cached. */
  ghost predicate JoinOk(norm: Vec -> real, s: State, row: Row, p: Payload) {
    && row.id in s.db && row.id in s.ledger
    && 2 <= row.version <= High(s, row.id) + 1
    && row.version - 1 <= |s.ledger[row.id]|
    && var base := s.ledger[row.id][row.version - 2].row;
    && Joinable(norm, base, p) && row == Join(norm, base, p, row.lastActivity)
  }

  ghost predicate PhaseOk(norm: Vec -> real, s: State, ph: Phase) {
    && ph.token.msg in s.queue
    && (ph.Prepared? && ph.isNew ==>
          && norm(PayloadOf(s, ph.token).embedding) != 0.0
          && ph.row == Create(norm, ph.row.id, PayloadOf(s, ph.token), ph.row.lastActivity))
    && (ph.Prepared? && !ph.isNew ==> JoinOk(norm, s, ph.row, PayloadOf(s, ph.token)))
    && (ph.Saved? ==> ph.row.id in s.db && ph.row == s.db[ph.row.id] && High(s, ph.row.id) + 1 == ph.row.version)
  }

  predicate SaveSameCluster(a: Phase, b: Phase) {
    a.Saved? && b.Saved? && a.row.id == b.row.id
  }

  ghost predicate RowsOk(norm: Vec -> real, s: State) {
    forall id :: id in s.db ==> RowOk(norm, s, id)
  }

  ghost predicate PhasesOk(norm: Vec -> real, s: State) {
    forall w :: w in s.workers ==> PhaseOk(norm, s, s.workers[w])
  }

  /** No two handlers hold unpublished rows of one cluster. */
  predicate SavesApart(s: State) {
    forall v, w :: v in s.workers && w in s.workers && v != w ==> !SaveSameCluster(s.workers[v], s.workers[w])
  }

  ghost predicate Inv(norm: Vec -> real, s: State) {
    Base(s) && KeysOk(s) && RowsOk(norm, s) && PhasesOk(norm, s) && SavesApart(s)
  }

  // ---- what a step that leaves the table alone keeps ----------------------------------------

  lemma SameStoresKeep(norm: Vec -> real, s: State, t: State)
    requires KeysOk(s) && RowsOk(norm, s) && SameStores(s, t)
    ensures KeysOk(t) && RowsOk(norm, t)
  {
    forall id | id in t.db ensures RowOk(norm, t, id) {
      assert RowOk(norm, s, id);
    }
  }

  lemma SamePhaseKeeps(norm: Vec -> real, s: State, t: State, ph: Phase)
    requires PhaseOk(norm, s, ph) && SameStores(s, t) && QueueGrows(s, t)
    ensures PhaseOk(norm, t, ph)
  {
  }

  /** One handler moves on, or stops, without a commit. */
  lemma QuietMove(norm: Vec -> real, s: State, t: State, w: Worker, ph: Option<Phase>)
    requires Inv(norm, s) && Base(t) && SameStores(s, t) && QueueGrows(s, t) && Moves(s, t, w, ph)
    requires ph.Some? ==> PhaseOk(norm, t, ph.value) && !ph.value.Saved?
    ensures Inv(norm, t)
  {
    SameStoresKeep(norm, s, t);
    forall v | v in t.workers ensures PhaseOk(norm, t, t.workers[v]) {
      if v in s.workers && t.workers[v] == s.workers[v] { SamePhaseKeeps(norm, s, t, s.workers[v]); }
    }
    NoNewSave(s, t, w, ph);
  }

  lemma NoNewSave(s: State, t: State, w: Worker, ph: Option<Phase>)
    requires SavesApart(s) && Moves(s, t, w, ph) && (ph.Some? ==> !ph.value.Saved?)
    ensures SavesApart(t)
  {
    forall v, u | v in t.workers && u in t.workers && v != u ensures !SaveSameCluster(t.workers[v], t.workers[u]) {
      assert v in s.workers && u in s.workers ==> !SaveSameCluster(s.workers[v], s.workers[u]);
    }
  }

  // ---- one lemma per event -----------------------------------------------------------------

  lemma KeepPublish(norm: Vec -> real, s: State, ev: Event)
    requires Inv(norm, s) && Enabled(norm, s, ev)
    requires ev.Publish? || ev.StoreArticle? || ev.Expire?
    ensures Inv(norm, Apply(norm, s, ev))
  {
    var t := Apply(norm, s, ev);
    BaseStep(norm, s, ev);
    AllPhasesKept(norm, s, t);
    SameStoresKeep(norm, s, t);
  }

  lemma AllPhasesKept(norm: Vec -> real, s: State, t: State)
    requires PhasesOk(norm, s) && SameStores(s, t) && QueueGrows(s, t) && t.workers == s.workers
    ensures PhasesOk(norm, t)
  {
    forall v | v in t.workers ensures PhaseOk(norm, t, t.workers[v]) {
      SamePhaseKeeps(norm, s, t, s.workers[v]);
    }
  }

  lemma KeepDeliver(norm: Vec -> real, s: State, ev: Event)
    requires Inv(norm, s) && Enabled(norm, s, ev) && ev.Deliver?
    ensures Inv(norm, Apply(norm, s, ev))
  {
    var t := Apply(norm, s, ev);
    BaseStep(norm, s, ev);
    QuietMove(norm, s, t, ev.w, Some(t.workers[ev.w]));
  }

  lemma KeepAck(norm: Vec -> real, s: State, w: Worker)
    requires Inv(norm, s) && Known(s, w)
    ensures Inv(norm, Ack(s, w))
  {
    BaseAck(s, w);
    QuietMove(norm, s, Ack(s, w), w, None);
  }

  lemma KeepIdle(norm: Vec -> real, s: State, w: Worker)
    requires Inv(norm, s) && w in s.workers
    ensures Inv(norm, Idle(s, w))
  {
    BaseIdle(s, w);
    QuietMove(norm, s, Idle(s, w), w, None);
  }

  lemma KeepReadActive(norm: Vec -> real, s: State, ev: Event)
    requires Inv(norm, s) && Enabled(norm, s, ev) && ev.ReadActive?
    ensures Inv(norm, Apply(norm, s, ev))
  {
    var t := Apply(norm, s, ev);
    BaseStep(norm, s, ev);
    QuietMove(norm, s, t, ev.w, Some(t.workers[ev.w]));
  }

  lemma KeepRead(norm: Vec -> real, s: State, w: Worker, now: Time, newId: Id)
    requires Inv(norm, s) && Enabled(norm, s, ReadCluster(w, now, newId))
    ensures Inv(norm, Read(norm, s, w, now, newId))
  {
    var t, ph := Read(norm, s, w, now, newId), AfterRead(norm, s, w, now, newId);
    BaseRead(norm, s, w, now, newId);
    ReadMoves(norm, s, w, now, newId);
    if ph.Prepared? && !ph.isNew {
      PreparedJoinIsOk(norm, s, t, s.workers[w].pick.value, PayloadOf(s, s.workers[w].token), now);
    }
    QuietMove(norm, s, t, w, Some(ph));
  }

  lemma PreparedJoinIsOk(norm: Vec -> real, s: State, t: State, key: Id, p: Payload, now: Time)
    requires KeysOk(s) && RowsOk(norm, s) && SameStores(s, t)
    requires key in s.cache && Joinable(norm, s.cache[key], p)
    ensures JoinOk(norm, t, Join(norm, s.cache[key], p, now), p)
  {
    assert RowOk(norm, s, key);
    assert EntryOk(norm, key, s.ledger[key], s.published[key] - 1);
  }

  // ---- the transaction ---------------------------------------------------------------------

  /** A prepared join is stored exactly when it is next in line; its handler goes on exactly then, or
      when it is taken for the row that is already there. */
  lemma AcceptedExactly(norm: Vec -> real, s: State, row: Row, p: Payload)
    requires RowsOk(norm, s) && JoinOk(norm, s, row, p)
    ensures Upsert(s.db, row) == (if row.version == |s.ledger[row.id]| + 1 then s.db[row.id := row] else s.db)
    ensures Accepted(s.db, row, false) <==> row.version == |s.ledger[row.id]| + 1 || Ties(s.db, row)
    ensures row.version == |s.ledger[row.id]| + 1 ==> !Ties(s.db, row) && High(s, row.id) == |s.ledger[row.id]|
  {
    assert RowOk(norm, s, row.id);
    var l := s.ledger[row.id];
    assert EntryOk(norm, row.id, l, |l| - 1);
  }

  lemma AppendKeepsLedger(norm: Vec -> real, id: Id, l: seq<Commit>, c: Commit)
    requires LedgerOk(norm, id, l)
    requires Joinable(norm, l[|l| - 1].row, c.payload)
    requires c.row == Join(norm, l[|l| - 1].row, c.payload, c.row.lastActivity)
    ensures LedgerOk(norm, id, l + [c])
  {
    var m := l + [c];
    forall i | 0 <= i < |m| ensures EntryOk(norm, id, m, i) {
      assert EntryOk(norm, id, l, if i < |l| then i else i - 1);
    }
  }

  /** An accepted join that ties with no row. */
  ghost predicate JoinsNow(norm: Vec -> real, s: State, w: Worker) {
    && Preparing(s, w) && !s.workers[w].isNew && PhaseOk(norm, s, s.workers[w])
    && Accepted(s.db, s.workers[w].row, false) && !Ties(s.db, s.workers[w].row)
  }

  lemma SaveJoinRows(norm: Vec -> real, s: State, w: Worker)
    requires KeysOk(s) && RowsOk(norm, s) && JoinsNow(norm, s, w)
    ensures KeysOk(Save(s, w)) && RowsOk(norm, Save(s, w))
  {
    var ph, t := s.workers[w], Save(s, w);
    var row, p := ph.row, PayloadOf(s, ph.token);
    AcceptedExactly(norm, s, row, p);
    forall id | id in t.db ensures RowOk(norm, t, id) {
      assert RowOk(norm, s, id);
      if id == row.id { JoinedRow(norm, s, t, Commit(ph.token, p, row)); } else { UntouchedRow(norm, s, t, id); }
    }
  }

  lemma JoinedRow(norm: Vec -> real, s: State, t: State, c: Commit)
    requires c.row.id in s.db && RowOk(norm, s, c.row.id) && JoinOk(norm, s, c.row, c.payload)
    requires c.row.version == |s.ledger[c.row.id]| + 1 && High(s, c.row.id) == |s.ledger[c.row.id]|
    requires t.published == s.published && t.cache == s.cache
    requires c.row.id in t.db && t.db[c.row.id] == c.row
    requires c.row.id in t.ledger && t.ledger[c.row.id] == s.ledger[c.row.id] + [c]
    ensures RowOk(norm, t, c.row.id)
  {
    AppendKeepsLedger(norm, c.row.id, s.ledger[c.row.id], c);
  }

  lemma UntouchedRow(norm: Vec -> real, s: State, t: State, id: Id)
    requires id in s.db && RowOk(norm, s, id) && id in t.db && t.db[id] == s.db[id]
    requires id in t.ledger && t.ledger[id] == s.ledger[id]
    requires t.published == s.published && t.cache == s.cache
    ensures RowOk(norm, t, id)
  {
  }

  lemma SaveJoinPhase(norm: Vec -> real, s: State, w: Worker, v: Worker)
    requires RowsOk(norm, s) && JoinsNow(norm, s, w) && v in s.workers && PhaseOk(norm, s, s.workers[v])
    ensures PhaseOk(norm, Save(s, w), Save(s, w).workers[v])
    ensures v != w ==> !SaveSameCluster(Save(s, w).workers[w], s.workers[v])
  {
    var row := s.workers[w].row;
    AcceptedExactly(norm, s, row, PayloadOf(s, s.workers[w].token));
    assert RowOk(norm, s, row.id);
    assert EntryOk(norm, row.id, s.ledger[row.id], |s.ledger[row.id]| - 1);
    if v != w && s.workers[v].Prepared? && !s.workers[v].isNew {
      OtherJoinStaysOk(norm, s, w, s.workers[v].row, PayloadOf(s, s.workers[v].token));
    }
  }

  lemma OtherJoinStaysOk(norm: Vec -> real, s: State, w: Worker, row: Row, p: Payload)
    requires RowsOk(norm, s) && JoinsNow(norm, s, w) && JoinOk(norm, s, row, p)
    ensures JoinOk(norm, Save(s, w), row, p)
  {
    AcceptedExactly(norm, s, s.workers[w].row, PayloadOf(s, s.workers[w].token));
  }

  lemma SaveNewRows(norm: Vec -> real, s: State, w: Worker)
    requires Inv(norm, s) && Preparing(s, w) && s.workers[w].isNew
    ensures KeysOk(Save(s, w)) && RowsOk(norm, Save(s, w))
  {
    var ph, t := s.workers[w], Save(s, w);
    assert PhaseOk(norm, s, ph) && HandlerOk(s, ph);
    forall id | id in t.db ensures RowOk(norm, t, id) {
      if id == ph.row.id {
        assert EntryOk(norm, id, t.ledger[id], 0);
      } else {
        assert RowOk(norm, s, id);
      }
    }
  }

  lemma SaveNewPhase(norm: Vec -> real, s: State, w: Worker, v: Worker)
    requires KeysOk(s) && Preparing(s, w) && s.workers[w].isNew && HandlerOk(s, s.workers[w])
    requires PhaseOk(norm, s, s.workers[w]) && v in s.workers && PhaseOk(norm, s, s.workers[v])
    ensures PhaseOk(norm, Save(s, w), Save(s, w).workers[v])
    ensures v != w ==> !SaveSameCluster(Save(s, w).workers[w], s.workers[v])
  {
  }

  lemma KeepTransact(norm: Vec -> real, s: State, w: Worker)
    requires Inv(norm, s) && Enabled(norm, s, Transact(w)) && !Loses(s, Transact(w))
    ensures Inv(norm, Save(s, w))
  {
    var ph, t := s.workers[w], Save(s, w);
    if !Accepted(s.db, ph.row, ph.isNew) {
      KeepIdle(norm, s, w);
    } else {
      BaseSave(s, w);
      assert PhaseOk(norm, s, ph);
      if ph.isNew { SaveNewRows(norm, s, w); } else { SaveJoinRows(norm, s, w); }
      SavePhases(norm, s, w);
    }
  }

  lemma SavePhases(norm: Vec -> real, s: State, w: Worker)
    requires Inv(norm, s) && Enabled(norm, s, Transact(w)) && Accepted(s.db, s.workers[w].row, s.workers[w].isNew)
    requires !Loses(s, Transact(w))
    ensures PhasesOk(norm, Save(s, w)) && SavesApart(Save(s, w))
  {
    var ph, t := s.workers[w], Save(s, w);
    assert HandlerOk(s, ph);
    forall v | v in t.workers
      ensures PhaseOk(norm, t, t.workers[v])
      ensures v != w ==> !SaveSameCluster(t.workers[w], t.workers[v])
    {
      if ph.isNew { SaveNewPhase(norm, s, w, v); } else { SaveJoinPhase(norm, s, w, v); }
    }
  }

  // ---- the cache write ---------------------------------------------------------------------

  lemma PutCacheRows(norm: Vec -> real, s: State, w: Worker)
    requires Inv(norm, s) && Enabled(norm, s, WriteCache(w))
    ensures KeysOk(PutCache(s, w)) && RowsOk(norm, PutCache(s, w))
  {
    var ph, t := s.workers[w], PutCache(s, w);
    assert PhaseOk(norm, s, ph);
    forall id | id in t.db ensures RowOk(norm, t, id) {
      assert RowOk(norm, s, id);
      if id == ph.row.id {
        assert EntryOk(norm, id, s.ledger[id], |s.ledger[id]| - 1);
        assert t.published[id] == |s.ledger[id]| && t.cache[id] == s.db[id];
        PublishedRow(norm, s, t, id);
      } else {
        SameRow(norm, s, t, id);
      }
    }
  }

  lemma PublishedRow(norm: Vec -> real, s: State, t: State, id: Id)
    requires id in s.db && RowOk(norm, s, id)
    requires t.db == s.db && t.ledger == s.ledger
    requires id in t.published && t.published[id] == |s.ledger[id]| && id in t.cache && t.cache[id] == s.db[id]
    ensures RowOk(norm, t, id)
  {
  }

  lemma SameRow(norm: Vec -> real, s: State, t: State, id: Id)
    requires id in s.db && RowOk(norm, s, id)
    requires t.db == s.db && t.ledger == s.ledger
    requires High(t, id) == High(s, id)
    requires id in t.cache ==> id in s.cache && t.cache[id] == s.cache[id] && id in t.published
    ensures RowOk(norm, t, id)
  {
  }

  lemma PutCachePhase(norm: Vec -> real, s: State, w: Worker, v: Worker)
    requires Inv(norm, s) && Enabled(norm, s, WriteCache(w)) && v in s.workers
    ensures PhaseOk(norm, PutCache(s, w), PutCache(s, w).workers[v])
  {
    assert PhaseOk(norm, s, s.workers[w]) && PhaseOk(norm, s, s.workers[v]);
    if v != w { OtherKeepsPhase(norm, s, w, v); }
  }

  lemma OtherKeepsPhase(norm: Vec -> real, s: State, w: Worker, v: Worker)
    requires w in s.workers && s.workers[w].Saved? && PhaseOk(norm, s, s.workers[w])
    requires v in s.workers && v != w && PhaseOk(norm, s, s.workers[v]) && !SaveSameCluster(s.workers[w], s.workers[v])
    ensures PhaseOk(norm, PutCache(s, w), s.workers[v])
  {
  }

  lemma KeepWriteCache(norm: Vec -> real, s: State, w: Worker)
    requires Inv(norm, s) && Enabled(norm, s, WriteCache(w))
    ensures Inv(norm, PutCache(s, w))
  {
    var t := PutCache(s, w);
    BasePutCache(s, w);
    PutCacheRows(norm, s, w);
    forall v | v in t.workers ensures PhaseOk(norm, t, t.workers[v]) {
      PutCachePhase(norm, s, w, v);
    }
  }

  // ---- all runs ----------------------------------------------------------------------------

  lemma KeepStep(norm: Vec -> real, s: State, ev: Event)
    requires Inv(norm, s) && Enabled(norm, s, ev) && !Loses(s, ev)
    ensures Inv(norm, Apply(norm, s, ev))
  {
    match ev
    case Publish(_, _) => KeepPublish(norm, s, ev);
    case StoreArticle(_) => KeepPublish(norm, s, ev);
    case Expire(_) => KeepPublish(norm, s, ev);
    case Deliver(_, _) => KeepDeliver(norm, s, ev);
    case ReadActive(_) => KeepReadActive(norm, s, ev);
    case ReadCluster(w, now, newId) => KeepRead(norm, s, w, now, newId);
    case Transact(w) => KeepTransact(norm, s, w);
    case WriteCache(w) => KeepWriteCache(norm, s, w);
    case Reject(w) => KeepAck(norm, s, w);
    case Missing(w) => KeepAck(norm, s, w);
    case Finish(w) => KeepAck(norm, s, w);
    case Fail(w) => KeepIdle(norm, s, w);
  }

  lemma {:induction false} KeepRun(norm: Vec -> real, s: State, evs: seq<Event>)
    requires Inv(norm, s) && Run(norm, s, evs) && Lost(norm, s, evs) == 0
    ensures Inv(norm, Exec(norm, s, evs))
    decreases |evs|
  {
    if evs != [] {
      KeepStep(norm, s, evs[0]);
      KeepRun(norm, Apply(norm, s, evs[0]), evs[1..]);
    }
  }
}

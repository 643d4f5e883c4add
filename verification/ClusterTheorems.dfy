/** What the invariant says about whole runs: sequential histories, exactly when no update is lost,
    and the cache. */
module ClusterTheorems {
  import opened Options
  import opened Vectors
  import opened Clusters
  import opened ClusterProtocol
  import opened ClusterCounts
  import opened ClusterStamps
  import opened ClusterInvariant

  // ---- the sequential reference ------------------------------------------------------------

  datatype Input = Input(payload: Payload, now: Time)

  /** One cluster served by one worker, article after article; no versions race here. */
  function Replay(norm: Vec -> real, id: Id, inputs: seq<Input>): Option<Row> {
    if inputs == [] then None
    else
      var n := |inputs| - 1;
      var x := inputs[n];
      if n == 0 then
        if norm(x.payload.embedding) != 0.0 then Some(Create(norm, id, x.payload, x.now)) else None
      else
        var prev := Replay(norm, id, inputs[..n]);
        if prev.Some? && Joinable(norm, prev.value, x.payload) then Some(Join(norm, prev.value, x.payload, x.now))
        else None
  }

  function Inputs(l: seq<Commit>): (r: seq<Input>)
    ensures |r| == |l|
  {
    seq(|l|, i requires 0 <= i < |l| => Input(l[i].payload, l[i].row.lastActivity))
  }

  lemma {:induction false} LedgerReplays(norm: Vec -> real, id: Id, l: seq<Commit>, n: nat)
    requires LedgerOk(norm, id, l) && 0 < n <= |l|
    ensures Replay(norm, id, Inputs(l[..n])) == Some(l[n - 1].row)
  {
    assert EntryOk(norm, id, l, n - 1);
    if n > 1 {
      LedgerReplays(norm, id, l, n - 1);
      assert Inputs(l[..n])[..n - 1] == Inputs(l[..n - 1]);
    }
  }

  /** A run from the empty system that loses no update. */
  ghost predicate Reaches(norm: Vec -> real, evs: seq<Event>, s: State) {
    Run(norm, INIT, evs) && Lost(norm, INIT, evs) == 0 && s == Exec(norm, INIT, evs)
  }

  lemma ReachableInv(norm: Vec -> real, evs: seq<Event>, s: State)
    requires Reaches(norm, evs, s)
    ensures Inv(norm, s)
  {
    KeepRun(norm, INIT, evs);
  }

  /** Every interleaving that loses no update is a sequential history: each cluster row and each row
      that was ever accepted for it is what one worker would have computed from the accepted articles
      in version order, and version and count both say how many there were. */
  lemma HistoryIsSequential(norm: Vec -> real, evs: seq<Event>, s: State, id: Id)
    requires Reaches(norm, evs, s) && id in s.db
    ensures id in s.ledger
    ensures Replay(norm, id, Inputs(s.ledger[id])) == Some(s.db[id])
    ensures s.db[id].version == s.db[id].articleCount == |s.ledger[id]|
    ensures forall i :: 0 <= i < |s.ledger[id]| ==> (
      && Replay(norm, id, Inputs(s.ledger[id][..i + 1])) == Some(s.ledger[id][i].row)
      && s.ledger[id][i].row.version == s.ledger[id][i].row.articleCount == i + 1)
  {
    assert LedgerOk(norm, id, s.ledger[id]) by {
      ReachableInv(norm, evs, s);
      assert RowOk(norm, s, id);
    }
    assert s.db[id] == s.ledger[id][|s.ledger[id]| - 1].row by {
      ReachableInv(norm, evs, s);
      assert RowOk(norm, s, id);
    }
    LedgerIsSequential(norm, id, s.ledger[id]);
  }

  lemma LedgerIsSequential(norm: Vec -> real, id: Id, l: seq<Commit>)
    requires LedgerOk(norm, id, l)
    ensures Replay(norm, id, Inputs(l)) == Some(l[|l| - 1].row)
    ensures l[|l| - 1].row.version == l[|l| - 1].row.articleCount == |l|
    ensures forall i :: 0 <= i < |l| ==> Replay(norm, id, Inputs(l[..i + 1])) == Some(l[i].row) && l[i].row.version == l[i].row.articleCount == i + 1
  {
    forall i | 0 <= i < |l|
      ensures Replay(norm, id, Inputs(l[..i + 1])) == Some(l[i].row) && l[i].row.version == l[i].row.articleCount == i + 1
    {
      assert EntryOk(norm, id, l, i);
      LedgerReplays(norm, id, l, i + 1);
    }
    assert l[..|l|] == l;
    assert EntryOk(norm, id, l, |l| - 1);
  }

  // ---- the sources of a cluster ------------------------------------------------------------

  function Sources(inputs: seq<Input>): set<string> {
    set i | 0 <= i < |inputs| :: inputs[i].payload.source
  }

  /** Input `k` brings a source that none before it had, and fewer than ten were known. */
  predicate BringsSource(inputs: seq<Input>, k: nat) {
    k < |inputs| && inputs[k].payload.source !in Sources(inputs[..k]) && |Sources(inputs[..k])| < 10
  }

  /** The row lists the first ten sources in the order in which they first came. */
  ghost predicate ListsSources(inputs: seq<Input>, top: seq<string>) {
    && |top| == (if |Sources(inputs)| < 10 then |Sources(inputs)| else 10)
    && (forall k: nat :: BringsSource(inputs, k) ==>
          |Sources(inputs[..k])| < |top| && top[|Sources(inputs[..k])|] == inputs[k].payload.source)
  }

  lemma SourcesGrow(inputs: seq<Input>, x: Input)
    ensures Sources(inputs + [x]) == Sources(inputs) + {x.payload.source}
    ensures |Sources(inputs + [x])| == |Sources(inputs)| + if x.payload.source in Sources(inputs) then 0 else 1
  {
    var more := inputs + [x];
    assert more[|inputs|] == x;
    assert forall i :: 0 <= i < |inputs| ==> more[i] == inputs[i];
  }

  /** `top` are the first ten of the known sources, in some order. */
  predicate FirstTen(known: set<string>, top: seq<string>) {
    && |top| == (if |known| < 10 then |known| else 10)
    && (forall s :: s in top ==> s in known)
    && (|known| <= 10 ==> forall s :: s in known ==> s in top)
  }

  lemma AddedSource(known: set<string>, top: seq<string>, source: string)
    requires FirstTen(known, top)
    ensures var more := AddSource(top, source);
      && FirstTen(known + {source}, more) && top <= more
      && (source !in known && |known| < 10 ==> |known| < |more| && more[|known|] == source)
  {
    assert |known + {source}| == |known| + if source in known then 0 else 1 by {
      if source in known { assert known + {source} == known; }
    }
  }

  lemma ListGrows(inputs: seq<Input>, x: Input, top: seq<string>)
    requires ListsSources(inputs, top) && FirstTen(Sources(inputs), top)
    ensures var more := AddSource(top, x.payload.source);
      ListsSources(inputs + [x], more) && FirstTen(Sources(inputs + [x]), more)
  {
    SourcesGrow(inputs, x);
    AddedSource(Sources(inputs), top, x.payload.source);
    var all, more := inputs + [x], AddSource(top, x.payload.source);
    forall k: nat | BringsSource(all, k)
      ensures |Sources(all[..k])| < |more| && more[|Sources(all[..k])|] == all[k].payload.source
    {
      if k < |inputs| {
        assert all[..k] == inputs[..k];
        assert BringsSource(inputs, k);
      } else {
        assert all[..k] == inputs;
      }
    }
  }

  lemma {:induction false} SourcesOfReplay(norm: Vec -> real, id: Id, inputs: seq<Input>)
    requires Replay(norm, id, inputs).Some?
    ensures var top := Replay(norm, id, inputs).value.topSources;
      ListsSources(inputs, top) && FirstTen(Sources(inputs), top)
  {
    var n := |inputs| - 1;
    var x := inputs[n];
    assert inputs[..n] + [x] == inputs;
    if n == 0 {
      assert Sources([]) == {} && inputs[..0] == [];
      ListGrows([], x, []);
    } else {
      SourcesOfReplay(norm, id, inputs[..n]);
      ListGrows(inputs[..n], x, Replay(norm, id, inputs[..n]).value.topSources);
    }
  }

  /** After any run that loses no update, each cluster lists the first ten sources among its accepted
      articles, in the order in which they first came. */
  lemma SourcesAreFirstTen(norm: Vec -> real, evs: seq<Event>, s: State, id: Id)
    requires Reaches(norm, evs, s) && id in s.db
    ensures id in s.ledger && ListsSources(Inputs(s.ledger[id]), s.db[id].topSources)
  {
    HistoryIsSequential(norm, evs, s, id);
    SourcesOfReplay(norm, id, Inputs(s.ledger[id]));
  }

  // ---- a lost update is never made good ----------------------------------------------------

  /** A cluster counts fewer articles than were accepted for it. */
  predicate Behind(s: State, id: Id) {
    id in s.db && s.db[id].articleCount < |Entries(s.ledger, id)|
  }

  lemma BehindStays(norm: Vec -> real, s: State, ev: Event, id: Id)
    requires Base(s) && Enabled(norm, s, ev) && Behind(s, id)
    ensures Behind(Apply(norm, s, ev), id)
  {
    if !ev.Transact? {
      OthersDoNotSave(norm, s, ev);
    } else if Accepted(s.db, s.workers[ev.w].row, s.workers[ev.w].isNew) {
      AcceptedJoin(s, ev.w);
    }
  }

  lemma LosingFallsBehind(norm: Vec -> real, s: State, ev: Event) returns (id: Id)
    requires Base(s) && Enabled(norm, s, ev) && Loses(s, ev)
    ensures Behind(Apply(norm, s, ev), id)
  {
    id := s.workers[ev.w].row.id;
    assert StoredOk(s, id);
    AcceptedJoin(s, ev.w);
  }

  lemma {:induction false} BehindRun(norm: Vec -> real, s: State, evs: seq<Event>, id: Id)
    requires Base(s) && Run(norm, s, evs) && Behind(s, id)
    ensures Behind(Exec(norm, s, evs), id)
    decreases |evs|
  {
    if evs != [] {
      BaseStep(norm, s, evs[0]);
      BehindStays(norm, s, evs[0], id);
      BehindRun(norm, Apply(norm, s, evs[0]), evs[1..], id);
    }
  }

  lemma {:induction false} LostLeavesBehind(norm: Vec -> real, s: State, evs: seq<Event>) returns (id: Id)
    requires Base(s) && Run(norm, s, evs) && Lost(norm, s, evs) > 0
    ensures Behind(Exec(norm, s, evs), id)
    decreases |evs|
  {
    BaseStep(norm, s, evs[0]);
    var t := Apply(norm, s, evs[0]);
    if Loses(s, evs[0]) {
      id := LosingFallsBehind(norm, s, evs[0]);
      BehindRun(norm, t, evs[1..], id);
    } else {
      id := LostLeavesBehind(norm, t, evs[1..]);
    }
  }

  lemma {:induction false} ReplayCounts(norm: Vec -> real, id: Id, inputs: seq<Input>)
    requires Replay(norm, id, inputs).Some?
    ensures Replay(norm, id, inputs).value.articleCount == |inputs|
  {
    if |inputs| > 1 { ReplayCounts(norm, id, inputs[..|inputs| - 1]); }
  }

  /** Each row is what one worker would have computed from the articles accepted for it. */
  ghost predicate Sequential(norm: Vec -> real, s: State) {
    forall id :: id in s.db ==> Replay(norm, id, Inputs(Entries(s.ledger, id))) == Some(s.db[id])
  }

  /** The exact condition, for every run: the table is a sequential history of what was accepted
      if and only if the run has lost no update. */
  lemma SequentialExactly(norm: Vec -> real, evs: seq<Event>)
    requires Run(norm, INIT, evs)
    ensures Sequential(norm, Exec(norm, INIT, evs)) <==> Lost(norm, INIT, evs) == 0
  {
    var s := Exec(norm, INIT, evs);
    if Lost(norm, INIT, evs) == 0 {
      forall id | id in s.db ensures Replay(norm, id, Inputs(Entries(s.ledger, id))) == Some(s.db[id]) {
        HistoryIsSequential(norm, evs, s, id);
      }
    } else {
      var id := LostLeavesBehind(norm, INIT, evs);
      if Sequential(norm, s) { ReplayCounts(norm, id, Inputs(Entries(s.ledger, id))); }
    }
  }

  // ---- the cache ---------------------------------------------------------------------------

  predicate CachedIsAccepted(s: State, id: Id)
    requires id in s.cache
  {
    && id in s.db && id in s.ledger
    && 1 <= s.cache[id].version <= |s.ledger[id]|
    && s.cache[id] == s.ledger[id][s.cache[id].version - 1].row
    && 0 <= s.db[id].version - s.cache[id].version <= 1
  }

  predicate OpensGap(s: State, row: Row) {
    && row.id in s.db && row == s.db[row.id]
    && (row.id in s.cache ==> s.cache[row.id].version + 1 == row.version)
  }

  /** A cached cluster is an accepted row, the newest or the one before it; between commit and
      cache write there is at most one handler per cluster, and only while that gap is open. */
  lemma CacheTracksDatabase(norm: Vec -> real, evs: seq<Event>, s: State)
    requires Reaches(norm, evs, s)
    ensures forall id :: id in s.cache ==> CachedIsAccepted(s, id)
    ensures forall w :: w in s.workers && s.workers[w].Saved? ==> OpensGap(s, s.workers[w].row)
    ensures forall v, w :: v in s.workers && w in s.workers && v != w ==> !SaveSameCluster(s.workers[v], s.workers[w])
  {
    ReachableInv(norm, evs, s);
    forall id | id in s.cache ensures CachedIsAccepted(s, id) {
      CachedVersion(norm, s, id);
    }
    forall w | w in s.workers && s.workers[w].Saved? ensures OpensGap(s, s.workers[w].row) {
      assert PhaseOk(norm, s, s.workers[w]);
      if s.workers[w].row.id in s.cache { CachedVersion(norm, s, s.workers[w].row.id); }
    }
    forall v, w | v in s.workers && w in s.workers && v != w ensures !SaveSameCluster(s.workers[v], s.workers[w]) {
      assert !SaveSameCluster(s.workers[v], s.workers[w]);
    }
  }

  lemma CachedVersion(norm: Vec -> real, s: State, id: Id)
    requires Inv(norm, s) && id in s.cache
    ensures CachedIsAccepted(s, id)
    ensures id in s.published && s.cache[id].version == s.published[id]
  {
    assert RowOk(norm, s, id);
    var l := s.ledger[id];
    assert EntryOk(norm, id, l, s.published[id] - 1);
    assert EntryOk(norm, id, l, |l| - 1);
  }

  /** While the cached copy lags behind, no prepared join of that cluster is stored. Its handler stores
      nothing and gives the message back for redelivery, exactly when its join does not tie with the row
      that is there; and it never does when the stamps of join attempts are distinct. */
  lemma GapBlocksJoins(norm: Vec -> real, evs: seq<Event>, s: State, w: Worker)
    requires Reaches(norm, evs, s)
    requires Known(s, w) && s.workers[w].Prepared? && !s.workers[w].isNew
    requires var id := s.workers[w].row.id; id in s.cache && id in s.db && s.cache[id].version < s.db[id].version
    ensures Save(s, w).db == s.db
    ensures Save(s, w) == Idle(s, w) <==> !Ties(s.db, s.workers[w].row)
    ensures DistinctStamps(norm, INIT, evs) ==> Save(s, w) == Idle(s, w)
  {
    ReachableInv(norm, evs, s);
    var ph := s.workers[w];
    assert PhaseOk(norm, s, ph);
    LaggingCacheBlocks(norm, s, ph.row, PayloadOf(s, ph.token));
    AcceptedExactly(norm, s, ph.row, PayloadOf(s, ph.token));
    if DistinctStamps(norm, INIT, evs) {
      DistinctStampsLoseNothing(norm, evs);
      assert !Loses(s, Transact(w));
    }
    assert w in Save(s, w).workers <==> Ties(s.db, ph.row);
  }

  lemma LaggingCacheBlocks(norm: Vec -> real, s: State, row: Row, p: Payload)
    requires Inv(norm, s) && JoinOk(norm, s, row, p)
    requires row.id in s.cache && s.cache[row.id].version < s.db[row.id].version
    ensures row.version != |s.ledger[row.id]| + 1
  {
    CachedVersion(norm, s, row.id);
    assert RowOk(norm, s, row.id);
    assert EntryOk(norm, row.id, s.ledger[row.id], |s.ledger[row.id]| - 1);
  }

  lemma HighStep(norm: Vec -> real, s: State, ev: Event, id: Id)
    requires Inv(norm, s) && Enabled(norm, s, ev)
    ensures High(s, id) <= High(Apply(norm, s, ev), id)
  {
    if ev.WriteCache? {
      assert PhaseOk(norm, s, s.workers[ev.w]);
      var row := s.workers[ev.w].row;
      assert Apply(norm, s, ev).published == s.published[row.id := row.version];
    } else {
      OthersDoNotPublish(norm, s, ev);
    }
  }

  lemma OthersDoNotPublish(norm: Vec -> real, s: State, ev: Event)
    requires Enabled(norm, s, ev) && !ev.WriteCache?
    ensures Apply(norm, s, ev).published == s.published
  {
    match ev
    case ReadCluster(w, now, newId) => assert Read(norm, s, w, now, newId).published == s.published;
    case Transact(w) => assert Save(s, w).published == s.published;
    case _ =>
  }

  lemma {:induction false} HighRun(norm: Vec -> real, s: State, evs: seq<Event>, id: Id)
    requires Inv(norm, s) && Run(norm, s, evs) && Lost(norm, s, evs) == 0
    ensures High(s, id) <= High(Exec(norm, s, evs), id)
    decreases |evs|
  {
    if evs != [] {
      KeepStep(norm, s, evs[0]);
      HighStep(norm, s, evs[0], id);
      HighRun(norm, Apply(norm, s, evs[0]), evs[1..], id);
    }
  }

  /** A cached version never goes backwards, not even across an expiry. */
  lemma CacheNeverGoesBack(norm: Vec -> real, evs: seq<Event>, s: State, more: seq<Event>, id: Id)
    requires Reaches(norm, evs, s) && Run(norm, s, more) && Lost(norm, s, more) == 0
    requires id in s.cache && id in Exec(norm, s, more).cache
    ensures s.cache[id].version <= Exec(norm, s, more).cache[id].version
  {
    ReachableInv(norm, evs, s);
    KeepRun(norm, s, more);
    HighRun(norm, s, more, id);
    CachedVersion(norm, s, id);
    CachedVersion(norm, Exec(norm, s, more), id);
  }

  // ---- the index of active clusters ----------------------------------------------------------

  predicate IndexedOk(s: State, id: Id) {
    && (id in s.index <==> id in s.published)
    && (id in s.index ==> id in s.ledger && 1 <= s.published[id] <= |s.ledger[id]|
                          && s.index[id] == s.ledger[id][s.published[id] - 1].row.lastActivity)
  }

  lemma OthersDoNotIndex(norm: Vec -> real, s: State, ev: Event)
    requires Enabled(norm, s, ev) && !ev.WriteCache?
    ensures Apply(norm, s, ev).index == s.index && Apply(norm, s, ev).published == s.published
  {
    OthersDoNotPublish(norm, s, ev);
    match ev
    case ReadCluster(w, now, newId) => ReadMoves(norm, s, w, now, newId);
    case Transact(w) => assert Save(s, w).index == s.index;
    case _ =>
  }

  lemma IndexedStep(norm: Vec -> real, s: State, ev: Event, id: Id)
    requires Inv(norm, s) && Enabled(norm, s, ev) && IndexedOk(s, id)
    ensures IndexedOk(Apply(norm, s, ev), id)
  {
    if ev.WriteCache? {
      IndexedPut(norm, s, ev.w, id);
    } else {
      OthersDoNotIndex(norm, s, ev);
      if !ev.Transact? { OthersDoNotSave(norm, s, ev); }
    }
  }

  lemma IndexedPut(norm: Vec -> real, s: State, w: Worker, id: Id)
    requires Inv(norm, s) && Enabled(norm, s, WriteCache(w)) && IndexedOk(s, id)
    ensures IndexedOk(PutCache(s, w), id)
  {
    var row := s.workers[w].row;
    assert PhaseOk(norm, s, s.workers[w]) && RowOk(norm, s, row.id);
    assert EntryOk(norm, row.id, s.ledger[row.id], |s.ledger[row.id]| - 1);
  }

  lemma {:induction false} IndexedRun(norm: Vec -> real, s: State, evs: seq<Event>, id: Id)
    requires Inv(norm, s) && Run(norm, s, evs) && Lost(norm, s, evs) == 0 && IndexedOk(s, id)
    ensures IndexedOk(Exec(norm, s, evs), id)
    decreases |evs|
  {
    if evs != [] {
      KeepStep(norm, s, evs[0]);
      IndexedStep(norm, s, evs[0], id);
      IndexedRun(norm, Apply(norm, s, evs[0]), evs[1..], id);
    }
  }

  /** The index holds exactly the clusters that were ever cached, each under the time stamp of the
      accepted row that was cached last; expiry does not take them out. */
  lemma IndexTracksCache(norm: Vec -> real, evs: seq<Event>, s: State, id: Id)
    requires Reaches(norm, evs, s)
    ensures id in s.index <==> id in s.published
    ensures id in s.index ==> id in s.ledger && 1 <= s.published[id] <= |s.ledger[id]|
                              && s.index[id] == s.ledger[id][s.published[id] - 1].row.lastActivity
    ensures id in s.cache ==> id in s.index && s.index[id] == s.cache[id].lastActivity
  {
    IndexedRun(norm, INIT, evs, id);
    ReachableInv(norm, evs, s);
    if id in s.cache { assert RowOk(norm, s, id); }
  }

  // ---- which messages are done with ---------------------------------------------------------

  /** The messages that a handler rejected, found no article for, or finished. */
  ghost function Answered(norm: Vec -> real, s: State, evs: seq<Event>): set<Msg>
    requires Run(norm, s, evs)
    decreases |evs|
  {
    if evs == [] then {}
    else
      (if evs[0].Reject? || evs[0].Missing? || evs[0].Finish? then {s.workers[evs[0].w].token.msg} else {})
      + Answered(norm, Apply(norm, s, evs[0]), evs[1..])
  }

  predicate Done(s: State, m: Msg) {
    m in s.queue && s.queue[m].done
  }

  lemma AnswerStep(norm: Vec -> real, s: State, ev: Event, m: Msg)
    requires Enabled(norm, s, ev)
    ensures Done(Apply(norm, s, ev), m)
       <==> Done(s, m) || ((ev.Reject? || ev.Missing? || ev.Finish?) && s.workers[ev.w].token.msg == m)
  {
    match ev
    case ReadCluster(w, now, newId) => ReadMoves(norm, s, w, now, newId);
    case Transact(w) => assert Save(s, w).queue == s.queue;
    case _ =>
  }

  /** Over every run: a message is done with exactly when some handler rejected it, found no article row
      for it, or finished; a commit, a crash or a conflict alone leaves it to be delivered again. */
  lemma {:induction false} DoneExactly(norm: Vec -> real, s: State, evs: seq<Event>, m: Msg)
    requires Run(norm, s, evs)
    ensures Done(Exec(norm, s, evs), m) <==> Done(s, m) || m in Answered(norm, s, evs)
    decreases |evs|
  {
    if evs != [] {
      AnswerStep(norm, s, evs[0], m);
      DoneExactly(norm, Apply(norm, s, evs[0]), evs[1..], m);
    }
  }

  function DeliveriesOf(evs: seq<Event>, m: Msg): nat {
    if evs == [] then 0 else (if evs[0].Deliver? && evs[0].msg == m then 1 else 0) + DeliveriesOf(evs[1..], m)
  }

  predicate Published(evs: seq<Event>, m: Msg) {
    exists i :: 0 <= i < |evs| && evs[i].Publish? && evs[i].msg == m
  }

  function Begun(s: State, m: Msg): nat {
    if m in s.queue then s.queue[m].count else 0
  }

  lemma BegunStep(norm: Vec -> real, s: State, ev: Event, m: Msg)
    requires Enabled(norm, s, ev)
    ensures Begun(Apply(norm, s, ev), m) == Begun(s, m) + if ev.Deliver? && ev.msg == m then 1 else 0
    ensures m in Apply(norm, s, ev).queue <==> m in s.queue || (ev.Publish? && ev.msg == m)
  {
    match ev
    case ReadCluster(w, now, newId) => ReadMoves(norm, s, w, now, newId);
    case Transact(w) => assert Save(s, w).queue == s.queue;
    case _ =>
  }

  lemma {:induction false} BegunRun(norm: Vec -> real, s: State, evs: seq<Event>, m: Msg)
    requires Run(norm, s, evs)
    ensures Begun(Exec(norm, s, evs), m) == Begun(s, m) + DeliveriesOf(evs, m)
    ensures m in Exec(norm, s, evs).queue <==> m in s.queue || Published(evs, m)
    decreases |evs|
  {
    if evs != [] {
      BegunStep(norm, s, evs[0], m);
      BegunRun(norm, Apply(norm, s, evs[0]), evs[1..], m);
      assert Published(evs, m) <==> (evs[0].Publish? && evs[0].msg == m) || Published(evs[1..], m) by {
        assert forall i :: 1 <= i < |evs| ==> evs[i] == evs[1..][i - 1];
        assert forall i :: 0 <= i < |evs[1..]| ==> evs[1..][i] == evs[i + 1];
      }
    }
  }

  /** After any run, a free worker can be handed a message exactly when it was published, is not done with, and
      was delivered fewer than five times. */
  lemma DeliverableExactly(norm: Vec -> real, evs: seq<Event>, w: Worker, m: Msg)
    requires Run(norm, INIT, evs) && w !in Exec(norm, INIT, evs).workers
    ensures Enabled(norm, Exec(norm, INIT, evs), Deliver(w, m))
       <==> Published(evs, m) && m !in Answered(norm, INIT, evs) && DeliveriesOf(evs, m) < 5
  {
    BegunRun(norm, INIT, evs, m);
    DoneExactly(norm, INIT, evs, m);
  }

  /** Every stored and every cached centroid is a unit vector. */
  lemma CentroidsAreUnit(norm: Vec -> real, evs: seq<Event>, s: State, id: Id)
    requires IsNorm(norm) && Reaches(norm, evs, s) && id in s.db
    ensures norm(s.db[id].centroid) == 1.0
    ensures id in s.cache ==> norm(s.cache[id].centroid) == 1.0
  {
    ReachableInv(norm, evs, s);
    assert RowOk(norm, s, id);
    var l := s.ledger[id];
    EntryIsUnit(norm, id, l, |l| - 1);
    if id in s.cache { EntryIsUnit(norm, id, l, s.published[id] - 1); }
  }

  lemma EntryIsUnit(norm: Vec -> real, id: Id, l: seq<Commit>, i: nat)
    requires IsNorm(norm) && LedgerOk(norm, id, l) && i < |l|
    ensures norm(l[i].row.centroid) == 1.0
  {
    var c := l[i];
    assert EntryOk(norm, id, l, i);
    UpdatesAreUnit(norm, if i == 0 then c.row else l[i - 1].row, c.payload, c.row.lastActivity, id);
  }
}

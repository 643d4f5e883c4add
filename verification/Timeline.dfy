/** The global timeline: Redis keeps the 1000 best-ranked members after every insertion, the
    in-memory store keeps a sorted list of everything. */
module Timeline {
  import opened ZSets
  import opened Naturals

  const TIMELINE_SIZE: nat := 1000

  /** What `ZREMRANGEBYRANK 0 -(n+1)` leaves: the `n` members of best rank. */
  function KeepTop(z: ZSet, n: nat): ZSet {
    map m | m in z && m in Slice(Ranked(z), 0, n) :: z[m]
  }

  function AddTrimmed(z: ZSet, hash: string, timestamp: real): ZSet {
    KeepTop(z[hash := timestamp], TIMELINE_SIZE)
  }

  // ---- rank as a count ---------------------------------------------------------------------

  /** The members that rank before `m`. */
  function Better(z: ZSet, m: string): set<string>
    requires m in z
  {
    set x | x in z && Above(z, x, m)
  }

  lemma KeepTopStep(z: ZSet, n: nat)
    requires z != map[] && n > 0
    ensures KeepTop(z, n) == KeepTop(Without(z, Top(z)), n - 1)[Top(z) := z[Top(z)]]
  {
    var t := Top(z);
    var rest := Without(z, t);
    SliceStep(t, Ranked(rest), n);
    assert Ranked(z) == [t] + Ranked(rest);
    var s := Slice(Ranked(rest), 0, n - 1);
    assert Slice(Ranked(z), 0, n) == [t] + s;
    forall m: string ensures m in KeepTop(z, n) <==> m == t || m in KeepTop(rest, n - 1) {
      assert m in [t] + s <==> m == t || m in s;
    }
  }

  lemma SliceStep(t: string, s: seq<string>, n: nat)
    requires n > 0
    ensures Slice([t] + s, 0, n) == [t] + Slice(s, 0, n - 1)
  {
  }

  lemma BetterStep(z: ZSet, m: string)
    requires m in z && m != Top(z)
    ensures Better(z, m) == {Top(z)} + Better(Without(z, Top(z)), m)
  {
  }

  lemma TopHasNoBetter(z: ZSet)
    requires z != map[]
    ensures Better(z, Top(z)) == {}
  {
    var t := Top(z);
    forall x | x in z ensures !Above(z, x, t) { AboveIsOrder(z, x, t, x); }
  }

  /** A member is kept exactly when fewer than `n` others rank before it. */
  lemma {:induction false} KeptByRank(z: ZSet, n: nat, m: string)
    requires m in z
    ensures m in KeepTop(z, n) <==> |Better(z, m)| < n
    decreases n
  {
    if n > 0 {
      KeepTopStep(z, n);
      if m == Top(z) {
        TopHasNoBetter(z);
      } else {
        BetterStep(z, m);
        KeptByRank(Without(z, Top(z)), n - 1, m);
      }
    }
  }

  lemma {:induction false} KeptSize(z: ZSet, n: nat)
    ensures |KeepTop(z, n)| <= n
    ensures |KeepTop(z, n)| < n ==> KeepTop(z, n) == z
    decreases n
  {
    if n > 0 && z != map[] {
      var t := Top(z);
      var rest := Without(z, t);
      KeepTopStep(z, n);
      KeptSize(rest, n - 1);
      PutBack(z, t, KeepTop(rest, n - 1));
    } else {
      assert KeepTop(z, n) == map[];
    }
  }

  lemma PutBack(z: ZSet, t: string, kept: ZSet)
    requires t in z && t !in kept
    ensures |kept[t := z[t]]| == |kept| + 1
    ensures Without(z, t)[t := z[t]] == z
  {
    assert kept[t := z[t]].Keys == kept.Keys + {t};
  }

  /** What is kept ranks before what is dropped. */
  lemma {:induction false} KeptAbove(z: ZSet, n: nat, m: string, o: string)
    requires m in KeepTop(z, n) && o in z && o !in KeepTop(z, n)
    ensures Above(z, m, o)
    decreases n
  {
    assert n > 0;
    KeepTopStep(z, n);
    if m != Top(z) { KeptAbove(Without(z, Top(z)), n - 1, m, o); }
  }

  /** Trimming keeps everything, or exactly `n` members that rank before all it drops. */
  lemma KeptAreBest(z: ZSet, n: nat)
    ensures |KeepTop(z, n)| <= n
    ensures |KeepTop(z, n)| < n ==> KeepTop(z, n) == z
    ensures forall m, o :: m in KeepTop(z, n) && o in z && o !in KeepTop(z, n) ==> Above(z, m, o)
  {
    KeptSize(z, n);
    forall m, o | m in KeepTop(z, n) && o in z && o !in KeepTop(z, n) ensures Above(z, m, o) {
      KeptAbove(z, n, m, o);
    }
  }

  /** After an insertion the timeline holds the best 1000 of what it had and the new hash: none is
      left out while there is room, and each one kept ranks above each one left out. */
  lemma AddKeepsBest(z: ZSet, hash: string, timestamp: real)
    ensures var full, kept := z[hash := timestamp], AddTrimmed(z, hash, timestamp);
      && kept.Keys <= full.Keys && (forall m :: m in kept ==> kept[m] == full[m])
      && |kept| == (if |full| < 1000 then |full| else 1000)
      && forall m, o :: m in kept && o in full && o !in kept ==> Above(full, m, o)
  {
    var full := z[hash := timestamp];
    KeptAreBest(full, TIMELINE_SIZE);
    KeptSize(full, TIMELINE_SIZE);
    KeptNoMore(full, KeepTop(full, TIMELINE_SIZE));
  }

  lemma KeptNoMore(z: ZSet, kept: ZSet)
    requires kept.Keys <= z.Keys
    ensures |kept| <= |z|
  {
    SubsetSize(kept.Keys, z.Keys);
  }

  // ---- what trimming after every insertion forgets -----------------------------------------

  /** Re-adding a kept member so low that a dropped one now ranks before it. */
  ghost predicate SinksBelowDropped(z: ZSet, n: nat, hash: string, timestamp: real) {
    hash in KeepTop(z, n)
    && exists o :: o in z && o !in KeepTop(z, n) && Above(z[hash := timestamp], o, hash)
  }

  /** Trimming at once and trimming the full history agree after an insertion exactly when the
      insertion does not sink a kept member below a dropped one. */
  lemma TrimExactly(z: ZSet, n: nat, hash: string, timestamp: real)
    ensures KeepTop(KeepTop(z, n)[hash := timestamp], n) == KeepTop(z[hash := timestamp], n)
       <==> !SinksBelowDropped(z, n, hash, timestamp)
  {
    if hash in KeepTop(z, n) {
      TrimKept(z, n, hash, timestamp);
    } else {
      TrimNew(z, n, hash, timestamp);
    }
  }

  lemma TrimNew(z: ZSet, n: nat, hash: string, timestamp: real)
    requires hash !in KeepTop(z, n)
    ensures KeepTop(KeepTop(z, n)[hash := timestamp], n) == KeepTop(z[hash := timestamp], n)
  {
    var small, full := KeepTop(z, n)[hash := timestamp], z[hash := timestamp];
    forall m | m in full ensures m in KeepTop(small, n) <==> m in KeepTop(full, n) {
      KeptByRank(full, n, m);
      if m in small {
        KeptByRank(small, n, m);
        NewRank(z, n, hash, timestamp, m);
      } else {
        DroppedStays(z, n, hash, timestamp, m);
      }
    }
  }

  lemma DroppedStays(z: ZSet, n: nat, hash: string, timestamp: real, m: string)
    requires m in z && m !in KeepTop(z, n) && m != hash
    requires !SinksBelowDropped(z, n, hash, timestamp)
    ensures |Better(z[hash := timestamp], m)| >= n
  {
    var kept, full := KeepTop(z, n), z[hash := timestamp];
    KeptAreBest(z, n);
    forall k | k in kept ensures k in Better(full, m) {
      AboveIsOrder(full, k, m, k);
    }
    SubsetSize(kept.Keys, Better(full, m));
  }

  lemma NewRank(z: ZSet, n: nat, hash: string, timestamp: real, m: string)
    requires hash !in KeepTop(z, n) && m in KeepTop(z, n)[hash := timestamp]
    ensures |Better(KeepTop(z, n)[hash := timestamp], m)| < n <==> |Better(z[hash := timestamp], m)| < n
  {
    var kept := KeepTop(z, n);
    var small, full := kept[hash := timestamp], z[hash := timestamp];
    KeptAreBest(z, n);
    assert Better(small, m) <= Better(full, m);
    SubsetSize(Better(small, m), Better(full, m));
    if Better(small, m) != Better(full, m) {
      var o :| o in Better(full, m) && o !in Better(small, m);
      AllKeptAreBetter(z, n, hash, timestamp, m, o);
      SubsetSize(kept.Keys, Better(small, m));
    }
  }

  /** A dropped member above `m` has every kept member above it. */
  lemma AllKeptAreBetter(z: ZSet, n: nat, hash: string, timestamp: real, m: string, o: string)
    requires hash !in KeepTop(z, n) && m in KeepTop(z, n)[hash := timestamp]
    requires o in Better(z[hash := timestamp], m) && o !in Better(KeepTop(z, n)[hash := timestamp], m)
    ensures KeepTop(z, n).Keys <= Better(KeepTop(z, n)[hash := timestamp], m)
    ensures |KeepTop(z, n)| >= n
  {
    var kept := KeepTop(z, n);
    var small, full := kept[hash := timestamp], z[hash := timestamp];
    KeptAreBest(z, n);
    if m != hash { AboveIsOrder(full, m, o, m); }
    forall k | k in kept ensures k in Better(small, m) {
      AboveIsOrder(full, k, o, m);
    }
  }

  lemma TrimKept(z: ZSet, n: nat, hash: string, timestamp: real)
    requires hash in KeepTop(z, n)
    ensures KeepTop(KeepTop(z, n)[hash := timestamp], n) == KeepTop(z[hash := timestamp], n)
       <==> !SinksBelowDropped(z, n, hash, timestamp)
  {
    KeptAreBest(z, n);
    assert |KeepTop(z, n)[hash := timestamp]| == |KeepTop(z, n)|;
    KeepAll(KeepTop(z, n)[hash := timestamp], n);
    if SinksBelowDropped(z, n, hash, timestamp) {
      SinkingBreaks(z, n, hash, timestamp);
    } else {
      NotSinkingKeeps(z, n, hash, timestamp);
    }
  }

  lemma NotSinkingKeeps(z: ZSet, n: nat, hash: string, timestamp: real)
    requires hash in KeepTop(z, n) && !SinksBelowDropped(z, n, hash, timestamp)
    ensures KeepTop(z[hash := timestamp], n) == KeepTop(z, n)[hash := timestamp]
  {
    var small, full := KeepTop(z, n)[hash := timestamp], z[hash := timestamp];
    forall m | m in full ensures m in KeepTop(full, n) <==> m in small {
      KeptByRank(full, n, m);
      if m in small { KeptStaysKept(z, n, hash, timestamp, m); } else { DroppedStays(z, n, hash, timestamp, m); }
    }
  }

  lemma SinkingBreaks(z: ZSet, n: nat, hash: string, timestamp: real)
    requires SinksBelowDropped(z, n, hash, timestamp)
    ensures KeepTop(z[hash := timestamp], n) != KeepTop(z, n)[hash := timestamp]
  {
    var full := z[hash := timestamp];
    var o :| o in z && o !in KeepTop(z, n) && Above(full, o, hash);
    KeptAreBest(full, n);
    AboveIsOrder(full, o, hash, o);
  }

  lemma KeptStaysKept(z: ZSet, n: nat, hash: string, timestamp: real, m: string)
    requires hash in KeepTop(z, n) && !SinksBelowDropped(z, n, hash, timestamp) && m in KeepTop(z, n)
    ensures |Better(z[hash := timestamp], m)| < n
  {
    var kept, full := KeepTop(z, n), z[hash := timestamp];
    KeptAreBest(z, n);
    forall o | o in Better(full, m) ensures o in kept.Keys - {m} { KeptStays(z, n, hash, timestamp, m, o); }
    SubsetSize(Better(full, m), kept.Keys - {m});
  }

  lemma KeptStays(z: ZSet, n: nat, hash: string, timestamp: real, m: string, o: string)
    requires hash in KeepTop(z, n) && !SinksBelowDropped(z, n, hash, timestamp)
    requires m in KeepTop(z, n) && o in Better(z[hash := timestamp], m)
    ensures o in KeepTop(z, n).Keys - {m}
  {
    KeptAreBest(z, n);
    AboveIsOrder(z[hash := timestamp], o, m, o);
    if o !in KeepTop(z, n) && m != hash { AboveIsOrder(z, m, o, m); }
  }

  lemma KeepAll(z: ZSet, n: nat)
    requires |z| <= n
    ensures KeepTop(z, n) == z
  {
    RankedIsRanking(z);
    assert Slice(Ranked(z), 0, n) == Ranked(z);
  }

  // ---- the in-memory timeline --------------------------------------------------------------

  type Entry = (real, string)

  /** Python's stable sort with `reverse=True`, as repeated insertion behind equal keys. */
  function InsertDesc(s: seq<Entry>, x: Entry): seq<Entry> {
    if s == [] || s[0].0 < x.0 then [x] + s else [s[0]] + InsertDesc(s[1..], x)
  }

  function SortDesc(s: seq<Entry>): seq<Entry> {
    if s == [] then [] else InsertDesc(SortDesc(s[..|s| - 1]), s[|s| - 1])
  }

  function Drop(s: seq<Entry>, hash: string): seq<Entry> {
    if s == [] then [] else (if s[0].1 == hash then [] else [s[0]]) + Drop(s[1..], hash)
  }

  function AddPlain(list: seq<Entry>, hash: string, timestamp: real): seq<Entry> {
    SortDesc(Drop(list, hash) + [(timestamp, hash)])
  }

  function Hashes(list: seq<Entry>): (r: seq<string>)
    ensures |r| == |list|
  {
    seq(|list|, i requires 0 <= i < |list| => list[i].1)
  }

  /** The full sorted set as the in-memory list would hold it. */
  function Entries(z: ZSet): seq<Entry>
    decreases |z|
  {
    if z == map[] then [] else [(z[Top(z)], Top(z))] + Entries(Without(z, Top(z)))
  }

  lemma HashesOfCons(x: Entry, list: seq<Entry>)
    ensures Hashes([x] + list) == [x.1] + Hashes(list)
  {
  }

  lemma {:induction false} HashesOfEntries(z: ZSet)
    ensures Hashes(Entries(z)) == Ranked(z)
    decreases |z|
  {
    if z != map[] {
      HashesOfEntries(Without(z, Top(z)));
      HashesOfCons((z[Top(z)], Top(z)), Entries(Without(z, Top(z))));
    }
  }

  predicate Newest(z: ZSet, timestamp: real) {
    forall m :: m in z ==> z[m] < timestamp
  }

  lemma NewestIsTop(z: ZSet, hash: string, timestamp: real)
    requires Newest(z, timestamp)
    ensures hash in z[hash := timestamp]
    ensures Top(z[hash := timestamp]) == hash
    ensures Without(z[hash := timestamp], hash) == z - {hash}
  {
    assert hash in z[hash := timestamp];
    assert IsTop(z[hash := timestamp], hash);
    TopIsUnique(z[hash := timestamp], hash, Top(z[hash := timestamp]));
  }

  lemma WithoutOther(z: ZSet, hash: string)
    requires z != map[] && Top(z) != hash
    ensures Top(z) in z - {hash}
    ensures Top(z - {hash}) == Top(z)
    ensures Without(z - {hash}, Top(z)) == Without(z, Top(z)) - {hash}
  {
    var t := Top(z);
    assert t in z - {hash};
    assert IsTop(z - {hash}, t);
    TopIsUnique(z - {hash}, t, Top(z - {hash}));
  }

  lemma {:induction false} DropFromEntries(z: ZSet, hash: string)
    ensures Drop(Entries(z), hash) == Entries(z - {hash})
    decreases |z|
  {
    if z != map[] {
      var rest := Without(z, Top(z));
      assert Entries(z)[1..] == Entries(rest);
      DropFromEntries(rest, hash);
      if Top(z) == hash {
        assert rest - {hash} == z - {hash};
      } else {
        WithoutOther(z, hash);
      }
    } else {
      assert z - {hash} == map[];
    }
  }

  predicate Descending(s: seq<Entry>) {
    forall i, j :: 0 <= i < j < |s| ==> s[i].0 >= s[j].0
  }

  lemma {:induction false} InsertLast(s: seq<Entry>, x: Entry)
    requires forall i :: 0 <= i < |s| ==> s[i].0 >= x.0
    ensures InsertDesc(s, x) == s + [x]
  {
    if s != [] { InsertLast(s[1..], x); }
  }

  lemma {:induction false} SortSorted(s: seq<Entry>)
    requires Descending(s)
    ensures SortDesc(s) == s
  {
    if s != [] {
      var n := |s| - 1;
      SortSorted(s[..n]);
      InsertLast(s[..n], s[n]);
      assert s == s[..n] + [s[n]];
    }
  }

  lemma {:induction false} EntriesDescend(z: ZSet)
    ensures Descending(Entries(z))
    ensures forall i :: 0 <= i < |Entries(z)| ==> Entries(z)[i].1 in z && Entries(z)[i].0 == z[Entries(z)[i].1]
    decreases |z|
  {
    if z != map[] {
      var rest := Without(z, Top(z));
      EntriesDescend(rest);
      var e, r := Entries(z), Entries(rest);
      forall i | 0 <= i < |e| ensures e[i].1 in z && e[i].0 == z[e[i].1] && e[0].0 >= e[i].0 {
        if i > 0 { assert e[i] == r[i - 1] && r[i - 1].1 in rest; }
      }
      forall i, j | 0 <= i < j < |e| ensures e[i].0 >= e[j].0 {
        if i > 0 { assert e[i] == r[i - 1] && e[j] == r[j - 1]; }
      }
    }
  }

  /** With a newest time stamp the in-memory insertion follows the sorted set. */
  lemma AddPlainFollows(z: ZSet, hash: string, timestamp: real)
    requires Newest(z, timestamp)
    ensures AddPlain(Entries(z), hash, timestamp) == Entries(z[hash := timestamp])
  {
    var rest := z - {hash};
    var x: Entry := (timestamp, hash);
    DropFromEntries(z, hash);
    EntriesDescend(rest);
    SortSorted(Entries(rest));
    var s := Entries(rest) + [x];
    assert s[..|s| - 1] == Entries(rest);
    assert SortDesc(s) == InsertDesc(Entries(rest), x);
    assert InsertDesc(Entries(rest), x) == [x] + Entries(rest) by {
      if Entries(rest) != [] { assert Entries(rest)[0].1 in rest; }
    }
    NewestIsTop(z, hash, timestamp);
  }

  // ---- runs --------------------------------------------------------------------------------

  datatype Insertion = Insertion(hash: string, timestamp: real)

  function RedisTimeline(z: ZSet, adds: seq<Insertion>): ZSet
    decreases |adds|
  {
    if adds == [] then z else RedisTimeline(AddTrimmed(z, adds[0].hash, adds[0].timestamp), adds[1..])
  }

  function PlainTimeline(list: seq<Entry>, adds: seq<Insertion>): seq<Entry>
    decreases |adds|
  {
    if adds == [] then list else PlainTimeline(AddPlain(list, adds[0].hash, adds[0].timestamp), adds[1..])
  }

  function FullTimeline(z: ZSet, adds: seq<Insertion>): ZSet
    decreases |adds|
  {
    if adds == [] then z else FullTimeline(z[adds[0].hash := adds[0].timestamp], adds[1..])
  }

  predicate Increasing(adds: seq<Insertion>) {
    forall i, j :: 0 <= i < j < |adds| ==> adds[i].timestamp < adds[j].timestamp
  }

  lemma {:induction false} TimelinesFollow(z: ZSet, adds: seq<Insertion>)
    requires Increasing(adds) && (adds != [] ==> Newest(z, adds[0].timestamp))
    ensures RedisTimeline(KeepTop(z, TIMELINE_SIZE), adds) == KeepTop(FullTimeline(z, adds), TIMELINE_SIZE)
    ensures PlainTimeline(Entries(z), adds) == Entries(FullTimeline(z, adds))
    decreases |adds|
  {
    if adds != [] {
      var h, t := adds[0].hash, adds[0].timestamp;
      TrimExactly(z, TIMELINE_SIZE, h, t);
      AddPlainFollows(z, h, t);
      var next := z[h := t];
      if |adds| > 1 {
        assert adds[1..][0] == adds[1];
        assert Newest(next, adds[1].timestamp);
      }
      TimelinesFollow(next, adds[1..]);
    }
  }

  lemma TopOfKept(z: ZSet, n: nat)
    requires n > 0 && z != map[]
    ensures Top(z) in KeepTop(z, n)
    ensures Top(KeepTop(z, n)) == Top(z)
    ensures Without(KeepTop(z, n), Top(z)) == KeepTop(Without(z, Top(z)), n - 1)
  {
    var t := Top(z);
    KeepTopStep(z, n);
    assert IsTop(KeepTop(z, n), t);
    TopIsUnique(KeepTop(z, n), t, Top(KeepTop(z, n)));
  }

  lemma {:induction false} RankedKept(z: ZSet, n: nat)
    ensures Ranked(KeepTop(z, n)) == Slice(Ranked(z), 0, n)
    decreases n
  {
    if n == 0 || z == map[] {
      NothingKept(z, n);
    } else {
      var rest := Without(z, Top(z));
      var a, b := Ranked(KeepTop(rest, n - 1)), Slice(Ranked(rest), 0, n - 1);
      assert a == b by { RankedKept(rest, n - 1); }
      RankedKeptStep(z, n);
    }
  }

  lemma NothingKept(z: ZSet, n: nat)
    requires n == 0 || z == map[]
    ensures Ranked(KeepTop(z, n)) == [] == Slice(Ranked(z), 0, n)
  {
    assert KeepTop(z, n) == map[];
  }

  lemma RankedKeptStep(z: ZSet, n: nat)
    requires n > 0 && z != map[]
    ensures Ranked(KeepTop(z, n)) == [Top(z)] + Ranked(KeepTop(Without(z, Top(z)), n - 1))
    ensures Slice(Ranked(z), 0, n) == [Top(z)] + Slice(Ranked(Without(z, Top(z))), 0, n - 1)
  {
    TopOfKept(z, n);
    SliceStep(Top(z), Ranked(Without(z, Top(z))), n);
  }

  lemma SliceOfSlice(s: seq<string>, n: nat, offset: nat, limit: nat)
    requires offset + limit <= n
    ensures Slice(Slice(s, 0, n), offset, limit) == Slice(s, offset, limit)
  {
  }

  /** Pages within the first 1000 ranks: for any run of insertions with increasing time stamps (a
      hash may come back) the trimmed sorted set returns what the untrimmed list returns. The one
      exception is the empty page at the start, where Redis returns everything. */
  lemma TimelinePagesAgree(adds: seq<Insertion>, offset: nat, limit: nat)
    requires Increasing(adds) && offset + limit <= 1000
    ensures RevRange(Ranked(RedisTimeline(map[], adds)), offset, offset + limit - 1)
         == Slice(Hashes(PlainTimeline([], adds)), offset, limit)
       <==> !(offset == 0 && limit == 0 && adds != [])
  {
    var s := Ranked(FullTimeline(map[], adds));
    assert Ranked(RedisTimeline(map[], adds)) == Slice(s, 0, TIMELINE_SIZE) && Hashes(PlainTimeline([], adds)) == s by {
      KeepAll(map[], TIMELINE_SIZE);
      TimelinesFollow(map[], adds);
      HashesOfEntries(FullTimeline(map[], adds));
      RankedKept(FullTimeline(map[], adds), TIMELINE_SIZE);
    }
    SliceOfSlice(s, TIMELINE_SIZE, offset, limit);
    PageIsSliceExactly(Slice(s, 0, TIMELINE_SIZE), offset, limit);
    assert s == [] <==> adds == [] by {
      RankedIsRanking(FullTimeline(map[], adds));
      FullIsEmptyExactly(map[], adds);
    }
  }

  lemma {:induction false} FullIsEmptyExactly(z: ZSet, adds: seq<Insertion>)
    ensures |FullTimeline(z, adds)| == 0 <==> z == map[] && adds == []
    decreases |adds|
  {
    if adds != [] {
      var next := z[adds[0].hash := adds[0].timestamp];
      assert adds[0].hash in next;
      FullIsEmptyExactly(next, adds[1..]);
    }
  }
}

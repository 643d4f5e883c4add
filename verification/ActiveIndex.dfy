/** The index of active clusters: ids ranked by last activity, kept apart from the objects, which expire. */
module ActiveIndex {
  import opened Options
  import opened ZSets

  /** Seconds that a cluster object lives after it was written. */
  const CLUSTER_TTL: real := 86400.0

  /** The objects that `MGET` finds for a list of ids; expired ones are dropped. */
  function Live<R>(ids: seq<string>, objects: map<string, R>): seq<R> {
    if ids == [] then []
    else (if ids[0] in objects then [objects[ids[0]]] else []) + Live(ids[1..], objects)
  }

  /** `get_active_clusters`: a page of ids is taken first, and then its dead ids are dropped. */
  function Page<R>(index: ZSet, objects: map<string, R>, offset: nat, limit: nat): seq<R> {
    Live(RevRange(Ranked(index), offset, offset + limit - 1), objects)
  }

  lemma {:induction false} LiveConcat<R>(a: seq<string>, b: seq<string>, objects: map<string, R>)
    ensures Live(a + b, objects) == Live(a, objects) + Live(b, objects)
  {
    if a == [] {
      assert a + b == b;
    } else {
      var head := if a[0] in objects then [objects[a[0]]] else [];
      var x, y := Live(a[1..], objects), Live(b, objects);
      assert (a + b)[1..] == a[1..] + b && (a + b)[0] == a[0];
      assert Live(a + b, objects) == head + Live(a[1..] + b, objects);
      assert Live(a[1..] + b, objects) == x + y by { LiveConcat(a[1..], b, objects); }
      assert head + (x + y) == (head + x) + y;
    }
  }

  predicate AllIn<R>(ids: seq<string>, objects: map<string, R>) {
    forall i :: 0 <= i < |ids| ==> ids[i] in objects
  }

  predicate NoneIn<R>(ids: seq<string>, objects: map<string, R>) {
    forall i :: 0 <= i < |ids| ==> ids[i] !in objects
  }

  lemma {:induction false} LiveSize<R>(ids: seq<string>, objects: map<string, R>)
    ensures |Live(ids, objects)| <= |ids|
    ensures |Live(ids, objects)| == |ids| <==> AllIn(ids, objects)
    ensures Live(ids, objects) == [] <==> NoneIn(ids, objects)
  {
    if ids != [] {
      LiveSize(ids[1..], objects);
      assert forall i :: 1 <= i < |ids| ==> ids[i] == ids[1..][i - 1];
      assert forall i :: 0 <= i < |ids| - 1 ==> ids[1..][i] == ids[i + 1];
    }
  }

  /** A live id stands in the page behind the live ones before it. */
  lemma LivePosition<R>(ids: seq<string>, objects: map<string, R>, k: nat)
    requires k < |ids| && ids[k] in objects
    ensures |Live(ids[..k], objects)| < |Live(ids, objects)|
    ensures Live(ids, objects)[|Live(ids[..k], objects)|] == objects[ids[k]]
  {
    LiveConcat(ids[..k], ids[k..], objects);
    assert ids == ids[..k] + ids[k..] && ids[k..][0] == ids[k];
  }

  lemma LiveOrder<R>(ids: seq<string>, objects: map<string, R>, j: nat, k: nat)
    requires j < k < |ids| && ids[j] in objects
    ensures |Live(ids[..j], objects)| < |Live(ids[..k], objects)|
  {
    assert ids[..k][..j] == ids[..j];
    LivePosition(ids[..k], objects, j);
  }

  /** And each object of the page stands for one. */
  lemma {:induction false} LiveIsSomeone<R>(ids: seq<string>, objects: map<string, R>, i: nat) returns (k: nat)
    requires i < |Live(ids, objects)|
    ensures k < |ids| && ids[k] in objects && |Live(ids[..k], objects)| == i
  {
    var n := |ids| - 1;
    LiveConcat(ids[..n], ids[n..], objects);
    assert ids == ids[..n] + ids[n..] && Live(ids[n..][1..], objects) == [];
    if i < |Live(ids[..n], objects)| {
      k := LiveIsSomeone(ids[..n], objects, i);
      assert ids[..n][..k] == ids[..k];
    } else {
      k := n;
    }
  }

  /** What a caller means by a page: that stretch of the live objects in rank order. */
  predicate Complete<R(==)>(index: ZSet, objects: map<string, R>, offset: nat, limit: nat) {
    Page(index, objects, offset, limit) == Slice(Live(Ranked(index), objects), offset, limit)
  }

  /** The ids before the page, on it, and after it. */
  function Before(ids: seq<string>, offset: nat): seq<string> {
    if offset < |ids| then ids[..offset] else ids
  }

  function Behind(ids: seq<string>, offset: nat, limit: nat): seq<string> {
    if offset + limit < |ids| then ids[offset + limit..] else []
  }

  lemma ThreeParts(ids: seq<string>, offset: nat, limit: nat)
    ensures ids == Before(ids, offset) + Slice(ids, offset, limit) + Behind(ids, offset, limit)
  {
  }

  /** The first page is the first `limit` live clusters exactly when no dead id takes the place of
      a live one: all ids of the page are live, or no live id comes after them. */
  lemma FirstPageExactly<R>(index: ZSet, objects: map<string, R>, limit: nat)
    requires limit > 0
    ensures var ids := Ranked(index);
      Complete(index, objects, 0, limit)
      <==> AllIn(Slice(ids, 0, limit), objects) || NoneIn(Behind(ids, 0, limit), objects)
  {
    var ids := Ranked(index);
    var a, b := Slice(ids, 0, limit), Behind(ids, 0, limit);
    PageIsSliceExactly(ids, 0, limit);
    ThreeParts(ids, 0, limit);
    assert ids == a + b;
    LiveConcat(a, b, objects);
    PrefixOfLive(a, b, objects, limit);
  }

  lemma PrefixOfLive<R>(a: seq<string>, b: seq<string>, objects: map<string, R>, limit: nat)
    requires |a| == limit || (|a| < limit && b == [])
    ensures Live(a, objects) == Slice(Live(a, objects) + Live(b, objects), 0, limit)
       <==> AllIn(a, objects) || NoneIn(b, objects)
  {
    LiveSize(a, objects);
    LiveSize(b, objects);
    var x, y := Live(a, objects), Live(b, objects);
    if |x| == limit { assert (x + y)[..limit] == x; }
  }

  /** Each object carries its own id. */
  predicate Told<R(==)>(objects: map<string, R>) {
    forall k, l :: k in objects && l in objects && objects[k] == objects[l] ==> k == l
  }

  predicate NoRepeats<R(==)>(s: seq<R>) {
    forall i, j :: 0 <= i < j < |s| ==> s[i] != s[j]
  }

  lemma {:induction false} LiveComesFrom<R>(ids: seq<string>, objects: map<string, R>)
    ensures forall r :: r in Live(ids, objects) ==> exists k :: k in ids && k in objects && objects[k] == r
  {
    if ids != [] {
      LiveComesFrom(ids[1..], objects);
      assert ids[0] in ids;
      assert forall k :: k in ids[1..] ==> k in ids;
    }
  }

  lemma {:induction false} LiveNoRepeats<R>(ids: seq<string>, objects: map<string, R>)
    requires NoRepeats(ids) && Told(objects)
    ensures NoRepeats(Live(ids, objects))
  {
    if ids != [] {
      LiveNoRepeats(ids[1..], objects);
      LiveComesFrom(ids[1..], objects);
      assert ids[0] !in ids[1..];
      var rest := Live(ids[1..], objects);
      if ids[0] in objects {
        forall i | 0 <= i < |rest| ensures rest[i] != objects[ids[0]] {
          assert rest[i] in rest;
          var k :| k in ids[1..] && k in objects && objects[k] == rest[i];
        }
      }
    }
  }

  /** The exact condition for a page to be that stretch, at any offset: all ids before it are live, and
      all on it are or none behind it is; or it is empty, and rightly so. */
  lemma PageExactly<R>(index: ZSet, objects: map<string, R>, offset: nat, limit: nat)
    requires limit > 0 && Told(objects)
    ensures var ids := Ranked(index);
      var a, b, c := Before(ids, offset), Slice(ids, offset, limit), Behind(ids, offset, limit);
      Complete(index, objects, offset, limit)
      <==> || (AllIn(a, objects) && (AllIn(b, objects) || NoneIn(c, objects)))
           || (NoneIn(b, objects) && |Live(a, objects)| + |Live(c, objects)| <= offset)
  {
    var ids := Ranked(index);
    var a, b, c := Before(ids, offset), Slice(ids, offset, limit), Behind(ids, offset, limit);
    assert Page(index, objects, offset, limit) == Live(b, objects) by { PageIsSliceExactly(ids, offset, limit); }
    LiveOfThree(ids, objects, offset, limit);
    LiveRankedNoRepeats(index, objects);
    LivePartsExactly(a, b, c, objects, offset, limit);
  }

  lemma LivePartsExactly<R>(a: seq<string>, b: seq<string>, c: seq<string>, objects: map<string, R>, offset: nat, limit: nat)
    requires limit > 0 && |a| <= offset && |b| <= limit && (|a| < offset ==> b == []) && (|a| < offset || |b| < limit ==> c == [])
    requires NoRepeats(Live(a, objects) + Live(b, objects) + Live(c, objects))
    ensures Live(b, objects) == Slice(Live(a, objects) + Live(b, objects) + Live(c, objects), offset, limit)
      <==> || (AllIn(a, objects) && (AllIn(b, objects) || NoneIn(c, objects)))
           || (NoneIn(b, objects) && |Live(a, objects)| + |Live(c, objects)| <= offset)
  {
    LiveSize(a, objects);
    LiveSize(b, objects);
    LiveSize(c, objects);
    StretchOfThree(Live(a, objects), Live(b, objects), Live(c, objects), |a|, |b|, offset, limit);
  }

  lemma LiveOfThree<R>(ids: seq<string>, objects: map<string, R>, offset: nat, limit: nat)
    ensures Live(ids, objects)
         == Live(Before(ids, offset), objects) + Live(Slice(ids, offset, limit), objects) + Live(Behind(ids, offset, limit), objects)
  {
    var a, b, c := Before(ids, offset), Slice(ids, offset, limit), Behind(ids, offset, limit);
    ThreeParts(ids, offset, limit);
    LiveConcat(a + b, c, objects);
    LiveConcat(a, b, objects);
  }

  lemma LiveRankedNoRepeats<R>(index: ZSet, objects: map<string, R>)
    requires Told(objects)
    ensures NoRepeats(Live(Ranked(index), objects))
  {
    RankedIsRanking(index);
    RankingNoRepeats(index, Ranked(index));
    LiveNoRepeats(Ranked(index), objects);
  }

  lemma RankingNoRepeats(z: ZSet, s: seq<string>)
    requires IsRanking(z, s)
    ensures NoRepeats(s)
  {
    forall i, j | 0 <= i < j < |s| ensures s[i] != s[j] {
      assert Above(z, s[i], s[j]);
      AboveIsOrder(z, s[i], s[j], s[i]);
    }
  }

  /** The same on three lists without repeats, of at most `na`, `nb` and any number of objects. */
  lemma StretchOfThree<R>(x: seq<R>, y: seq<R>, z: seq<R>, na: nat, nb: nat, offset: nat, limit: nat)
    requires limit > 0 && NoRepeats(x + y + z) && |x| <= na <= offset && |y| <= nb <= limit
    requires na < offset ==> y == [] && z == [] && nb == 0
    requires nb < limit ==> z == []
    ensures y == Slice(x + y + z, offset, limit)
       <==> (|x| == na && (|y| == nb || z == [])) || (y == [] && |x| + |z| <= offset)
  {
    var s := x + y + z;
    if |x| == offset {
      assert s[offset..] == y + z;
      if |y| == limit {
        assert s[offset..offset + limit] == y;
      }
    } else if y != [] {
      assert s[|x|] == y[0];
      if offset < |s| {
        assert s[offset] != s[|x|];
        assert Slice(s, offset, limit)[0] == s[offset];
      }
    }
  }

  // ---- runs --------------------------------------------------------------------------------

  /** One `set_cluster`, with the stamp of the cluster, the time of the write, and when Redis, short of
      memory, evicts the object, if it does; storing a cluster that is not active takes it out of the
      index. */
  datatype Stored = Stored(id: string, active: bool, lastActivity: real, writtenAt: real, evictedAt: Option<real>)
  {
    /** Until when the object is kept, unless it is written again. */
    function Until(): real {
      if evictedAt.Some? && evictedAt.value < writtenAt + CLUSTER_TTL then evictedAt.value else writtenAt + CLUSTER_TTL
    }
  }

  function IndexAfter(stores: seq<Stored>): ZSet {
    if stores == [] then map[]
    else
      var n := |stores| - 1;
      var z := IndexAfter(stores[..n]);
      if stores[n].active then z[stores[n].id := stores[n].lastActivity] else z - {stores[n].id}
  }

  lemma IndexGrows(stores: seq<Stored>, s: Stored)
    ensures IndexAfter(stores + [s])
         == if s.active then IndexAfter(stores)[s.id := s.lastActivity] else IndexAfter(stores) - {s.id}
  {
    assert (stores + [s])[..|stores|] == stores;
  }

  predicate LastFor(stores: seq<Stored>, id: string, k: nat) {
    k < |stores| && stores[k].id == id && forall j :: k < j < |stores| ==> stores[j].id != id
  }

  ghost predicate LastStoredActive(stores: seq<Stored>, id: string, lastActivity: real) {
    exists k: nat :: LastFor(stores, id, k) && stores[k].active && stores[k].lastActivity == lastActivity
  }

  /** After any run the index holds exactly the ids last stored as active, at the last activity
      they were stored with. */
  lemma {:induction false} IndexIsLastStored(stores: seq<Stored>, id: string, lastActivity: real)
    ensures id in IndexAfter(stores) && IndexAfter(stores)[id] == lastActivity
       <==> LastStoredActive(stores, id, lastActivity)
  {
    if stores != [] {
      var n := |stores| - 1;
      var front := stores[..n];
      IndexIsLastStored(front, id, lastActivity);
      if stores[n].id == id {
        assert LastFor(stores, id, n);
      } else {
        LastForOther(stores, id);
        assert LastStoredActive(stores, id, lastActivity) <==> LastStoredActive(front, id, lastActivity) by {
          SameLast(stores, front, id, lastActivity);
        }
      }
    }
  }

  lemma LastForOther(stores: seq<Stored>, id: string)
    requires stores != [] && stores[|stores| - 1].id != id
    ensures forall k: nat :: LastFor(stores, id, k) <==> LastFor(stores[..|stores| - 1], id, k)
  {
    var n := |stores| - 1;
    forall k: nat ensures LastFor(stores, id, k) <==> LastFor(stores[..n], id, k) {
      assert k < n ==> stores[k] == stores[..n][k];
      assert forall j :: k < j < n ==> stores[j] == stores[..n][j];
    }
  }

  lemma SameLast(stores: seq<Stored>, front: seq<Stored>, id: string, lastActivity: real)
    requires front <= stores
    requires forall k: nat :: LastFor(stores, id, k) <==> LastFor(front, id, k)
    ensures LastStoredActive(stores, id, lastActivity) <==> LastStoredActive(front, id, lastActivity)
  {
    if k: nat :| LastFor(stores, id, k) && stores[k].active && stores[k].lastActivity == lastActivity {
      assert LastFor(front, id, k) && front[k] == stores[k];
    }
    if k: nat :| LastFor(front, id, k) && front[k].active && front[k].lastActivity == lastActivity {
      assert LastFor(stores, id, k) && front[k] == stores[k];
    }
  }

  // ---- expiry ------------------------------------------------------------------------------

  type Expiry = map<string, real>

  /** Until when each object is kept. */
  function ExpiryAfter(stores: seq<Stored>): Expiry {
    if stores == [] then map[]
    else
      var n := |stores| - 1;
      ExpiryAfter(stores[..n])[stores[n].id := stores[n].Until()]
  }

  /** The unexpired objects; an object is told by its id. */
  function LiveAt(expiry: Expiry, now: real): map<string, string> {
    map id | id in expiry && expiry[id] > now :: id
  }

  /** From `from` on, every page is the stretch that its caller means. */
  ghost predicate AlwaysComplete(index: ZSet, expiry: Expiry, from: real) {
    forall now: real, offset: nat, limit: nat | now >= from && limit > 0 :: Complete(index, LiveAt(expiry, now), offset, limit)
  }

  /** No object dies before one that ranks below it and is still alive at `from`. */
  predicate ExpiryFollowsRank(index: ZSet, expiry: Expiry, from: real)
    requires index.Keys <= expiry.Keys
  {
    forall a, b :: a in index && b in index && Above(index, a, b) && expiry[b] > from ==> expiry[a] >= expiry[b]
  }

  /** The first `n` ids are live and no others. */
  predicate LivePrefix<R>(ids: seq<string>, objects: map<string, R>, n: nat) {
    && n <= |ids|
    && (forall k :: 0 <= k < n ==> ids[k] in objects)
    && (forall k :: n <= k < |ids| ==> ids[k] !in objects)
  }

  lemma PrefixParts<R>(ids: seq<string>, objects: map<string, R>, n: nat, offset: nat, limit: nat)
    requires LivePrefix(ids, objects, n)
    ensures offset <= n || |ids| <= n ==> AllIn(Before(ids, offset), objects)
    ensures offset + limit <= n || |ids| <= n ==> AllIn(Slice(ids, offset, limit), objects)
    ensures n <= offset ==> NoneIn(Slice(ids, offset, limit), objects)
    ensures n <= offset + limit ==> NoneIn(Behind(ids, offset, limit), objects)
  {
    assert forall j :: 0 <= j < |Slice(ids, offset, limit)| ==> Slice(ids, offset, limit)[j] == ids[offset + j];
    assert forall j :: 0 <= j < |Behind(ids, offset, limit)| ==> Behind(ids, offset, limit)[j] == ids[offset + limit + j];
  }

  lemma PrefixIsComplete<R>(index: ZSet, objects: map<string, R>, n: nat, offset: nat, limit: nat)
    requires LivePrefix(Ranked(index), objects, n) && limit > 0 && Told(objects)
    ensures Complete(index, objects, offset, limit)
  {
    var ids := Ranked(index);
    PageExactly(index, objects, offset, limit);
    PrefixParts(ids, objects, n, offset, limit);
    LiveSize(Before(ids, offset), objects);
    LiveSize(Behind(ids, offset, limit), objects);
  }

  lemma FollowingIsPrefix(index: ZSet, expiry: Expiry, from: real, now: real) returns (n: nat)
    requires index.Keys <= expiry.Keys && ExpiryFollowsRank(index, expiry, from) && now >= from
    ensures LivePrefix(Ranked(index), LiveAt(expiry, now), n)
  {
    var ids, objects := Ranked(index), LiveAt(expiry, now);
    n := FirstDead(ids, objects);
    if n < |ids| { DeadBelow(index, expiry, from, now, n); }
  }

  lemma FirstDead<R>(ids: seq<string>, objects: map<string, R>) returns (n: nat)
    ensures n <= |ids| && (forall k :: 0 <= k < n ==> ids[k] in objects) && (n < |ids| ==> ids[n] !in objects)
  {
    n := 0;
    while n < |ids| && ids[n] in objects
      invariant n <= |ids| && forall k :: 0 <= k < n ==> ids[k] in objects
    {
      n := n + 1;
    }
  }

  lemma DeadBelow(index: ZSet, expiry: Expiry, from: real, now: real, i: nat)
    requires index.Keys <= expiry.Keys && ExpiryFollowsRank(index, expiry, from) && now >= from
    requires i < |Ranked(index)| && Ranked(index)[i] !in LiveAt(expiry, now)
    ensures forall j :: i <= j < |Ranked(index)| ==> Ranked(index)[j] !in LiveAt(expiry, now)
  {
    var ids := Ranked(index);
    forall j | i < j < |ids| ensures ids[j] !in LiveAt(expiry, now) {
      InRankOrder(index, i, j);
      LowerIsDead(index, expiry, from, now, ids[i], ids[j]);
    }
  }

  lemma LowerIsDead(index: ZSet, expiry: Expiry, from: real, now: real, a: string, b: string)
    requires index.Keys <= expiry.Keys && ExpiryFollowsRank(index, expiry, from) && now >= from
    requires a in index && b in index && Above(index, a, b) && a !in LiveAt(expiry, now)
    ensures b !in LiveAt(expiry, now)
  {
  }

  lemma InRankOrder(z: ZSet, i: nat, j: nat)
    requires i < j < |Ranked(z)|
    ensures Ranked(z)[i] in z && Ranked(z)[j] in z && Above(z, Ranked(z)[i], Ranked(z)[j])
  {
    RankedIsRanking(z);
  }

  /** A pair out of order makes some page short while a live cluster waits behind it. */
  lemma OutOfOrderIsShort(index: ZSet, expiry: Expiry, from: real, a: string, b: string) returns (now: real, limit: nat)
    requires index.Keys <= expiry.Keys && a in index && b in index && Above(index, a, b)
    requires expiry[b] > from && expiry[a] < expiry[b]
    ensures now >= from && limit > 0 && !Complete(index, LiveAt(expiry, now), 0, limit)
    ensures b in LiveAt(expiry, now) && |Page(index, LiveAt(expiry, now), 0, limit)| < limit
  {
    now := if expiry[a] > from then expiry[a] else from;
    var ids := Ranked(index);
    RankedIsRanking(index);
    var i :| 0 <= i < |ids| && ids[i] == a;
    var j :| 0 <= j < |ids| && ids[j] == b;
    InOrder(index, ids, i, j);
    limit := j;
    DeadBeforeLive(index, LiveAt(expiry, now), i, j);
  }

  lemma DeadBeforeLive<R>(index: ZSet, objects: map<string, R>, i: nat, j: nat)
    requires i < j < |Ranked(index)| && Ranked(index)[i] !in objects && Ranked(index)[j] in objects
    ensures !Complete(index, objects, 0, j) && |Page(index, objects, 0, j)| < j
  {
    var ids := Ranked(index);
    assert Slice(ids, 0, j)[i] == ids[i] && |Slice(ids, 0, j)| == j;
    assert Behind(ids, 0, j)[0] == ids[j];
    FirstPageExactly(index, objects, j);
    FirstPageIsShort(index, objects, j);
  }

  lemma FirstPageIsShort<R>(index: ZSet, objects: map<string, R>, limit: nat)
    requires 0 < limit <= |Ranked(index)| && !AllIn(Slice(Ranked(index), 0, limit), objects)
    ensures |Page(index, objects, 0, limit)| < limit
  {
    PageIsSliceExactly(Ranked(index), 0, limit);
    LiveSize(Slice(Ranked(index), 0, limit), objects);
  }

  lemma InOrder(z: ZSet, s: seq<string>, i: nat, j: nat)
    requires IsRanking(z, s) && i < |s| && j < |s| && Above(z, s[i], s[j])
    ensures i < j
  {
    if j < i { assert Above(z, s[j], s[i]); }
    AboveIsOrder(z, s[i], s[j], s[i]);
  }

  /** Pages are complete at all times from `from` on exactly when expiry follows rank. */
  lemma CompleteExactly(index: ZSet, expiry: Expiry, from: real)
    requires index.Keys <= expiry.Keys
    ensures AlwaysComplete(index, expiry, from) <==> ExpiryFollowsRank(index, expiry, from)
  {
    if ExpiryFollowsRank(index, expiry, from) {
      forall now: real, offset: nat, limit: nat | now >= from && limit > 0
        ensures Complete(index, LiveAt(expiry, now), offset, limit)
      {
        var n := FollowingIsPrefix(index, expiry, from, now);
        PrefixIsComplete(index, LiveAt(expiry, now), n, offset, limit);
      }
    } else {
      var a, b :| a in index && b in index && Above(index, a, b) && expiry[b] > from && expiry[a] < expiry[b];
      var now, limit := OutOfOrderIsShort(index, expiry, from, a, b);
    }
  }

  lemma {:induction false} ExpiryIsLastWrite(stores: seq<Stored>, id: string)
    ensures id in ExpiryAfter(stores) <==> exists k: nat :: LastFor(stores, id, k)
    ensures forall k: nat :: LastFor(stores, id, k) ==>
              id in ExpiryAfter(stores) && ExpiryAfter(stores)[id] == stores[k].Until()
  {
    if stores != [] {
      var n := |stores| - 1;
      var front := stores[..n];
      ExpiryIsLastWrite(front, id);
      if stores[n].id == id {
        assert LastFor(stores, id, n);
      } else {
        LastForOther(stores, id);
        if k: nat :| LastFor(front, id, k) { assert LastFor(stores, id, k); }
        assert forall k: nat :: LastFor(front, id, k) ==> stores[k] == front[k];
      }
    }
  }

  /** The last store of `id` made it active. */
  predicate Listed(stores: seq<Stored>, k: nat) {
    k < |stores| && LastFor(stores, stores[k].id, k) && stores[k].active
  }

  predicate RanksAbove(a: Stored, b: Stored) {
    a.lastActivity > b.lastActivity || (a.lastActivity == b.lastActivity && After(a.id, b.id))
  }

  /** Among the listed clusters the object of the higher rank does not leave the cache earlier. */
  predicate HigherStayLonger(stores: seq<Stored>, from: real) {
    forall i: nat, j: nat | i < |stores| && j < |stores| && Listed(stores, i) && Listed(stores, j) ::
      RanksAbove(stores[i], stores[j]) && stores[j].Until() > from ==> stores[i].Until() >= stores[j].Until()
  }

  /** Among the listed clusters the one of later activity was not written earlier. */
  predicate WritesFollowStamps(stores: seq<Stored>, from: real) {
    forall i: nat, j: nat | i < |stores| && j < |stores| && Listed(stores, i) && Listed(stores, j) ::
      RanksAbove(stores[i], stores[j]) && stores[j].writtenAt + CLUSTER_TTL > from ==>
        stores[i].writtenAt >= stores[j].writtenAt
  }

  lemma ListedIsIndexed(stores: seq<Stored>, k: nat)
    requires Listed(stores, k)
    ensures stores[k].id in IndexAfter(stores) && IndexAfter(stores)[stores[k].id] == stores[k].lastActivity
    ensures stores[k].id in ExpiryAfter(stores)
    ensures ExpiryAfter(stores)[stores[k].id] == stores[k].Until()
  {
    assert LastStoredActive(stores, stores[k].id, stores[k].lastActivity);
    IndexIsLastStored(stores, stores[k].id, stores[k].lastActivity);
    ExpiryIsLastWrite(stores, stores[k].id);
  }

  lemma IndexedIsListed(stores: seq<Stored>, id: string) returns (k: nat)
    requires id in IndexAfter(stores)
    ensures Listed(stores, k) && stores[k].id == id
  {
    IndexIsLastStored(stores, id, IndexAfter(stores)[id]);
    k :| LastFor(stores, id, k) && stores[k].active && stores[k].lastActivity == IndexAfter(stores)[id];
  }

  /** Over any run of `set_cluster` calls: from `from` on every page is complete exactly when, among
      the listed clusters, none leaves the cache before one that ranks below it. Where nothing is
      evicted, this says that the order of the writes follows the order of the stamps. */
  lemma RunPagesExactly(stores: seq<Stored>, from: real)
    ensures AlwaysComplete(IndexAfter(stores), ExpiryAfter(stores), from) <==> HigherStayLonger(stores, from)
    ensures (forall i :: 0 <= i < |stores| ==> stores[i].evictedAt == None) ==>
      (AlwaysComplete(IndexAfter(stores), ExpiryAfter(stores), from) <==> WritesFollowStamps(stores, from))
  {
    var index, expiry := IndexAfter(stores), ExpiryAfter(stores);
    forall id | id in index ensures id in expiry {
      var k := IndexedIsListed(stores, id);
      ListedIsIndexed(stores, k);
    }
    CompleteExactly(index, expiry, from);
    if HigherStayLonger(stores, from) {
      forall a, b | a in index && b in index && Above(index, a, b) && expiry[b] > from ensures expiry[a] >= expiry[b] {
        var i := IndexedIsListed(stores, a);
        var j := IndexedIsListed(stores, b);
        ListedIsIndexed(stores, i);
        ListedIsIndexed(stores, j);
      }
    }
    if ExpiryFollowsRank(index, expiry, from) {
      forall i: nat, j: nat | i < |stores| && j < |stores| && Listed(stores, i) && Listed(stores, j)
          && RanksAbove(stores[i], stores[j]) && stores[j].Until() > from
        ensures stores[i].Until() >= stores[j].Until()
      {
        ListedIsIndexed(stores, i);
        ListedIsIndexed(stores, j);
        assert Above(index, stores[i].id, stores[j].id);
      }
    }
    if forall i :: 0 <= i < |stores| ==> stores[i].evictedAt == None { StayAsWritten(stores, from); }
  }

  lemma StayAsWritten(stores: seq<Stored>, from: real)
    requires forall i :: 0 <= i < |stores| ==> stores[i].evictedAt == None
    ensures HigherStayLonger(stores, from) <==> WritesFollowStamps(stores, from)
  {
  }

  /** A reachable short page: `b` is the older cluster but was written late, so it outlives `a`, and a
      page of one id shows nothing while `b` is alive. */
  lemma ShortPage()
    ensures var stores := [Stored("a", true, 2.0, 2.0, None), Stored("b", true, 1.0, 50.0, None)];
      var objects := LiveAt(ExpiryAfter(stores), CLUSTER_TTL + 10.0);
      Page(IndexAfter(stores), objects, 0, 1) == [] && "b" in objects
  {
    var stores := [Stored("a", true, 2.0, 2.0, None), Stored("b", true, 1.0, 50.0, None)];
    TwoStores(stores[0], stores[1]);
    var index, objects := IndexAfter(stores), LiveAt(ExpiryAfter(stores), CLUSTER_TTL + 10.0);
    RankedPair(index, "a", "b");
    DeadBeforeLive(index, objects, 0, 1);
  }

  lemma RankedPair(z: ZSet, a: string, b: string)
    requires z.Keys == {a, b} && a != b && z[a] > z[b]
    ensures Ranked(z) == [a, b]
  {
    RankingIsRanked(z, [a, b]);
  }

  lemma TwoStores(a: Stored, b: Stored)
    requires a.active && b.active
    ensures IndexAfter([a, b]) == map[a.id := a.lastActivity, b.id := b.lastActivity]
    ensures ExpiryAfter([a, b]) == map[a.id := a.Until(), b.id := b.Until()]
  {
    assert [a, b][..1] == [a] && [a][..0] == [];
    assert IndexAfter([a]) == map[a.id := a.lastActivity];
    assert ExpiryAfter([a]) == map[a.id := a.Until()];
  }
}

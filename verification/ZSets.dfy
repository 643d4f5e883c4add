/** Redis sorted sets, ranked as `ZREVRANGE` does: by score, and by member text where scores are
    equal, both descending. */
module ZSets {
  type ZSet = map<string, real>

  /** `a` comes after `b` in dictionary order. */
  predicate After(a: string, b: string) {
    a != [] && (b == [] || a[0] > b[0] || (a[0] == b[0] && After(a[1..], b[1..])))
  }

  lemma {:induction false} AfterIsTotal(a: string, b: string)
    ensures a == b || After(a, b) || After(b, a)
  {
    if a != [] && b != [] && a[0] == b[0] {
      AfterIsTotal(a[1..], b[1..]);
      assert a == [a[0]] + a[1..] && b == [b[0]] + b[1..];
    }
  }

  lemma {:induction false} AfterIsTransitive(a: string, b: string, c: string)
    requires After(a, b) && After(b, c)
    ensures After(a, c)
  {
    if c != [] && a[0] == b[0] == c[0] { AfterIsTransitive(a[1..], b[1..], c[1..]); }
  }

  lemma {:induction false} AfterIsIrreflexive(a: string)
    ensures !After(a, a)
  {
    if a != [] { AfterIsIrreflexive(a[1..]); }
  }

  predicate Above(z: ZSet, a: string, b: string)
    requires a in z && b in z
  {
    z[a] > z[b] || (z[a] == z[b] && After(a, b))
  }

  lemma AboveIsOrder(z: ZSet, a: string, b: string, c: string)
    requires a in z && b in z && c in z
    ensures a == b || Above(z, a, b) || Above(z, b, a)
    ensures Above(z, a, b) && Above(z, b, c) ==> Above(z, a, c)
    ensures !(Above(z, a, b) && Above(z, b, a))
  {
    AfterIsTotal(a, b);
    if After(a, b) && After(b, c) { AfterIsTransitive(a, b, c); }
    if After(a, b) && After(b, a) {
      AfterIsTransitive(a, b, a);
      AfterIsIrreflexive(a);
    }
  }

  predicate IsTop(z: ZSet, m: string) {
    m in z && forall x :: x in z && x != m ==> Above(z, m, x)
  }

  lemma {:induction false} TopExists(z: ZSet)
    requires z != map[]
    ensures exists m :: IsTop(z, m)
    decreases |z|
  {
    var k :| k in z;
    var rest := z - {k};
    assert z.Keys == rest.Keys + {k};
    if rest == map[] {
      assert IsTop(z, k);
    } else {
      TopExists(rest);
      var t :| IsTop(rest, t);
      var m := if Above(z, t, k) then t else k;
      forall x | x in z && x != m ensures Above(z, m, x) {
        AboveIsOrder(z, t, k, k);
        AboveIsOrder(z, k, t, x);
        assert x == k || x in rest;
      }
      assert IsTop(z, m);
    }
  }

  lemma TopIsUnique(z: ZSet, a: string, b: string)
    requires IsTop(z, a) && IsTop(z, b)
    ensures a == b
  {
    if a != b { AboveIsOrder(z, a, b, a); }
  }

  lemma OneTop(z: ZSet)
    ensures forall a, b :: IsTop(z, a) && IsTop(z, b) ==> a == b
  {
    forall a, b | IsTop(z, a) && IsTop(z, b) ensures a == b {
      TopIsUnique(z, a, b);
    }
  }

  function Top(z: ZSet): (m: string)
    requires z != map[]
    ensures IsTop(z, m)
  {
    TopExists(z);
    OneTop(z);
    var m :| m in z && IsTop(z, m);
    m
  }

  /** All members, best rank first. */
  function Ranked(z: ZSet): seq<string>
    decreases |z|
  {
    if z == map[] then [] else [Top(z)] + Ranked(Without(z, Top(z)))
  }

  function Without(z: ZSet, m: string): (r: ZSet)
    requires m in z
    ensures |r| == |z| - 1
  {
    assert z.Keys == (z - {m}).Keys + {m};
    z - {m}
  }

  /** `s` lists exactly the members of `z`, strictly by rank. */
  ghost predicate IsRanking(z: ZSet, s: seq<string>) {
    && (forall i :: 0 <= i < |s| ==> s[i] in z)
    && (forall m :: m in z ==> m in s)
    && forall i, j :: 0 <= i < j < |s| ==> Above(z, s[i], s[j])
  }

  lemma {:induction false} RankedIsRanking(z: ZSet)
    ensures IsRanking(z, Ranked(z))
    ensures |Ranked(z)| == |z|
    decreases |z|
  {
    if z != map[] {
      var t := Top(z);
      var rest := Without(z, t);
      RankedIsRanking(rest);
      TopThenRest(z, t, Ranked(rest));
    }
  }

  lemma TopThenRest(z: ZSet, t: string, s: seq<string>)
    requires IsTop(z, t) && IsRanking(Without(z, t), s)
    ensures IsRanking(z, [t] + s)
  {
    var r, rest := [t] + s, Without(z, t);
    forall m | m in z ensures m in r {
      if m != t { assert m in rest && m in s; }
    }
    forall i | 0 <= i < |r| ensures r[i] in z && (i > 0 ==> r[i] in rest) {
      if i > 0 { assert r[i] == s[i - 1]; }
    }
    forall i, j | 0 <= i < j < |r| ensures Above(z, r[i], r[j]) {
      TopOrRest(z, t, s, i, j);
    }
  }

  lemma TopOrRest(z: ZSet, t: string, s: seq<string>, i: nat, j: nat)
    requires IsTop(z, t) && IsRanking(Without(z, t), s)
    requires i < j < |[t] + s|
    ensures ([t] + s)[i] in z && ([t] + s)[j] in z && Above(z, ([t] + s)[i], ([t] + s)[j])
  {
    var b := s[j - 1];
    assert b in Without(z, t);
    if i > 0 { assert Above(Without(z, t), s[i - 1], b); }
  }

  /** A ranking is unique, so whatever lists the members by rank is what Redis returns. */
  lemma {:induction false} RankingIsRanked(z: ZSet, s: seq<string>)
    requires IsRanking(z, s)
    ensures s == Ranked(z)
    decreases |s|
  {
    if s != [] {
      var t, tail := s[0], s[1..];
      assert t in z && IsTop(z, t) by { HeadIsTop(z, s); }
      assert t == Top(z) by { TopIsUnique(z, t, Top(z)); }
      assert tail == Ranked(Without(z, t)) by {
        TailRanking(z, s);
        RankingIsRanked(Without(z, t), tail);
      }
      assert s == [t] + tail;
    }
  }

  lemma HeadIsTop(z: ZSet, s: seq<string>)
    requires IsRanking(z, s) && s != []
    ensures IsTop(z, s[0])
  {
    forall m | m in z && m != s[0] ensures Above(z, s[0], m) {
      var j :| 0 <= j < |s| && s[j] == m;
      assert Above(z, s[0], s[j]);
    }
  }

  lemma TailRanking(z: ZSet, s: seq<string>)
    requires IsRanking(z, s) && s != []
    ensures s[0] in z && IsRanking(Without(z, s[0]), s[1..])
  {
    var rest, tail := Without(z, s[0]), s[1..];
    forall i | 0 <= i < |tail| ensures tail[i] in rest {
      assert Above(z, s[0], s[i + 1]);
      AboveIsOrder(z, s[0], s[i + 1], s[0]);
    }
    forall m | m in rest ensures m in tail {
      var j :| 0 <= j < |s| && s[j] == m;
      assert tail[j - 1] == m;
    }
    forall i, j | 0 <= i < j < |s[1..]| ensures Above(Without(z, s[0]), s[1..][i], s[1..][j]) {
      assert Above(z, s[i + 1], s[j + 1]);
    }
  }

  /** A Redis index: negative positions count from the end. */
  function RedisIndex(i: int, n: nat): int {
    if i < 0 then i + n else i
  }

  /** `ZREVRANGE start stop` on the ranked list: both ends inclusive, clipped to the list. */
  function RevRange(s: seq<string>, start: nat, stop: int): seq<string> {
    var last := RedisIndex(stop, |s|);
    var hi := if last + 1 < |s| then last + 1 else |s|;
    if start < hi then s[start..hi] else []
  }

  /** The page a caller asks for with `limit` and `offset`, as Python's slice returns it. */
  function Slice<T>(s: seq<T>, offset: nat, limit: nat): seq<T> {
    if offset >= |s| then []
    else if offset + limit < |s| then s[offset..offset + limit]
    else s[offset..]
  }

  /** `zrevrange(offset, offset + limit - 1)` is the slice, except that an empty page at the start
      becomes the range 0..-1, which is the whole set. */
  lemma PageIsSliceExactly(s: seq<string>, offset: nat, limit: nat)
    ensures RevRange(s, offset, offset + limit - 1) == Slice(s, offset, limit)
       <==> !(offset == 0 && limit == 0 && s != [])
  {
    if offset == 0 && limit == 0 { assert RevRange(s, 0, -1) == s; }
  }
}

/** `str.split(":")` and the prefix pattern `value:*`, on which composite Redis members rely. */
module Text {
  const COLON: string := ":"

  /** `s.split(":")`. */
  function Split(s: string): (parts: seq<string>)
    ensures parts != []
  {
    if s == [] then [""]
    else
      var rest := Split(s[1..]);
      if s[0] == ':' then [""] + rest else [[s[0]] + rest[0]] + rest[1..]
  }

  /** `s.split(":", 1)[1]`. */
  function AfterColon(s: string): string
    requires ':' in s
  {
    if s[0] == ':' then s[1..] else AfterColon(s[1..])
  }

  lemma {:induction false} SplitPlain(s: string)
    ensures |Split(s)| == 1 <==> ':' !in s
    ensures ':' !in s ==> Split(s) == [s]
  {
    if s != [] {
      SplitPlain(s[1..]);
      assert ':' in s <==> s[0] == ':' || ':' in s[1..];
      if ':' !in s { assert [s[0]] + s[1..] == s; }
    }
  }

  lemma {:induction false} SplitConcat(a: string, b: string)
    requires ':' !in b
    ensures |Split(a + COLON + b)| == |Split(a)| + 1
    ensures ':' !in a ==> Split(a + COLON + b) == [a, b]
  {
    var s := a + COLON + b;
    if a == [] {
      SplitPlain(b);
      assert s[1..] == b;
    } else {
      SplitConcat(a[1..], b);
      assert s[1..] == a[1..] + COLON + b && s[0] == a[0];
      assert ':' in a <==> a[0] == ':' || ':' in a[1..];
      if ':' !in a { assert [a[0]] + a[1..] == a; }
    }
  }

  /** A pair `a:b` splits into two parts exactly when `a` itself has no colon. */
  lemma SplitPair(a: string, b: string)
    requires ':' !in b
    ensures |Split(a + COLON + b)| == 2 <==> ':' !in a
    ensures ':' !in a ==> Split(a + COLON + b) == [a, b]
  {
    SplitConcat(a, b);
    SplitPlain(a);
  }

  lemma {:induction false} AfterColonOfPair(a: string, b: string)
    requires ':' !in a
    ensures ':' in a + COLON + b && AfterColon(a + COLON + b) == b
  {
    var s := a + COLON + b;
    assert s[|a|] == ':';
    if a == [] {
      assert s[1..] == b;
    } else {
      assert s[0] == a[0] && s[1..] == a[1..] + COLON + b;
      AfterColonOfPair(a[1..], b);
    }
  }

  lemma PrefixTail(p: string, s: string)
    requires p != [] && s != []
    ensures p <= s <==> p[0] == s[0] && p[1..] <= s[1..]
  {
    if p[0] == s[0] && p[1..] <= s[1..] {
      forall i | 0 <= i < |p| ensures p[i] == s[i] {
        if i > 0 { assert p[1..][i - 1] == s[1..][i - 1]; }
      }
    }
  }

  /** The pattern `v:*` picks exactly the members whose value is `v`. */
  lemma {:induction false} PrefixPicksValue(v: string, w: string, rest: string)
    requires ':' !in v && ':' !in w
    ensures v + COLON <= w + COLON + rest <==> v == w
  {
    var p, s := v + COLON, w + COLON + rest;
    if v == [] {
      if w != [] { assert s[0] == w[0] && p[0] == ':'; }
    } else if w == [] {
      assert s[0] == ':' && p[0] == v[0];
    } else {
      PrefixPicksValue(v[1..], w[1..], rest);
      PrefixTail(p, s);
      assert p[1..] == v[1..] + COLON && s[1..] == w[1..] + COLON + rest;
      assert v == [v[0]] + v[1..] && w == [w[0]] + w[1..];
    }
  }
}

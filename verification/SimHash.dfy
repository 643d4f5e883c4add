/** The 128-bit SimHash of a list of words, and how little one changed word can move it.
    `md5` is any function from text to
    numbers; only the low 128 bits are looked at. */
module SimHash {
  import opened Bits
  import opened Bands
  import opened Naturals

  /** `" ".join(words)`. */
  function JoinWords(words: seq<string>): string {
    if words == [] then ""
    else if |words| == 1 then words[0]
    else words[0] + " " + JoinWords(words[1..])
  }

  function ShingleCount(n: nat): nat {
    if n < 3 then 1 else n - 2
  }

  /** `" ".join(words[i : i + 3])`. */
  function Shingle(words: seq<string>, i: nat): string
    requires i < |words|
  {
    JoinWords(words[i..if i + 3 < |words| then i + 3 else |words|])
  }

  function Hashes(md5: string -> nat, words: seq<string>): (h: seq<nat>)
    requires words != []
    ensures |h| == ShingleCount(|words|)
  {
    seq<nat>(ShingleCount(|words|), i requires 0 <= i < ShingleCount(|words|) => md5(Shingle(words, i)))
  }

  /** The counter `v[b]`: set bits count up, clear bits count down. */
  function Vote(h: seq<nat>, b: nat): int {
    if h == [] then 0 else Vote(h[..|h| - 1], b) + if Bit(h[|h| - 1], b) then 1 else -1
  }

  /** The fingerprint assembled from the signs of the first `n` counters. */
  function Assemble(h: seq<nat>, n: nat): nat {
    if n == 0 then 0
    else if Vote(h, n - 1) > 0 then SetBit(Assemble(h, n - 1), n - 1)
    else Assemble(h, n - 1)
  }

  function Compute(md5: string -> nat, words: seq<string>): nat {
    if words == [] then 0 else Assemble(Hashes(md5, words), FINGERPRINT_BITS)
  }

  method ComputeSimHash(md5: string -> nat, words: seq<string>) returns (fingerprint: nat)
    ensures fingerprint == Compute(md5, words)
  {
    if words == [] { return 0; }
    ghost var h := Hashes(md5, words);
    var v := new int[FINGERPRINT_BITS](_ => 0);
    var n := if |words| - 2 > 1 then |words| - 2 else 1;
    for i := 0 to n
      invariant forall b :: 0 <= b < FINGERPRINT_BITS ==> v[b] == Vote(h[..i], b)
    {
      var hash := md5(Shingle(words, i));
      assert h[..i + 1][..i] == h[..i] && h[..i + 1][i] == hash;
      for b := 0 to FINGERPRINT_BITS
        invariant forall c :: 0 <= c < b ==> v[c] == Vote(h[..i + 1], c)
        invariant forall c :: b <= c < FINGERPRINT_BITS ==> v[c] == Vote(h[..i], c)
      {
        if Bit(hash, b) { v[b] := v[b] + 1; } else { v[b] := v[b] - 1; }
      }
    }
    assert h[..n] == h;
    fingerprint := 0;
    for b := 0 to FINGERPRINT_BITS
      invariant fingerprint == Assemble(h, b)
    {
      if v[b] > 0 { fingerprint := SetBit(fingerprint, b); }
    }
  }

  // ---- majority ----------------------------------------------------------------------------

  function Ones(h: seq<nat>, b: nat): nat {
    if h == [] then 0 else Ones(h[..|h| - 1], b) + if Bit(h[|h| - 1], b) then 1 else 0
  }

  lemma {:induction false} VoteIsMajority(h: seq<nat>, b: nat)
    ensures Vote(h, b) == 2 * Ones(h, b) - |h|
  {
    if h != [] { VoteIsMajority(h[..|h| - 1], b); }
  }

  lemma {:induction false} AssembledBit(h: seq<nat>, n: nat, b: nat)
    ensures Bit(Assemble(h, n), b) <==> b < n && Vote(h, b) > 0
  {
    if n == 0 {
      ShrZero(b);
    } else {
      AssembledBit(h, n - 1, b);
      BitOfSetBit(Assemble(h, n - 1), n - 1, b);
    }
  }

  lemma {:induction false} AssembledFits(h: seq<nat>, n: nat)
    requires n <= FINGERPRINT_BITS
    ensures Fingerprint(Assemble(h, n))
  {
    if n == 0 {
      ShrZero(FINGERPRINT_BITS);
    } else {
      AssembledFits(h, n - 1);
      SetBitFits(Assemble(h, n - 1), n - 1, FINGERPRINT_BITS);
    }
  }

  /** A bit is set exactly when a strict majority of the shingle hashes set it. */
  lemma BitIsMajority(md5: string -> nat, words: seq<string>, b: nat)
    ensures Fingerprint(Compute(md5, words))
    ensures Bit(Compute(md5, words), b)
       <==> words != [] && b < FINGERPRINT_BITS && 2 * Ones(Hashes(md5, words), b) > ShingleCount(|words|)
  {
    if words == [] {
      ShrZero(b);
      ShrZero(FINGERPRINT_BITS);
    } else {
      AssembledFits(Hashes(md5, words), FINGERPRINT_BITS);
      AssembledBit(Hashes(md5, words), FINGERPRINT_BITS, b);
      VoteIsMajority(Hashes(md5, words), b);
    }
  }

  // ---- what is hashed ----------------------------------------------------------------------

  /** The three words from `i` on, with a blank in between. */
  function Triple(words: seq<string>, i: nat): string
    requires i + 2 < |words|
  {
    words[i] + " " + words[i + 1] + " " + words[i + 2]
  }

  lemma JoinTwo(a: string, b: string)
    ensures JoinWords([a, b]) == a + " " + b
  {
    assert [a, b][1..] == [b];
    assert JoinWords([b]) == b;
  }

  lemma JoinThree(a: string, b: string, c: string)
    ensures JoinWords([a, b, c]) == a + " " + b + " " + c
  {
    JoinTwo(b, c);
    assert [a, b, c][1..] == [b, c];
    assert a + " " + (b + " " + c) == a + " " + b + " " + c;
  }

  lemma ShinglesOfText(words: seq<string>, i: nat)
    requires i < ShingleCount(|words|) && words != []
    ensures Shingle(words, i) == if |words| == 1 then words[0] else if |words| == 2 then words[0] + " " + words[1]
                                 else Triple(words, i)
  {
    if |words| == 1 {
      assert words[0..1] == [words[0]];
    } else if |words| == 2 {
      assert words[0..2] == [words[0], words[1]];
      JoinTwo(words[0], words[1]);
    } else {
      assert words[i..i + 3] == [words[i], words[i + 1], words[i + 2]];
      JoinThree(words[i], words[i + 1], words[i + 2]);
    }
  }

  /** The hashes are those of all triples of neighbouring words; a shorter text is hashed as a whole. */
  lemma HashesOfText(md5: string -> nat, words: seq<string>)
    requires words != []
    ensures |words| == 1 ==> Hashes(md5, words) == [md5(words[0])]
    ensures |words| == 2 ==> Hashes(md5, words) == [md5(words[0] + " " + words[1])]
    ensures |words| >= 3 ==> |Hashes(md5, words)| == |words| - 2
    ensures |words| >= 3 ==> forall i :: 0 <= i < |words| - 2 ==> Hashes(md5, words)[i] == md5(Triple(words, i))
  {
    forall i | 0 <= i < |Hashes(md5, words)| ensures Hashes(md5, words)[i] == md5(Shingle(words, i)) {
    }
    if |words| < 3 {
      ShinglesOfText(words, 0);
    } else {
      forall i | 0 <= i < |words| - 2 ensures Hashes(md5, words)[i] == md5(Triple(words, i)) {
        ShinglesOfText(words, i);
      }
    }
  }

  /** The places whose hash has bit `b`. */
  function Setting(h: seq<nat>, b: nat): set<nat> {
    set i: nat | i < |h| && Bit(h[i], b)
  }

  lemma {:induction false} OnesCount(h: seq<nat>, b: nat)
    ensures Ones(h, b) == |Setting(h, b)|
  {
    if h != [] {
      var n := |h| - 1;
      OnesCount(h[..n], b);
      assert Setting(h, b) == Setting(h[..n], b) + if Bit(h[n], b) then {n} else {};
    }
  }

  /** A text of three words or more: a bit of the fingerprint is set exactly when it is one of the 128 and
      more than half of the triples have it in their hash. */
  lemma BitIsMajorityOfTriples(md5: string -> nat, words: seq<string>, b: nat)
    requires |words| >= 3
    ensures Bit(Compute(md5, words), b)
       <==> b < 128 && 2 * |set i: nat | i < |words| - 2 && Bit(md5(Triple(words, i)), b)| > |words| - 2
  {
    var h := Hashes(md5, words);
    HashesOfText(md5, words);
    BitIsMajority(md5, words, b);
    OnesCount(h, b);
    assert Setting(h, b) == set i: nat | i < |words| - 2 && Bit(md5(Triple(words, i)), b);
  }

  /** No words, no bits; one or two words give the low 128 bits of one hash. */
  lemma BitOfShortText(md5: string -> nat, words: seq<string>, b: nat)
    ensures words == [] ==> Compute(md5, words) == 0
    ensures |words| == 1 ==> (Bit(Compute(md5, words), b) <==> b < 128 && Bit(md5(words[0]), b))
    ensures |words| == 2 ==> (Bit(Compute(md5, words), b) <==> b < 128 && Bit(md5(words[0] + " " + words[1]), b))
  {
    if 1 <= |words| <= 2 {
      var h := Hashes(md5, words);
      HashesOfText(md5, words);
      BitIsMajority(md5, words, b);
      OnesCount(h, b);
      assert Setting(h, b) == if Bit(h[0], b) then {0} else {};
    }
  }

  // ---- stability ---------------------------------------------------------------------------

  function ChangedAt<T(==)>(s: seq<T>, t: seq<T>): set<nat>
    requires |s| == |t|
  {
    set i: nat | i < |s| && s[i] != t[i]
  }

  lemma {:induction false} VoteMoves(s: seq<nat>, t: seq<nat>, b: nat)
    requires |s| == |t|
    ensures -2 * |ChangedAt(s, t)| <= Vote(s, b) - Vote(t, b) <= 2 * |ChangedAt(s, t)|
  {
    if s != [] {
      var n := |s| - 1;
      var whole, front := ChangedAt(s, t), ChangedAt(s[..n], t[..n]);
      VoteMoves(s[..n], t[..n], b);
      if s[n] != t[n] {
        assert whole == front + {n};
      } else {
        assert whole == front;
      }
    }
  }

  lemma FarShingle(words: seq<string>, i: nat, word: string, j: nat)
    requires i < |words| && j < |words| && (j > i || j + 3 <= i)
    ensures Shingle(words[i := word], j) == Shingle(words, j)
  {
    var hi := if j + 3 < |words| then j + 3 else |words|;
    assert words[i := word][j..hi] == words[j..hi];
  }

  /** One new word changes at most three shingles, for a text of any length. */
  lemma OneWordThreeShingles(md5: string -> nat, words: seq<string>, i: nat, word: string)
    requires i < |words|
    ensures |ChangedAt(Hashes(md5, words), Hashes(md5, words[i := word]))| <= 3
  {
    var s, t := Hashes(md5, words), Hashes(md5, words[i := word]);
    var changed := ChangedAt(s, t);
    forall j | j in changed ensures i - 3 < j <= i {
      if j > i || j + 3 <= i { FarShingle(words, i, word, j); }
    }
    IntervalSize(changed, i - 3, i);
  }

  /** The bits whose counter is so small that one word could turn it. */
  function WeakBits(md5: string -> nat, words: seq<string>): set<nat>
    requires words != []
  {
    set b: nat | b < FINGERPRINT_BITS && -6 <= Vote(Hashes(md5, words), b) <= 6
  }

  /** Replacing one word moves every counter by at most 6, so only weak bits can flip, and the
      distance between the two fingerprints is at most their number. */
  lemma OneWordFlipsWeakBits(md5: string -> nat, words: seq<string>, i: nat, word: string)
    requires i < |words|
    ensures forall b: nat :: -6 <= Vote(Hashes(md5, words[i := word]), b) - Vote(Hashes(md5, words), b) <= 6
    ensures Differing(Compute(md5, words), Compute(md5, words[i := word]), FINGERPRINT_BITS) <= WeakBits(md5, words)
    ensures HammingDistance(Compute(md5, words), Compute(md5, words[i := word])) <= |WeakBits(md5, words)|
  {
    var edited := words[i := word];
    var s, t := Hashes(md5, words), Hashes(md5, edited);
    OneWordThreeShingles(md5, words, i, word);
    forall b: nat ensures -6 <= Vote(t, b) - Vote(s, b) <= 6 {
      VoteMoves(s, t, b);
    }
    var x, y := Compute(md5, words), Compute(md5, edited);
    forall b | b in Differing(x, y, FINGERPRINT_BITS) ensures b in WeakBits(md5, words) {
      AssembledBit(s, FINGERPRINT_BITS, b);
      AssembledBit(t, FINGERPRINT_BITS, b);
    }
    AssembledFits(s, FINGERPRINT_BITS);
    AssembledFits(t, FINGERPRINT_BITS);
    HammingIsDifferingBits(x, y, FINGERPRINT_BITS);
    SubsetSize(Differing(x, y, FINGERPRINT_BITS), WeakBits(md5, words));
  }

  /** With few enough weak bits an edited text still shares a band with the original; at the shipped
      settings seven are few enough. */
  lemma EditedTextSharesBand(md5: string -> nat, words: seq<string>, i: nat, word: string, count: nat, stride: nat)
    requires i < |words| && count > 0 && stride > 0
    requires EnoughBands(count, stride, |WeakBits(md5, words)|)
    ensures SharesBand(Compute(md5, words), Compute(md5, words[i := word]), count, stride)
  {
    OneWordFlipsWeakBits(md5, words, i, word);
    BitIsMajority(md5, words, 0);
    BitIsMajority(md5, words[i := word], 0);
    BandsCompleteExactly(count, stride, |WeakBits(md5, words)|);
  }

  lemma EditedTextSharesShippedBand(md5: string -> nat, words: seq<string>, i: nat, word: string)
    requires i < |words| && |WeakBits(md5, words)| <= 7
    ensures SharesBand(Compute(md5, words), Compute(md5, words[i := word]), 16, 8)
  {
    EditedTextSharesBand(md5, words, i, word, 16, 8);
  }
}

/** Python's unbounded non-negative integers as bit strings: shifts, masks, exclusive or,
    binary and hexadecimal text. Everything is defined by halving, so proofs follow the bits. */
module Bits {
  import opened Options

  /** `x >> k`. */
  function Shr(x: nat, k: nat): nat
    decreases k
  {
    if k == 0 then x else Shr(x / 2, k - 1)
  }

  /** `x & (2^n - 1)`. */
  function Low(x: nat, n: nat): nat
    decreases n
  {
    if n == 0 then 0 else x % 2 + 2 * Low(x / 2, n - 1)
  }

  /** Bit `b` of `x`: `(x >> b) & 1`. */
  predicate Bit(x: nat, b: nat) {
    Shr(x, b) % 2 == 1
  }

  /** `x | (1 << b)`. */
  function SetBit(x: nat, b: nat): nat
    decreases b
  {
    if b == 0 then x + 1 - x % 2 else x % 2 + 2 * SetBit(x / 2, b - 1)
  }

  /** `x ^ y`. */
  function Xor(x: nat, y: nat): nat
    decreases x + y
  {
    if x == 0 && y == 0 then 0
    else (x + y) % 2 + 2 * Xor(x / 2, y / 2)
  }

  /** The digits of `bin(n)` after the `0b`. */
  function BinDigits(n: nat): string {
    if n < 2 then [BinDigit(n)] else BinDigits(n / 2) + [BinDigit(n % 2)]
  }

  function BinDigit(d: nat): char {
    if d == 0 then '0' else '1'
  }

  /** `s.count("1")`. */
  function CountOnes(s: string): nat {
    if s == [] then 0 else CountOnes(s[..|s| - 1]) + if s[|s| - 1] == '1' then 1 else 0
  }

  /** `bin(x ^ y).count("1")`. */
  function HammingDistance(x: nat, y: nat): nat {
    CountOnes("0b" + BinDigits(Xor(x, y)))
  }

  // ---- bits --------------------------------------------------------------------------------

  lemma {:induction false} ShrShr(x: nat, j: nat, k: nat)
    ensures Shr(Shr(x, j), k) == Shr(x, j + k)
    decreases j
  {
    if j > 0 { ShrShr(x / 2, j - 1, k); }
  }

  lemma {:induction false} ShrZero(k: nat)
    ensures Shr(0, k) == 0
  {
    if k > 0 { ShrZero(k - 1); }
  }

  lemma BitOfShr(x: nat, k: nat, b: nat)
    ensures Bit(Shr(x, k), b) == Bit(x, k + b)
  {
    ShrShr(x, k, b);
  }

  /** A number below `2^n` has no bit from `n` on. */
  lemma NoHighBits(x: nat, n: nat, b: nat)
    requires Shr(x, n) == 0 && n <= b
    ensures !Bit(x, b)
  {
    ShrShr(x, n, b - n);
    ShrZero(b - n);
  }

  lemma {:induction false} BitOfSetBit(x: nat, b: nat, c: nat)
    ensures Bit(SetBit(x, b), c) <==> b == c || Bit(x, c)
    decreases b
  {
    if b > 0 {
      var y := SetBit(x, b);
      assert y / 2 == SetBit(x / 2, b - 1) && y % 2 == x % 2;
      if c > 0 { BitOfSetBit(x / 2, b - 1, c - 1); }
    } else {
      assert SetBit(x, 0) / 2 == x / 2;
    }
  }

  lemma {:induction false} SetBitFits(x: nat, b: nat, n: nat)
    requires Shr(x, n) == 0 && b < n
    ensures Shr(SetBit(x, b), n) == 0
    decreases n
  {
    var y := SetBit(x, b);
    if b > 0 {
      assert y / 2 == SetBit(x / 2, b - 1);
      SetBitFits(x / 2, b - 1, n - 1);
    } else {
      assert y / 2 == x / 2;
    }
  }

  /** Masked windows are equal exactly when all their bits are. */
  lemma {:induction false} LowEqual(x: nat, y: nat, n: nat)
    ensures Low(x, n) == Low(y, n) <==> forall b :: 0 <= b < n ==> Bit(x, b) == Bit(y, b)
  {
    if n > 0 {
      LowEqual(x / 2, y / 2, n - 1);
      assert Bit(x, 0) == (x % 2 == 1) && Bit(y, 0) == (y % 2 == 1);
      if x % 2 == y % 2 && Low(x / 2, n - 1) == Low(y / 2, n - 1) {
        forall b | 0 <= b < n ensures Bit(x, b) == Bit(y, b) {
          if b > 0 { assert Bit(x / 2, b - 1) == Bit(y / 2, b - 1); }
        }
      } else if forall b :: 0 <= b < n ==> Bit(x, b) == Bit(y, b) {
        forall b | 0 <= b < n - 1 ensures Bit(x / 2, b) == Bit(y / 2, b) {
          assert Bit(x, b + 1) == Bit(y, b + 1);
        }
      }
    }
  }

  /** A mask keeps the low bits and clears the others. */
  lemma {:induction false} BitOfLow(x: nat, n: nat, b: nat)
    ensures Bit(Low(x, n), b) <==> b < n && Bit(x, b)
    decreases n
  {
    var y := Low(x, n);
    if n == 0 {
      ShrZero(b);
    } else {
      assert y / 2 == Low(x / 2, n - 1) && y % 2 == x % 2;
      if b > 0 { BitOfLow(x / 2, n - 1, b - 1); }
    }
  }

  lemma {:induction false} EqualBits(x: nat, y: nat, n: nat)
    requires Shr(x, n) == 0 && Shr(y, n) == 0
    requires forall b :: 0 <= b < n ==> Bit(x, b) == Bit(y, b)
    ensures x == y
    decreases n
  {
    if n > 0 {
      assert Bit(x, 0) == Bit(y, 0);
      forall b | 0 <= b < n - 1 ensures Bit(x / 2, b) == Bit(y / 2, b) {
        assert Bit(x, b + 1) == Bit(y, b + 1);
      }
      EqualBits(x / 2, y / 2, n - 1);
    }
  }

  // ---- Hamming distance --------------------------------------------------------------------

  /** The bit positions below `n` at which two numbers differ. */
  function Differing(x: nat, y: nat, n: nat): set<nat> {
    set b: nat | b < n && Bit(x, b) != Bit(y, b)
  }

  lemma {:induction false} OnesByHalving(n: nat)
    ensures CountOnes(BinDigits(n)) == n % 2 + if n < 2 then 0 else CountOnes(BinDigits(n / 2))
  {
    if n < 2 {
      assert [BinDigit(n)][..0] == [];
    } else {
      assert BinDigits(n)[..|BinDigits(n)| - 1] == BinDigits(n / 2);
    }
  }

  lemma {:induction false} CountPrefixed(s: string)
    ensures CountOnes("0b" + s) == CountOnes(s)
  {
    if s == [] {
      assert "0b"[..1] == "0" && "0"[..0] == [];
      assert "0b" + s == "0b";
    } else {
      CountPrefixed(s[..|s| - 1]);
      assert ("0b" + s)[..|s| + 1] == "0b" + s[..|s| - 1];
    }
  }

  /** The distance, one bit at a time. */
  lemma DistanceByHalving(x: nat, y: nat)
    ensures HammingDistance(x, y)
         == (x + y) % 2 + if x == 0 && y == 0 then 0 else HammingDistance(x / 2, y / 2)
  {
    var z := Xor(x, y);
    CountPrefixed(BinDigits(z));
    OnesByHalving(z);
    if x != 0 || y != 0 {
      HalvedXor(x, y);
      var h := Xor(x / 2, y / 2);
      CountPrefixed(BinDigits(h));
      if z < 2 { OnesByHalving(0); }
    }
  }

  lemma HalvedXor(x: nat, y: nat)
    requires x != 0 || y != 0
    ensures Xor(x, y) / 2 == Xor(x / 2, y / 2) && Xor(x, y) % 2 == (x + y) % 2
    ensures Xor(x, y) < 2 ==> Xor(x / 2, y / 2) == 0
  {
    Doubled(Xor(x / 2, y / 2), (x + y) % 2);
  }

  lemma Doubled(h: nat, bit: nat)
    requires bit < 2
    ensures (bit + 2 * h) / 2 == h && (bit + 2 * h) % 2 == bit
  {
  }

  /** What the text-based computation computes: the number of differing bits. */
  lemma {:induction false} HammingIsDifferingBits(x: nat, y: nat, n: nat)
    requires Shr(x, n) == 0 && Shr(y, n) == 0
    ensures HammingDistance(x, y) == |Differing(x, y, n)|
    decreases n
  {
    DistanceByHalving(x, y);
    if n == 0 {
      assert Differing(x, y, 0) == {};
    } else {
      HammingIsDifferingBits(x / 2, y / 2, n - 1);
      DifferingByHalving(x, y, n);
      if x == 0 && y == 0 { DistanceByHalving(0, 0); }
    }
  }

  lemma DifferingByHalving(x: nat, y: nat, n: nat)
    requires n > 0
    ensures |Differing(x, y, n)| == (x + y) % 2 + |Differing(x / 2, y / 2, n - 1)|
  {
    var whole, half := Differing(x, y, n), Differing(x / 2, y / 2, n - 1);
    var tail := whole - {0};
    forall b: nat ensures b in tail <==> b > 0 && b - 1 in half {
      if b > 0 { HalvedBit(x, y, b); }
    }
    ShiftedSize(half, tail);
    HalvedBit(x, y, 0);
    if 0 in whole {
      assert whole == tail + {0};
    } else {
      assert whole == tail;
    }
  }

  lemma HalvedBit(x: nat, y: nat, b: nat)
    ensures b > 0 ==> Bit(x, b) == Bit(x / 2, b - 1) && Bit(y, b) == Bit(y / 2, b - 1)
    ensures b == 0 ==> (Bit(x, b) != Bit(y, b) <==> (x + y) % 2 == 1)
  {
  }

  lemma {:induction false} ShiftedSize(s: set<nat>, t: set<nat>)
    requires forall b: nat :: b in t <==> b > 0 && b - 1 in s
    ensures |t| == |s|
    decreases s
  {
    if s == {} {
      assert forall b: nat :: b !in t;
    } else {
      var x :| x in s;
      assert x + 1 in t;
      ShiftedSize(s - {x}, t - {x + 1});
    }
  }

  // ---- hexadecimal text --------------------------------------------------------------------

  const HEX_DIGITS := "0123456789abcdef"

  /** `hex(n)[2:]`. */
  function Hex(n: nat): (s: string)
    ensures s != [] && forall i :: 0 <= i < |s| ==> s[i] in HEX_DIGITS
  {
    if n < 16 then [HEX_DIGITS[n]] else Hex(n / 16) + [HEX_DIGITS[n % 16]]
  }

  function DigitValue(c: char): Option<nat> {
    if '0' <= c <= '9' then Some(c as nat - '0' as nat)
    else if 'a' <= c <= 'f' then Some(c as nat - 'a' as nat + 10)
    else None
  }

  /** `int(s, 16)` on digits; `None` stands for its `ValueError`. */
  function ParseHex(s: string): Option<nat> {
    if s == [] then None
    else
      var d := DigitValue(s[|s| - 1]);
      if d.None? then None
      else if |s| == 1 then d
      else
        var hi := ParseHex(s[..|s| - 1]);
        if hi.None? then None else Some(16 * hi.value + d.value)
  }

  lemma DigitRoundTrip(d: nat)
    requires d < 16
    ensures DigitValue(HEX_DIGITS[d]) == Some(d)
  {
  }

  lemma {:induction false} HexRoundTrip(n: nat)
    ensures ParseHex(Hex(n)) == Some(n)
  {
    if n < 16 {
      DigitRoundTrip(n);
      assert Hex(n) == [HEX_DIGITS[n]];
    } else {
      DigitRoundTrip(n % 16);
      HexRoundTrip(n / 16);
      ParseLastDigit(Hex(n / 16), HEX_DIGITS[n % 16]);
      assert n == 16 * (n / 16) + n % 16;
    }
  }

  lemma ParseLastDigit(s: string, c: char)
    requires s != [] && ParseHex(s).Some? && DigitValue(c).Some?
    ensures ParseHex(s + [c]) == Some(16 * ParseHex(s).value + DigitValue(c).value)
  {
    assert (s + [c])[..|s|] == s;
  }

  lemma HexHasNoColon(n: nat)
    ensures ':' !in Hex(n)
  {
  }

  /** The four bits from `4 * k` on, as a number. */
  function Nibble(n: nat, k: nat): nat {
    Shr(n, 4 * k) % 16
  }

  lemma NibbleAbove(n: nat, k: nat)
    ensures Nibble(n / 16, k) == Nibble(n, k + 1)
  {
    ShrShr(n, 4, 4 * k);
    assert Shr(n, 4) == n / 16;
  }

  /** The last digit stands for the lowest four bits, and the digits before it for the rest. */
  predicate ReadsNibbles(s: string, n: nat) {
    forall k :: 0 <= k < |s| ==> s[|s| - 1 - k] == "0123456789abcdef"[Nibble(n, k)]
  }

  lemma NibblesGrow(front: string, n: nat)
    requires ReadsNibbles(front, n / 16)
    ensures ReadsNibbles(front + ["0123456789abcdef"[n % 16]], n)
  {
    var s := front + ["0123456789abcdef"[n % 16]];
    forall k | 0 <= k < |s| ensures s[|s| - 1 - k] == "0123456789abcdef"[Nibble(n, k)] {
      if k > 0 {
        NibbleAbove(n, k - 1);
        assert s[|s| - 1 - k] == front[|front| - 1 - (k - 1)];
      }
    }
  }

  /** The text has one lower-case digit for each four bits, and none too many. */
  lemma {:induction false} HexIsNibbles(n: nat)
    ensures ReadsNibbles(Hex(n), n)
    ensures n > 0 ==> Hex(n)[0] != '0'
    ensures n == 0 ==> Hex(n) == "0"
  {
    if n >= 16 {
      HexIsNibbles(n / 16);
      NibblesGrow(Hex(n / 16), n);
      assert Hex(n)[0] == Hex(n / 16)[0];
    } else {
      assert Hex(n) == [HEX_DIGITS[n]] && Nibble(n, 0) == n;
    }
  }
}

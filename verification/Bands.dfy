/** Splitting a fingerprint into overlapping 16-bit windows, and exactly when windows cannot miss a
    near-duplicate. `count` and `stride` are the settings BAND_COUNT and BAND_BITS. */
module Bands {
  import opened Bits
  import opened Naturals

  const FINGERPRINT_BITS: nat := 128
  const WINDOW: nat := 16

  predicate Fingerprint(x: nat) {
    Shr(x, FINGERPRINT_BITS) == 0
  }

  /** `(x >> (i * stride)) & 0xFFFF`. */
  function Window(x: nat, i: nat, stride: nat): nat {
    Low(Shr(x, i * stride), WINDOW)
  }

  function BandValue(x: nat, i: nat, stride: nat): string {
    Hex(Window(x, i, stride))
  }

  /** The dictionary that `get_bands` returns. */
  function BandsOf(x: nat, count: nat, stride: nat): map<nat, string> {
    map i: nat | i < count :: BandValue(x, i, stride)
  }

  method GetBands(x: nat, count: nat, stride: nat) returns (bands: map<nat, string>)
    ensures bands == BandsOf(x, count, stride)
  {
    bands := map[];
    for i := 0 to count
      invariant forall k :: k in bands <==> 0 <= k < i
      invariant forall k :: k in bands ==> bands[k] == BandValue(x, k, stride)
    {
      var band := Low(Shr(x, i * stride), WINDOW);
      bands := bands[i := Hex(band)];
    }
  }

  predicate SharesBand(x: nat, y: nat, count: nat, stride: nat) {
    exists i: nat :: i < count && BandValue(x, i, stride) == BandValue(y, i, stride)
  }

  /** In how many windows one bit can lie: `ceil(16 / stride)`. */
  function WindowsPerBit(stride: nat): (k: nat)
    requires stride > 0
    ensures k > 0
  {
    15 / stride + 1
  }

  // ---- one band ----------------------------------------------------------------------------

  predicate SameWindow(x: nat, y: nat, k: nat) {
    forall b: nat :: k <= b < k + WINDOW ==> Bit(x, b) == Bit(y, b)
  }

  /** A band's text prints the number whose bits are sixteen of the fingerprint's. */
  lemma BandReads(x: nat, i: nat, stride: nat) returns (v: nat)
    ensures BandValue(x, i, stride) == Hex(v) && SixteenFrom(x, i * stride, v)
  {
    v := WindowReads(x, i * stride);
  }

  lemma WindowReads(x: nat, k: nat) returns (v: nat)
    ensures v == Low(Shr(x, k), WINDOW) && SixteenFrom(x, k, v)
  {
    v := Low(Shr(x, k), WINDOW);
    MaskedWindow(x, k);
  }

  /** The bits of `v` are the sixteen of `x` from `k` on. */
  ghost predicate SixteenFrom(x: nat, k: nat, v: nat) {
    forall b: nat :: Bit(v, b) <==> b < 16 && Bit(x, k + b)
  }

  lemma MaskedWindow(x: nat, k: nat)
    ensures SixteenFrom(x, k, Low(Shr(x, k), WINDOW))
  {
    forall b: nat ensures Bit(Low(Shr(x, k), WINDOW), b) <==> b < 16 && Bit(x, k + b) {
      BitOfLow(Shr(x, k), WINDOW, b);
      BitOfShr(x, k, b);
    }
  }

  /** Two band values are equal exactly when the fingerprints agree on the whole window. */
  lemma BandEqual(x: nat, y: nat, i: nat, stride: nat)
    ensures BandValue(x, i, stride) == BandValue(y, i, stride)
       <==> SameWindow(x, y, i * stride)
  {
    BandEqualAt(x, y, i * stride);
  }

  lemma BandEqualAt(x: nat, y: nat, k: nat)
    ensures Hex(Low(Shr(x, k), WINDOW)) == Hex(Low(Shr(y, k), WINDOW)) <==> SameWindow(x, y, k)
  {
    HexInjective(Low(Shr(x, k), WINDOW), Low(Shr(y, k), WINDOW));
    WindowEqual(x, y, k);
  }

  lemma HexInjective(m: nat, n: nat)
    ensures Hex(m) == Hex(n) <==> m == n
  {
    HexRoundTrip(m);
    HexRoundTrip(n);
  }

  lemma WindowEqual(x: nat, y: nat, k: nat)
    ensures Low(Shr(x, k), WINDOW) == Low(Shr(y, k), WINDOW)
       <==> SameWindow(x, y, k)
  {
    LowEqual(Shr(x, k), Shr(y, k), WINDOW);
    WindowBits(x, y, k);
  }

  lemma WindowBits(x: nat, y: nat, k: nat)
    ensures (forall b: nat :: b < WINDOW ==> Bit(Shr(x, k), b) == Bit(Shr(y, k), b))
       <==> (forall b: nat :: k <= b < k + WINDOW ==> Bit(x, b) == Bit(y, b))
  {
    forall b: nat | b < WINDOW ensures Bit(Shr(x, k), b) == Bit(x, k + b) && Bit(Shr(y, k), b) == Bit(y, k + b) {
      BitOfShr(x, k, b);
      BitOfShr(y, k, b);
    }
    if forall b: nat :: b < WINDOW ==> Bit(Shr(x, k), b) == Bit(Shr(y, k), b) {
      forall b: nat | k <= b < k + WINDOW ensures Bit(x, b) == Bit(y, b) {
        assert Bit(Shr(x, k), b - k) == Bit(Shr(y, k), b - k);
      }
    }
  }

  // ---- pigeonhole: few differing bits leave a band untouched -------------------------------

  /** The windows that contain bit `p`. */
  function Touched(p: nat, count: nat, stride: nat): set<nat> {
    set i: nat | i < count && i * stride <= p < i * stride + WINDOW
  }

  lemma TouchedFew(p: nat, count: nat, stride: nat)
    requires stride > 0
    ensures |Touched(p, count, stride)| <= WindowsPerBit(stride)
  {
    var k, q := WindowsPerBit(stride), p / stride;
    var t := Touched(p, count, stride);
    forall i | i in t ensures q - k < i <= q {
      TouchedNear(p, i, stride);
    }
    IntervalSize(t, q - k, q);
  }

  lemma TouchedNear(p: nat, i: nat, stride: nat)
    requires stride > 0 && i * stride <= p < i * stride + WINDOW
    ensures p / stride - 15 / stride <= i <= p / stride
  {
    var k := i * stride;
    var r := p - k;
    assert p / stride == i + r / stride by { DivPlus(i, r, stride); }
    DivMono(r, 15, stride);
  }

  lemma {:induction false} IntervalSize(s: set<nat>, lo: int, hi: int)
    requires forall i :: i in s ==> lo < i <= hi
    ensures |s| <= if hi > lo then hi - lo else 0
    decreases if hi > lo then hi - lo else 0
  {
    if hi > lo {
      var rest := set i | i in s && i != hi;
      IntervalSize(rest, lo, hi - 1);
      if hi >= 0 && hi in s {
        assert s == rest + {hi};
      } else {
        assert s == rest;
      }
    } else {
      assert s == {};
    }
  }

  function TouchedByAny(ps: set<nat>, count: nat, stride: nat): set<nat> {
    set p, i | p in ps && i in Touched(p, count, stride) :: i
  }

  lemma {:induction false} TouchedByAnyFew(ps: set<nat>, count: nat, stride: nat)
    requires stride > 0
    ensures |TouchedByAny(ps, count, stride)| <= |ps| * WindowsPerBit(stride)
  {
    if ps == {} {
      assert TouchedByAny(ps, count, stride) == {};
    } else {
      var p :| p in ps;
      var rest := ps - {p};
      TouchedByAnyFew(rest, count, stride);
      TouchedFew(p, count, stride);
      assert ps == rest + {p};
      TouchedByOneMore(rest, p, count, stride);
      MulStepUp(|rest|, WindowsPerBit(stride));
    }
  }

  lemma TouchedByOneMore(rest: set<nat>, p: nat, count: nat, stride: nat)
    requires stride > 0
    ensures |TouchedByAny(rest + {p}, count, stride)|
            <= |TouchedByAny(rest, count, stride)| + |Touched(p, count, stride)|
  {
    assert TouchedByAny(rest + {p}, count, stride) == TouchedByAny(rest, count, stride) + Touched(p, count, stride);
  }

  lemma MulStepUp(n: nat, k: nat)
    ensures (n + 1) * k == n * k + k
  {
  }

  /** Fingerprints that differ in fewer bits than it takes to touch every band of a set share one of it. */
  lemma FewDifferencesShareOneOf(x: nat, y: nat, bands: set<nat>, count: nat, stride: nat) returns (i: nat)
    requires stride > 0 && Fingerprint(x) && Fingerprint(y) && forall j <- bands :: j < count
    requires HammingDistance(x, y) * WindowsPerBit(stride) < |bands|
    ensures i in bands && BandValue(x, i, stride) == BandValue(y, i, stride)
  {
    var d := Differing(x, y, FINGERPRINT_BITS);
    var touched := TouchedByAny(d, count, stride);
    assert |touched| < |bands| by {
      HammingIsDifferingBits(x, y, FINGERPRINT_BITS);
      TouchedByAnyFew(d, count, stride);
    }
    if bands <= touched { SubsetSize(bands, touched); }
    i :| i in bands && i !in touched;
    UntouchedIsShared(x, y, i, count, stride);
  }

  lemma UntouchedIsShared(x: nat, y: nat, i: nat, count: nat, stride: nat)
    requires Fingerprint(x) && Fingerprint(y) && i < count
    requires i !in TouchedByAny(Differing(x, y, FINGERPRINT_BITS), count, stride)
    ensures BandValue(x, i, stride) == BandValue(y, i, stride)
  {
    forall b: nat | i * stride <= b < i * stride + WINDOW ensures Bit(x, b) == Bit(y, b) {
      if Bit(x, b) != Bit(y, b) { DifferenceTouches(x, y, b, i, count, stride); }
    }
    BandEqual(x, y, i, stride);
  }

  function AllBands(count: nat): (bands: set<nat>)
    ensures |bands| == count && forall i :: i in bands <==> 0 <= i < count
  {
    if count == 0 then {} else AllBands(count - 1) + {count - 1}
  }

  /** Fingerprints that differ in fewer bits than it takes to touch every band share one. */
  lemma FewDifferencesShareBand(x: nat, y: nat, count: nat, stride: nat)
    requires stride > 0 && Fingerprint(x) && Fingerprint(y)
    requires HammingDistance(x, y) * WindowsPerBit(stride) < count
    ensures SharesBand(x, y, count, stride)
  {
    var i := FewDifferencesShareOneOf(x, y, AllBands(count), count, stride);
  }

  lemma DifferenceTouches(x: nat, y: nat, b: nat, i: nat, count: nat, stride: nat)
    requires Fingerprint(x) && Fingerprint(y) && Bit(x, b) != Bit(y, b)
    requires i < count && i * stride <= b < i * stride + WINDOW
    ensures i in TouchedByAny(Differing(x, y, FINGERPRINT_BITS), count, stride)
  {
    BitsAreLow(x, y, b);
    assert i in Touched(b, count, stride);
  }

  lemma BitsAreLow(x: nat, y: nat, b: nat)
    requires Fingerprint(x) && Fingerprint(y) && Bit(x, b) != Bit(y, b)
    ensures b < FINGERPRINT_BITS
  {
    if b >= FINGERPRINT_BITS {
      NoHighBits(x, FINGERPRINT_BITS, b);
      NoHighBits(y, FINGERPRINT_BITS, b);
    }
  }

  /** A last band beyond the fingerprint is empty for everyone. */
  lemma BandBeyondIsShared(x: nat, y: nat, count: nat, stride: nat)
    requires count > 0 && Fingerprint(x) && Fingerprint(y)
    requires (count - 1) * stride >= FINGERPRINT_BITS
    ensures SharesBand(x, y, count, stride)
  {
    var i := count - 1;
    NoBitsBeyond(x, y, i * stride);
    BandEqual(x, y, i, stride);
    assert i < count && BandValue(x, i, stride) == BandValue(y, i, stride);
  }

  lemma NoBitsBeyond(x: nat, y: nat, k: nat)
    requires Fingerprint(x) && Fingerprint(y) && k >= FINGERPRINT_BITS
    ensures forall b: nat :: k <= b < k + WINDOW ==> Bit(x, b) == Bit(y, b)
  {
    forall b: nat | k <= b ensures Bit(x, b) == Bit(y, b) {
      NoHighBits(x, FINGERPRINT_BITS, b);
      NoHighBits(y, FINGERPRINT_BITS, b);
    }
  }

  // ---- the converse: enough differing bits can touch every band ----------------------------

  /** One bit for each group of `WindowsPerBit` bands: the start of the group's last window. */
  function Pin(j: nat, count: nat, stride: nat): nat
    requires stride > 0 && count > 0
  {
    var m := j * WindowsPerBit(stride) + WindowsPerBit(stride) - 1;
    (if m < count then m else count - 1) * stride
  }

  function Pins(n: nat, count: nat, stride: nat): nat
    requires stride > 0 && count > 0
  {
    if n == 0 then 0 else SetBit(Pins(n - 1, count, stride), Pin(n - 1, count, stride))
  }

  lemma {:induction false} BitOfPins(n: nat, count: nat, stride: nat, b: nat)
    requires stride > 0 && count > 0
    ensures Bit(Pins(n, count, stride), b) <==> exists j: nat :: j < n && Pin(j, count, stride) == b
  {
    if n == 0 {
      ShrZero(b);
    } else {
      BitOfSetBit(Pins(n - 1, count, stride), Pin(n - 1, count, stride), b);
      BitOfPins(n - 1, count, stride, b);
    }
  }

  lemma {:induction false} PinsFit(n: nat, count: nat, stride: nat)
    requires stride > 0 && count > 0 && (count - 1) * stride < FINGERPRINT_BITS
    ensures Fingerprint(Pins(n, count, stride))
  {
    if n == 0 {
      ShrZero(FINGERPRINT_BITS);
    } else {
      PinsFit(n - 1, count, stride);
      PinLow(n - 1, count, stride);
      SetBitFits(Pins(n - 1, count, stride), Pin(n - 1, count, stride), FINGERPRINT_BITS);
    }
  }

  lemma PinLow(j: nat, count: nat, stride: nat)
    requires stride > 0 && count > 0 && (count - 1) * stride < FINGERPRINT_BITS
    ensures Pin(j, count, stride) < FINGERPRINT_BITS
  {
    var m := j * WindowsPerBit(stride) + WindowsPerBit(stride) - 1;
    if m < count { MulMono(m, count - 1, stride); }
  }

  lemma {:induction false} PinsFew(n: nat, count: nat, stride: nat)
    requires stride > 0 && count > 0
    ensures |Differing(0, Pins(n, count, stride), FINGERPRINT_BITS)| <= n
  {
    var d := Differing(0, Pins(n, count, stride), FINGERPRINT_BITS);
    if n == 0 {
      assert d == {};
    } else {
      var rest := Differing(0, Pins(n - 1, count, stride), FINGERPRINT_BITS);
      PinsFew(n - 1, count, stride);
      forall b | b in d ensures b in rest + {Pin(n - 1, count, stride)} {
        BitOfSetBit(Pins(n - 1, count, stride), Pin(n - 1, count, stride), b);
      }
      SubsetSize(d, rest + {Pin(n - 1, count, stride)});
    }
  }

  /** Band `i` contains the pin of its group. */
  lemma PinInBand(i: nat, count: nat, stride: nat)
    requires stride > 0 && i < count
    ensures var j := i / WindowsPerBit(stride);
      i * stride <= Pin(j, count, stride) < i * stride + WINDOW
  {
    var k := WindowsPerBit(stride);
    var j := i / k;
    assert i == k * j + i % k;
    var m := if j * k + k - 1 < count then j * k + k - 1 else count - 1;
    assert i <= m <= i + 15 / stride;
    MulMono(i, m, stride);
    MulMono(m, i + 15 / stride, stride);
    assert (i + 15 / stride) * stride == i * stride + 15 / stride * stride;
    assert 15 / stride * stride <= 15;
  }

  lemma PinsTouchEveryBand(n: nat, count: nat, stride: nat)
    requires stride > 0 && count > 0 && n * WindowsPerBit(stride) >= count
    ensures !SharesBand(0, Pins(n, count, stride), count, stride)
  {
    forall i: nat | i < count ensures BandValue(0, i, stride) != BandValue(Pins(n, count, stride), i, stride) {
      PinTouchesBand(n, count, stride, i);
    }
  }

  lemma PinTouchesBand(n: nat, count: nat, stride: nat, i: nat)
    requires stride > 0 && i < count && n * WindowsPerBit(stride) >= count
    ensures BandValue(0, i, stride) != BandValue(Pins(n, count, stride), i, stride)
  {
    var b := Pin(i / WindowsPerBit(stride), count, stride);
    var y := Pins(n, count, stride);
    assert Bit(y, b) by {
      GroupIndex(i, n, WindowsPerBit(stride));
      BitOfPins(n, count, stride, b);
    }
    assert i * stride <= b < i * stride + WINDOW by { PinInBand(i, count, stride); }
    DifferentBand(0, y, i, stride, b);
  }

  lemma DifferentBand(x: nat, y: nat, i: nat, stride: nat, b: nat)
    requires i * stride <= b < i * stride + WINDOW && x == 0 && Bit(y, b)
    ensures BandValue(x, i, stride) != BandValue(y, i, stride)
  {
    ShrZero(b);
    BandEqual(x, y, i, stride);
  }

  lemma GroupIndex(i: nat, n: nat, k: nat)
    requires k > 0 && i < n * k
    ensures i / k < n
  {
    if i / k >= n { MulMono(n, i / k, k); }
  }

  // ---- the exact statement -----------------------------------------------------------------

  /** No two fingerprints within distance `d` can differ in all bands. */
  ghost predicate Complete(count: nat, stride: nat, d: nat) {
    forall x: nat, y: nat :: Fingerprint(x) && Fingerprint(y) && HammingDistance(x, y) <= d
      ==> SharesBand(x, y, count, stride)
  }

  /** The test on the settings that decides it. */
  predicate EnoughBands(count: nat, stride: nat, d: nat)
    requires count > 0 && stride > 0
  {
    d * WindowsPerBit(stride) < count || (count - 1) * stride >= FINGERPRINT_BITS
  }

  lemma BandsCompleteExactly(count: nat, stride: nat, d: nat)
    requires count > 0 && stride > 0
    ensures Complete(count, stride, d) <==> EnoughBands(count, stride, d)
  {
    if EnoughBands(count, stride, d) {
      forall x: nat, y: nat | Fingerprint(x) && Fingerprint(y) && HammingDistance(x, y) <= d
        ensures SharesBand(x, y, count, stride)
      {
        if (count - 1) * stride >= FINGERPRINT_BITS {
          BandBeyondIsShared(x, y, count, stride);
        } else {
          MulMono(HammingDistance(x, y), d, WindowsPerBit(stride));
          FewDifferencesShareBand(x, y, count, stride);
        }
      }
    } else {
      MissedPair(count, stride, d);
    }
  }

  /** Otherwise 0 and the pins are a pair within distance `d` that the bands miss. */
  lemma MissedPair(count: nat, stride: nat, d: nat)
    requires count > 0 && stride > 0 && !EnoughBands(count, stride, d)
    ensures Fingerprint(0) && Fingerprint(Pins(d, count, stride))
    ensures HammingDistance(0, Pins(d, count, stride)) <= d
    ensures !SharesBand(0, Pins(d, count, stride), count, stride)
  {
    ShrZero(FINGERPRINT_BITS);
    PinsFit(d, count, stride);
    PinsFew(d, count, stride);
    HammingIsDifferingBits(0, Pins(d, count, stride), FINGERPRINT_BITS);
    PinsTouchEveryBand(d, count, stride);
  }

  /** The shipped settings are safe up to distance 7 and not beyond. */
  lemma ShippedSettings()
    ensures Complete(16, 8, 7) && !Complete(16, 8, 8)
  {
    BandsCompleteExactly(16, 8, 7);
    BandsCompleteExactly(16, 8, 8);
  }

  /** All bands together determine the fingerprint exactly when they reach its last bit. */
  lemma BandsDetermineExactly(count: nat, stride: nat)
    requires count > 0 && 0 < stride <= WINDOW
    ensures (count - 1) * stride + WINDOW >= FINGERPRINT_BITS
       <==> forall x: nat, y: nat | Fingerprint(x) && Fingerprint(y) :: (
              BandsOf(x, count, stride) == BandsOf(y, count, stride) ==> x == y)
  {
    if (count - 1) * stride + WINDOW >= FINGERPRINT_BITS {
      forall x: nat, y: nat | Fingerprint(x) && Fingerprint(y) && BandsOf(x, count, stride) == BandsOf(y, count, stride)
        ensures x == y
      {
        EqualBandsEqualBits(x, y, count, stride);
        EqualBits(x, y, FINGERPRINT_BITS);
      }
    } else {
      var y := SetBit(0, FINGERPRINT_BITS - 1);
      LastBitIsUnseen(count, stride);
    }
  }

  lemma EqualBandsEqualBits(x: nat, y: nat, count: nat, stride: nat)
    requires count > 0 && 0 < stride <= WINDOW && (count - 1) * stride + WINDOW >= FINGERPRINT_BITS
    requires BandsOf(x, count, stride) == BandsOf(y, count, stride)
    ensures forall b: nat :: b < FINGERPRINT_BITS ==> Bit(x, b) == Bit(y, b)
  {
    forall b: nat | b < FINGERPRINT_BITS ensures Bit(x, b) == Bit(y, b) {
      var i := if b / stride < count then b / stride else count - 1;
      CoveringBand(b, i, count, stride);
      assert BandsOf(x, count, stride)[i] == BandsOf(y, count, stride)[i];
      BandEqual(x, y, i, stride);
    }
  }

  lemma CoveringBand(b: nat, i: nat, count: nat, stride: nat)
    requires count > 0 && 0 < stride <= WINDOW && b < (count - 1) * stride + WINDOW
    requires i == if b / stride < count then b / stride else count - 1
    ensures i * stride <= b < i * stride + WINDOW
  {
    assert b == stride * (b / stride) + b % stride;
    if b / stride >= count { MulMono(count - 1, b / stride, stride); }
  }

  lemma LastBitIsUnseen(count: nat, stride: nat)
    requires count > 0 && (count - 1) * stride + WINDOW < FINGERPRINT_BITS
    ensures var y := SetBit(0, FINGERPRINT_BITS - 1);
      Fingerprint(0) && Fingerprint(y) && y != 0 && BandsOf(0, count, stride) == BandsOf(y, count, stride)
  {
    var last := FINGERPRINT_BITS - 1;
    var y := SetBit(0, last);
    ShrZero(FINGERPRINT_BITS);
    ShrZero(last);
    SetBitFits(0, last, FINGERPRINT_BITS);
    BitOfSetBit(0, last, last);
    forall i: nat | i < count ensures BandValue(0, i, stride) == BandValue(y, i, stride) {
      MulMono(i, count - 1, stride);
      BitBehindWindow(last, i * stride);
      BandEqual(0, y, i, stride);
    }
  }

  lemma BitBehindWindow(last: nat, k: nat)
    requires k + WINDOW <= last
    ensures SameWindow(0, SetBit(0, last), k)
  {
    forall b: nat | k <= b < k + WINDOW ensures Bit(0, b) == Bit(SetBit(0, last), b) {
      BitOfSetBit(0, last, b);
    }
  }
}

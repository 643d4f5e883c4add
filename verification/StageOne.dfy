/** Stage 1 of deduplication: banded look-up through composite strings, against a scan of every
    registered fingerprint. */
module StageOne {
  import opened Options
  import opened Text
  import opened Bits
  import opened Bands
  import opened Naturals
  import opened BandStore

  const HAMMING_THRESHOLD: nat := 3
  const SIMHASH_TTL: Time := 259200.0

  /** BAND_COUNT and BAND_BITS; the settings allow 4 to 32 bands of 4 to 16 bits. */
  datatype Settings = Settings(count: nat, stride: nat) {
    predicate Valid() { count > 0 && stride > 0 }
  }

  /** An article's URL hash and fingerprint, when its bands were registered, and which of them were not,
      because the pipeline broke off. */
  datatype Registration = Registration(urlHash: string, fp: nat, at: Time, missing: set<nat>)

  /** The entry `url_hash:hex` that is stored in every band. */
  function Entry(r: Registration): string {
    r.urlHash + COLON + Hex(r.fp)
  }

  /** The candidate test of `process_article` on one collision. */
  predicate NearDuplicate(entry: string, x: nat) {
    var parts := Split(entry);
    |parts| == 2 && ParseHex(parts[1]).Some? && HammingDistance(x, ParseHex(parts[1]).value) <= HAMMING_THRESHOLD
  }

  /** A two-part entry whose second part is not hexadecimal makes `int` raise. */
  predicate Readable(entry: string) {
    |Split(entry)| == 2 ==> ParseHex(Split(entry)[1]).Some?
  }

  /** The loop over the collisions, in any order: it stops at the first near duplicate it meets, and
      raises at the first unreadable entry. */
  method FindDuplicate(x: nat, collisions: set<string>) returns (duplicateOf: Option<string>, distance: int, raised: bool)
    ensures raised ==> exists c :: c in collisions && !Readable(c)
    ensures !raised ==> (duplicateOf.Some? <==> exists c :: c in collisions && NearDuplicate(c, x))
    ensures duplicateOf.Some? ==> exists c :: (c in collisions && NearDuplicate(c, x)
      && duplicateOf.value == Split(c)[0] && distance == HammingDistance(x, ParseHex(Split(c)[1]).value))
    ensures !raised && duplicateOf.None? ==> forall c :: c in collisions ==> Readable(c)
  {
    duplicateOf, distance, raised := None, -1, false;
    var todo := collisions;
    while todo != {}
      invariant todo <= collisions
      invariant forall c :: c in collisions && c !in todo ==> !NearDuplicate(c, x) && Readable(c)
      decreases todo
    {
      var c :| c in todo;
      var parts := Split(c);
      if |parts| == 2 {
        var fp := ParseHex(parts[1]);
        if fp.None? { return None, -1, true; }
        if HammingDistance(x, fp.value) <= HAMMING_THRESHOLD {
          assert NearDuplicate(c, x);
          return Some(parts[0]), HammingDistance(x, fp.value), false;
        }
      }
      todo := todo - {c};
    }
  }

  /** Whatever a scan can return from the store is readable. */
  ghost predicate ReadableStore(store: RedisBands) {
    forall i, m :: i in store && m in store[i] && ':' in m ==> Readable(AfterColon(m))
  }

  lemma EntryIsReadable(r: Registration)
    ensures Readable(Entry(r))
  {
    HexHasNoColon(r.fp);
    SplitPair(r.urlHash, Hex(r.fp));
    HexRoundTrip(r.fp);
  }

  lemma RegisteringKeepsReadable(cfg: Settings, store: RedisBands, r: Registration)
    requires ReadableStore(store)
    ensures ReadableStore(Register(store, Registered(cfg, r), Entry(r), SIMHASH_TTL, r.at))
  {
    var bands := Registered(cfg, r);
    var next := Register(store, bands, Entry(r), SIMHASH_TTL, r.at);
    EntryIsReadable(r);
    forall i, m | i in next && m in next[i] && ':' in m ensures Readable(AfterColon(m)) {
      if i in bands && m == Member(bands[i], Entry(r)) {
        HexHasNoColon(Window(r.fp, i, cfg.stride));
        AfterColonOfPair(bands[i], Entry(r));
      } else {
        assert i in store && m in store[i];
      }
    }
  }

  lemma LookupIsReadable(store: RedisBands, bands: map<nat, string>, now: Time)
    requires ReadableStore(store)
    ensures forall c :: c in Lookup(store, bands, now) ==> Readable(c)
  {
    forall c | c in Lookup(store, bands, now) ensures Readable(c) {
      var i :| i in bands && c in Scan(ZSetAt(store, i), bands[i], now);
      var m :| m in ZSetAt(store, i) && ':' in m && AfterColon(m) == c;
    }
  }

  /** The bands that got through. */
  function Registered(cfg: Settings, r: Registration): map<nat, string> {
    map i: nat | i < cfg.count && i !in r.missing :: BandValue(r.fp, i, cfg.stride)
  }

  /** The band store after a run of registrations. */
  function StoreOf(cfg: Settings, log: seq<Registration>): RedisBands {
    if log == [] then map[]
    else
      var r := log[|log| - 1];
      Register(StoreOf(cfg, log[..|log| - 1]), Registered(cfg, r), Entry(r), SIMHASH_TTL, r.at)
  }

  predicate Flagged(cfg: Settings, store: RedisBands, x: nat, now: Time) {
    exists c :: c in Lookup(store, BandsOf(x, cfg.count, cfg.stride), now) && NearDuplicate(c, x)
  }

  predicate Unexpired(r: Registration, now: Time) {
    r.at + SIMHASH_TTL > now
  }

  /** The brute-force form: some unexpired registration lies within the threshold. */
  predicate HasNearDuplicate(log: seq<Registration>, x: nat, now: Time) {
    exists i :: 0 <= i < |log| && ':' !in log[i].urlHash && Unexpired(log[i], now)
      && HammingDistance(x, log[i].fp) <= HAMMING_THRESHOLD
  }

  /** A history on one clock, of 128-bit fingerprints. */
  predicate History(log: seq<Registration>, now: Time) {
    && (forall i :: 0 <= i < |log| ==> log[i].at <= now && Fingerprint(log[i].fp))
    && (forall i, j :: 0 <= i < j < |log| ==> log[i].at <= log[j].at)
  }

  // ---- what the store holds ----------------------------------------------------------------

  function BandMember(cfg: Settings, r: Registration, i: nat): string {
    Member(BandValue(r.fp, i, cfg.stride), Entry(r))
  }

  /** Every unexpired registration is in each of its bands until it expires ... */
  ghost predicate Holds(cfg: Settings, store: RedisBands, r: Registration, now: Time) {
    Unexpired(r, now) ==> forall i: nat :: i < cfg.count && i !in r.missing ==>
      BandMember(cfg, r, i) in ZSetAt(store, i) && ZSetAt(store, i)[BandMember(cfg, r, i)] >= r.at + SIMHASH_TTL
  }

  /** ... and every member comes from a registration that expires with it. */
  ghost predicate Comes(cfg: Settings, log: seq<Registration>, i: nat, m: string, expiry: Time) {
    exists k :: CameFrom(cfg, log, k, i, m, expiry)
  }

  predicate CameFrom(cfg: Settings, log: seq<Registration>, k: int, i: nat, m: string, expiry: Time) {
    && 0 <= k < |log| && i < cfg.count && i !in log[k].missing
    && m == BandMember(cfg, log[k], i) && expiry == log[k].at + SIMHASH_TTL
  }

  ghost predicate StoreOk(cfg: Settings, log: seq<Registration>, store: RedisBands, now: Time) {
    && (forall k :: 0 <= k < |log| ==> Holds(cfg, store, log[k], now))
    && (forall i, m :: i in store && m in store[i] ==> Comes(cfg, log, i, m, store[i][m]))
  }

  lemma {:induction false} StoreOfOk(cfg: Settings, log: seq<Registration>, now: Time)
    requires History(log, now)
    ensures StoreOk(cfg, log, StoreOf(cfg, log), now)
    decreases |log|
  {
    if log != [] {
      var n := |log| - 1;
      var r, front := log[n], log[..n];
      assert log == front + [r];
      StoreOfOk(cfg, front, r.at);
      StoreStep(cfg, front, r, StoreOf(cfg, front), now);
    }
  }

  lemma StoreStep(cfg: Settings, front: seq<Registration>, r: Registration, store: RedisBands, now: Time)
    requires StoreOk(cfg, front, store, r.at) && r.at <= now
    requires forall k :: 0 <= k < |front| ==> front[k].at <= r.at
    ensures StoreOk(cfg, front + [r], Register(store, Registered(cfg, r), Entry(r), SIMHASH_TTL, r.at), now)
  {
    var log := front + [r];
    var after := Register(store, Registered(cfg, r), Entry(r), SIMHASH_TTL, r.at);
    forall k | 0 <= k < |log| ensures Holds(cfg, after, log[k], now) {
      if k < |front| { assert Holds(cfg, store, front[k], r.at); }
      RegisterHolds(cfg, store, r, log[k], now);
    }
    forall i, m | i in after && m in after[i] ensures Comes(cfg, log, i, m, after[i][m]) {
      RegisterComes(cfg, front, r, store, i, m);
      if i in store && m in store[i] { StillComes(cfg, front, r, i, m, store[i][m]); }
    }
  }

  lemma RegisterHolds(cfg: Settings, store: RedisBands, r: Registration, q: Registration, now: Time)
    requires r.at <= now && q.at <= r.at && (q == r || Holds(cfg, store, q, r.at))
    ensures Holds(cfg, Register(store, Registered(cfg, r), Entry(r), SIMHASH_TTL, r.at), q, now)
  {
    var after := Register(store, Registered(cfg, r), Entry(r), SIMHASH_TTL, r.at);
    if Unexpired(q, now) {
      forall i: nat | i < cfg.count && i !in q.missing
        ensures BandMember(cfg, q, i) in ZSetAt(after, i) && ZSetAt(after, i)[BandMember(cfg, q, i)] >= q.at + SIMHASH_TTL
      {
        RegisterHoldsAt(cfg, store, r, q, i);
      }
    }
  }

  lemma RegisterHoldsAt(cfg: Settings, store: RedisBands, r: Registration, q: Registration, i: nat)
    requires i < cfg.count && i !in q.missing && q.at <= r.at < q.at + SIMHASH_TTL
    requires q == r || (BandMember(cfg, q, i) in ZSetAt(store, i) && ZSetAt(store, i)[BandMember(cfg, q, i)] >= q.at + SIMHASH_TTL)
    ensures var z := ZSetAt(Register(store, Registered(cfg, r), Entry(r), SIMHASH_TTL, r.at), i);
      BandMember(cfg, q, i) in z && z[BandMember(cfg, q, i)] >= q.at + SIMHASH_TTL
  {
  }

  /** A member of a band set after one more registration is old or its own. */
  lemma RegisterComes(cfg: Settings, log: seq<Registration>, r: Registration, store: RedisBands, i: nat, m: string)
    ensures var s := Register(store, Registered(cfg, r), Entry(r), SIMHASH_TTL, r.at);
      i in s && m in s[i] ==>
        || Comes(cfg, log + [r], i, m, s[i][m])
        || (i in store && m in store[i] && s[i][m] == store[i][m])
  {
    var s := Register(store, Registered(cfg, r), Entry(r), SIMHASH_TTL, r.at);
    if i in s && m in s[i] && i < cfg.count && i !in r.missing && m == BandMember(cfg, r, i) {
      assert (log + [r])[|log|] == r;
      assert CameFrom(cfg, log + [r], |log|, i, m, s[i][m]);
    }
  }

  lemma StillComes(cfg: Settings, log: seq<Registration>, r: Registration, i: nat, m: string, expiry: Time)
    requires Comes(cfg, log, i, m, expiry)
    ensures Comes(cfg, log + [r], i, m, expiry)
  {
    var k :| CameFrom(cfg, log, k, i, m, expiry);
    assert (log + [r])[k] == log[k];
    assert CameFrom(cfg, log + [r], k, i, m, expiry);
  }

  // ---- look-ups ----------------------------------------------------------------------------

  lemma BandMemberParts(cfg: Settings, r: Registration, i: nat)
    ensures ':' !in BandValue(r.fp, i, cfg.stride)
    ensures ':' in BandMember(cfg, r, i) && AfterColon(BandMember(cfg, r, i)) == Entry(r)
    ensures BandValue(r.fp, i, cfg.stride) + COLON <= BandMember(cfg, r, i)
  {
    HexHasNoColon(Window(r.fp, i, cfg.stride));
    AfterColonOfPair(BandValue(r.fp, i, cfg.stride), Entry(r));
  }

  /** A band that got through is one of `x`. */
  predicate SharesRegistered(cfg: Settings, r: Registration, x: nat) {
    exists i: nat :: i < cfg.count && i !in r.missing && BandValue(x, i, cfg.stride) == BandValue(r.fp, i, cfg.stride)
  }

  lemma WholeSharesBand(cfg: Settings, r: Registration, x: nat)
    requires r.missing == {}
    ensures SharesRegistered(cfg, r, x) <==> SharesBand(x, r.fp, cfg.count, cfg.stride)
  {
  }

  /** Registration `k` is unexpired, prints as `c`, and shares a registered band with `x`. */
  predicate SharerAt(cfg: Settings, log: seq<Registration>, k: int, x: nat, now: Time, c: string) {
    0 <= k < |log| && Unexpired(log[k], now) && c == Entry(log[k]) && SharesRegistered(cfg, log[k], x)
  }

  /** A look-up returns exactly the entries of the unexpired registrations that share a band. */
  lemma LookupIsBandSharers(cfg: Settings, log: seq<Registration>, x: nat, now: Time, c: string)
    requires History(log, now)
    ensures c in Lookup(StoreOf(cfg, log), BandsOf(x, cfg.count, cfg.stride), now)
       <==> exists k :: SharerAt(cfg, log, k, x, now, c)
  {
    var store, bands := StoreOf(cfg, log), BandsOf(x, cfg.count, cfg.stride);
    StoreOfOk(cfg, log, now);
    if c in Lookup(store, bands, now) {
      var i :| i in bands && c in Scan(ZSetAt(store, i), bands[i], now);
      var z := ZSetAt(store, i);
      var m :| m in z && z[m] > now && bands[i] + COLON <= m && ':' in m && AfterColon(m) == c;
      assert Comes(cfg, log, i, m, store[i][m]);
      var k :| CameFrom(cfg, log, k, i, m, store[i][m]);
      PickedIsSharer(cfg, log[k], x, i);
      assert SharerAt(cfg, log, k, x, now, c);
    }
    if k :| SharerAt(cfg, log, k, x, now, c) {
      assert Holds(cfg, store, log[k], now);
      SharerIsFound(cfg, store, log[k], x, now);
    }
  }

  lemma SharerIsFound(cfg: Settings, store: RedisBands, r: Registration, x: nat, now: Time)
    requires Unexpired(r, now) && SharesRegistered(cfg, r, x)
    ensures Holds(cfg, store, r, now) ==> Entry(r) in Lookup(store, BandsOf(x, cfg.count, cfg.stride), now)
  {
    var bands := BandsOf(x, cfg.count, cfg.stride);
    var i: nat :| i < cfg.count && i !in r.missing && BandValue(x, i, cfg.stride) == BandValue(r.fp, i, cfg.stride);
    BandMemberParts(cfg, r, i);
    if Holds(cfg, store, r, now) {
      assert i in bands && Entry(r) in Scan(ZSetAt(store, i), bands[i], now);
    }
  }

  /** A member picked by the prefix of `x`'s band value is one of a band that both share. */
  lemma PickedIsSharer(cfg: Settings, r: Registration, x: nat, i: nat)
    requires i < cfg.count && i !in r.missing
    ensures AfterColon(BandMember(cfg, r, i)) == Entry(r)
    ensures BandValue(x, i, cfg.stride) + COLON <= BandMember(cfg, r, i) ==> SharesRegistered(cfg, r, x)
  {
    PickedValue(cfg, r, i, BandValue(x, i, cfg.stride));
    BandMemberParts(cfg, r, i);
    HexHasNoColon(Window(x, i, cfg.stride));
  }

  lemma PickedValue(cfg: Settings, r: Registration, i: nat, value: string)
    ensures ':' !in value && value + COLON <= BandMember(cfg, r, i) ==> value == BandValue(r.fp, i, cfg.stride)
  {
    if ':' !in value {
      BandMemberParts(cfg, r, i);
      PrefixPicksValue(value, BandValue(r.fp, i, cfg.stride), Entry(r));
    }
  }

  /** Printing and parsing back: the test on an entry is the test on its fingerprint, for URL hashes
      without a colon; with one the entry has three parts and is passed over. */
  lemma NearDuplicateOfEntry(r: Registration, x: nat)
    ensures NearDuplicate(Entry(r), x) <==> ':' !in r.urlHash && HammingDistance(x, r.fp) <= HAMMING_THRESHOLD
  {
    HexHasNoColon(r.fp);
    SplitPair(r.urlHash, Hex(r.fp));
    HexRoundTrip(r.fp);
  }

  lemma FlaggedIsNearSharer(cfg: Settings, log: seq<Registration>, x: nat, now: Time)
    requires History(log, now)
    ensures Flagged(cfg, StoreOf(cfg, log), x, now) <==> exists k :: 0 <= k < |log| && NearSharer(cfg, log[k], x, now)
  {
    var store, bands := StoreOf(cfg, log), BandsOf(x, cfg.count, cfg.stride);
    if c :| c in Lookup(store, bands, now) && NearDuplicate(c, x) {
      LookupIsBandSharers(cfg, log, x, now, c);
      var k :| SharerAt(cfg, log, k, x, now, c);
      NearDuplicateOfEntry(log[k], x);
      assert NearSharer(cfg, log[k], x, now);
    }
    if k :| 0 <= k < |log| && NearSharer(cfg, log[k], x, now) {
      assert SharerAt(cfg, log, k, x, now, Entry(log[k]));
      LookupIsBandSharers(cfg, log, x, now, Entry(log[k]));
      NearDuplicateOfEntry(log[k], x);
    }
  }

  predicate NearSharer(cfg: Settings, r: Registration, x: nat, now: Time) {
    && ':' !in r.urlHash && Unexpired(r, now)
    && HammingDistance(x, r.fp) <= HAMMING_THRESHOLD && SharesRegistered(cfg, r, x)
  }

  /** Stage 1 never flags an article without a near duplicate, whatever the settings. */
  lemma FlaggedIsSound(cfg: Settings, log: seq<Registration>, x: nat, now: Time)
    requires History(log, now)
    ensures Flagged(cfg, StoreOf(cfg, log), x, now) ==> HasNearDuplicate(log, x, now)
  {
    FlaggedIsNearSharer(cfg, log, x, now);
  }

  predicate Whole(log: seq<Registration>) {
    forall r <- log :: r.missing == {}
  }

  /** Stage 1 is the brute-force scan on every history of whole registrations, at every time and for
      every article, exactly when the settings have enough bands. */
  ghost predicate IsBruteForce(cfg: Settings) {
    forall log: seq<Registration>, x: nat, now: Time :: History(log, now) && Whole(log) && Fingerprint(x)
      ==> (Flagged(cfg, StoreOf(cfg, log), x, now) <==> HasNearDuplicate(log, x, now))
  }

  lemma StageOneExactly(cfg: Settings)
    requires cfg.Valid()
    ensures IsBruteForce(cfg) <==> EnoughBands(cfg.count, cfg.stride, HAMMING_THRESHOLD)
  {
    if EnoughBands(cfg.count, cfg.stride, HAMMING_THRESHOLD) {
      forall log: seq<Registration>, x: nat, now: Time | History(log, now) && Whole(log) && Fingerprint(x)
        ensures Flagged(cfg, StoreOf(cfg, log), x, now) <==> HasNearDuplicate(log, x, now)
      {
        FlaggedIsNearSharer(cfg, log, x, now);
        NearAreSharers(cfg, log, x, now);
      }
    } else {
      MissedDuplicate(cfg);
    }
  }

  lemma NearAreSharers(cfg: Settings, log: seq<Registration>, x: nat, now: Time)
    requires cfg.Valid() && EnoughBands(cfg.count, cfg.stride, HAMMING_THRESHOLD)
    requires History(log, now) && Whole(log) && Fingerprint(x)
    ensures HasNearDuplicate(log, x, now) <==> exists k :: 0 <= k < |log| && NearSharer(cfg, log[k], x, now)
  {
    if k :| 0 <= k < |log| && ':' !in log[k].urlHash && Unexpired(log[k], now)
            && HammingDistance(x, log[k].fp) <= HAMMING_THRESHOLD {
      assert log[k] in log;
      WholeIsFound(cfg, log[k], x);
      assert NearSharer(cfg, log[k], x, now);
    }
  }

  /** With enough bands a near fingerprint that is wholly registered shares one. */
  lemma WholeIsFound(cfg: Settings, r: Registration, x: nat)
    requires cfg.Valid() && EnoughBands(cfg.count, cfg.stride, HAMMING_THRESHOLD)
    requires r.missing == {} && Fingerprint(r.fp) && Fingerprint(x) && HammingDistance(x, r.fp) <= HAMMING_THRESHOLD
    ensures SharesRegistered(cfg, r, x)
  {
    BandsCompleteExactly(cfg.count, cfg.stride, HAMMING_THRESHOLD);
    WholeSharesBand(cfg, r, x);
  }

  // ---- registrations that broke off --------------------------------------------------------

  /** More bands got through than three bits can touch. */
  predicate EnoughLeft(cfg: Settings, r: Registration)
    requires cfg.Valid()
  {
    HAMMING_THRESHOLD * WindowsPerBit(cfg.stride) < |AllBands(cfg.count) - r.missing|
  }

  /** Then every near fingerprint still shares one of them. */
  lemma EnoughLeftIsFound(cfg: Settings, r: Registration, x: nat)
    requires cfg.Valid() && EnoughLeft(cfg, r)
    requires Fingerprint(r.fp) && Fingerprint(x) && HammingDistance(x, r.fp) <= HAMMING_THRESHOLD
    ensures SharesRegistered(cfg, r, x)
  {
    MulMono(HammingDistance(x, r.fp), HAMMING_THRESHOLD, WindowsPerBit(cfg.stride));
    var i := FewDifferencesShareOneOf(x, r.fp, AllBands(cfg.count) - r.missing, cfg.count, cfg.stride);
  }

  /** With a single band left, one differing bit of it is enough to miss the registration. */
  lemma OneBandCanMiss(cfg: Settings, r: Registration, i: nat, b: nat)
    requires AllBands(cfg.count) - r.missing == {i} && r.fp == 0
    requires i * cfg.stride <= b < i * cfg.stride + WINDOW && b < FINGERPRINT_BITS
    ensures var x := SetBit(0, b);
      Fingerprint(x) && HammingDistance(x, 0) <= 1 && !SharesRegistered(cfg, r, x)
  {
    OneBitAway(b);
    OneBitElsewhere(b, i, cfg.stride);
    OneBandLeft(cfg, r, SetBit(0, b), i);
  }

  lemma OneBandLeft(cfg: Settings, r: Registration, x: nat, i: nat)
    requires AllBands(cfg.count) - r.missing == {i} && BandValue(r.fp, i, cfg.stride) != BandValue(x, i, cfg.stride)
    ensures !SharesRegistered(cfg, r, x)
  {
    forall j: nat | j < cfg.count && j !in r.missing ensures j == i { assert j in AllBands(cfg.count) - r.missing; }
  }

  lemma OneBitElsewhere(b: nat, i: nat, stride: nat)
    requires i * stride <= b < i * stride + WINDOW
    ensures BandValue(0, i, stride) != BandValue(SetBit(0, b), i, stride)
  {
    ShrZero(b);
    BitOfSetBit(0, b, b);
    DifferentBand(0, SetBit(0, b), i, stride, b);
  }

  lemma OneBitAway(b: nat)
    requires b < FINGERPRINT_BITS
    ensures Fingerprint(SetBit(0, b)) && HammingDistance(SetBit(0, b), 0) <= 1
  {
    var x := SetBit(0, b);
    ShrZero(FINGERPRINT_BITS);
    ShrZero(b);
    SetBitFits(0, b, FINGERPRINT_BITS);
    HammingIsDifferingBits(x, 0, FINGERPRINT_BITS);
    forall c | c in Differing(x, 0, FINGERPRINT_BITS) ensures c == b {
      BitOfSetBit(0, b, c);
    }
    SubsetSize(Differing(x, 0, FINGERPRINT_BITS), {b});
  }

  /** A live registration within three bits that stage 1 can find: a whole one, or one that shares a band
      that got through. */
  predicate Blocks(cfg: Settings, r: Registration, x: nat, now: Time) {
    && ':' !in r.urlHash && Unexpired(r, now) && HammingDistance(x, r.fp) <= HAMMING_THRESHOLD
    && (r.missing == {} || SharesRegistered(cfg, r, x))
  }

  predicate IsBlocked(cfg: Settings, log: seq<Registration>, x: nat, now: Time) {
    exists r <- log :: Blocks(cfg, r, x, now)
  }

  /** On every history, broken-off registrations included. */
  lemma FlaggedExactly(cfg: Settings, log: seq<Registration>, x: nat, now: Time)
    requires cfg.Valid() && EnoughBands(cfg.count, cfg.stride, HAMMING_THRESHOLD) && History(log, now) && Fingerprint(x)
    ensures Flagged(cfg, StoreOf(cfg, log), x, now) <==> IsBlocked(cfg, log, x, now)
  {
    FlaggedIsNearSharer(cfg, log, x, now);
    if k :| 0 <= k < |log| && NearSharer(cfg, log[k], x, now) { assert log[k] in log && Blocks(cfg, log[k], x, now); }
    if r :| r in log && Blocks(cfg, r, x, now) {
      var k :| 0 <= k < |log| && log[k] == r;
      if r.missing == {} { WholeIsFound(cfg, r, x); }
      assert NearSharer(cfg, log[k], x, now);
    }
  }

  lemma MissedDuplicate(cfg: Settings)
    requires cfg.Valid() && !EnoughBands(cfg.count, cfg.stride, HAMMING_THRESHOLD)
    ensures !IsBruteForce(cfg)
  {
    var y := Pins(HAMMING_THRESHOLD, cfg.count, cfg.stride);
    MissedPair(cfg.count, cfg.stride, HAMMING_THRESHOLD);
    var r := Registration("u", y, 0.0, {});
    var log := [r];
    assert History(log, 0.0);
    assert log[0] == r && Unexpired(r, 0.0);
    assert HasNearDuplicate(log, 0, 0.0);
    WholeSharesBand(cfg, r, 0);
    FlaggedIsNearSharer(cfg, log, 0, 0.0);
  }

  /** The shipped 16 bands of stride 8 are enough; 4 bands of stride 8, which the settings allow, are not. */
  lemma ShippedStageOne()
    ensures IsBruteForce(Settings(16, 8)) && !IsBruteForce(Settings(4, 8))
  {
    StageOneExactly(Settings(16, 8));
    StageOneExactly(Settings(4, 8));
  }

  /** At the shipped settings seven of the sixteen bands are enough left. */
  lemma ShippedEnoughLeft(r: Registration, x: nat)
    ensures Fingerprint(r.fp) && Fingerprint(x) && HammingDistance(x, r.fp) <= HAMMING_THRESHOLD ==>
      |AllBands(16) - r.missing| >= 7 ==> SharesRegistered(Settings(16, 8), r, x)
  {
    if Fingerprint(r.fp) && Fingerprint(x) && HammingDistance(x, r.fp) <= HAMMING_THRESHOLD && |AllBands(16) - r.missing| >= 7 {
      EnoughLeftIsFound(Settings(16, 8), r, x);
    }
  }

  // ---- the shipped stage 1, in plain terms -------------------------------------------------

  /** A live registration that differs from `x` in at most three of the 128 bits. */
  predicate Near(r: Registration, x: nat, now: Time) {
    ':' !in r.urlHash && r.at + 259200.0 > now && |Differing(x, r.fp, 128)| <= 3
  }

  /** With 16 bands of stride 8, on every history of whole registrations: an article is flagged exactly when
      some registration of the last three days differs from it in at most three bits. */
  lemma ShippedFlagsExactly(log: seq<Registration>, x: nat, now: Time)
    requires History(log, now) && Whole(log) && Fingerprint(x)
    ensures Flagged(Settings(16, 8), StoreOf(Settings(16, 8), log), x, now)
       <==> exists i :: 0 <= i < |log| && Near(log[i], x, now)
  {
    ShippedStageOne();
    assert Flagged(Settings(16, 8), StoreOf(Settings(16, 8), log), x, now) <==> HasNearDuplicate(log, x, now);
    SomeNear(log, x, now);
  }

  lemma SomeNear(log: seq<Registration>, x: nat, now: Time)
    requires History(log, now) && Fingerprint(x)
    ensures HasNearDuplicate(log, x, now) <==> exists i :: 0 <= i < |log| && Near(log[i], x, now)
  {
    forall i | 0 <= i < |log|
      ensures Near(log[i], x, now)
         <==> ':' !in log[i].urlHash && Unexpired(log[i], now) && HammingDistance(x, log[i].fp) <= HAMMING_THRESHOLD
    {
      HammingIsDifferingBits(x, log[i].fp, 128);
    }
  }

  /** Three bits away is a duplicate, four bits away is not. */
  lemma ThreeBitsAreNear(urlHash: string, at: Time)
    requires ':' !in urlHash
    ensures var cfg := Settings(16, 8);
      && Flagged(cfg, StoreOf(cfg, [Registration(urlHash, 7, at, {})]), 0, at)
      && !Flagged(cfg, StoreOf(cfg, [Registration(urlHash, 15, at, {})]), 0, at)
  {
    var near, far := Registration(urlHash, 7, at, {}), Registration(urlHash, 15, at, {});
    SmallNumber(7, 3);
    SmallNumber(15, 4);
    SmallNumber(0, 0);
    ShippedFlagsExactly([near], 0, at);
    ShippedFlagsExactly([far], 0, at);
    assert Near([near][0], 0, at);
    assert !Near([far][0], 0, at);
  }

  /** The numbers 0, 7 and 15 have no bits but their lowest 0, 3 and 4. */
  lemma SmallNumber(y: nat, n: nat)
    requires (n == 0 && y == 0) || (n == 3 && y == 7) || (n == 4 && y == 15)
    ensures Fingerprint(y) && |Differing(0, y, 128)| == n
  {
    FitsInFour(y, n);
    forall b: nat ensures Bit(0, b) != Bit(y, b) <==> b < n {
      ShrZero(b);
      if b >= n { NoHighBits(y, n, b); } else { LowBitsSet(y, n, b); }
    }
    assert Differing(0, y, 128) == if n == 0 then {} else if n == 3 then {0, 1, 2} else {0, 1, 2, 3};
  }

  lemma FitsInFour(y: nat, n: nat)
    requires (n == 0 && y == 0) || (n == 3 && y == 7) || (n == 4 && y == 15)
    ensures Shr(y, n) == 0 && Fingerprint(y)
  {
    assert Shr(15, 4) == Shr(7, 3) == 0 && Shr(7, 4) == 0;
    ShrShr(y, 4, 124);
    ShrZero(124);
    ShrZero(4);
  }

  lemma LowBitsSet(y: nat, n: nat, b: nat)
    requires ((n == 3 && y == 7) || (n == 4 && y == 15)) && b < n
    ensures Bit(y, b)
  {
    if b == 2 { assert Shr(y, 2) == y / 4; }
    if b == 3 { assert Shr(y, 3) == 1; }
  }

  /** One registration puts into each band's set one member, `band:url_hash:fingerprint` in hexadecimal, that
      lives for three days. */
  lemma RegistrationIsStored(cfg: Settings, store: RedisBands, r: Registration, i: nat)
    requires i < cfg.count && i !in r.missing
    ensures var z := ZSetAt(Register(store, Registered(cfg, r), Entry(r), SIMHASH_TTL, r.at), i);
      var m := Hex(Window(r.fp, i, cfg.stride)) + ":" + (r.urlHash + ":" + Hex(r.fp));
      && m in z && z[m] == r.at + 259200.0
      && forall other :: other in z && other != m ==> other in ZSetAt(store, i) && z[other] == ZSetAt(store, i)[other] > r.at
  {
  }

  /** The duplicate that stage 1 reports is the article of a near, live registration. */
  lemma ReportedIsRegistered(cfg: Settings, log: seq<Registration>, x: nat, now: Time, c: string)
    requires History(log, now) && Fingerprint(x)
    requires c in Lookup(StoreOf(cfg, log), BandsOf(x, cfg.count, cfg.stride), now) && NearDuplicate(c, x)
    ensures exists i :: 0 <= i < |log| && Near(log[i], x, now) && Split(c) == [log[i].urlHash, Hex(log[i].fp)]
  {
    LookupIsBandSharers(cfg, log, x, now, c);
    var k :| SharerAt(cfg, log, k, x, now, c);
    NearDuplicateOfEntry(log[k], x);
    HexHasNoColon(log[k].fp);
    SplitPair(log[k].urlHash, Hex(log[k].fp));
    HammingIsDifferingBits(x, log[k].fp, 128);
    assert Near(log[k], x, now);
  }
}

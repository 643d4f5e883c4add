/** The two stores of band values as values: Redis keeps one sorted set per band index with members
    `value:entry` scored by expiry; the in-memory store keeps a map of maps. */
module BandStore {
  import opened Options
  import opened Text

  type Time = real
  type Scores = map<string, Time>
  type RedisBands = map<nat, Scores>
  type PlainBands = map<(nat, string), Scores>

  // ---- Redis -------------------------------------------------------------------------------

  function Member(value: string, entry: string): string {
    value + COLON + entry
  }

  function ZSetAt(store: RedisBands, i: nat): Scores {
    if i in store then store[i] else map[]
  }

  /** `ZREMRANGEBYSCORE key -inf now`. */
  function Purge(z: Scores, now: Time): Scores {
    map m | m in z && z[m] > now :: z[m]
  }

  /** `add_simhash_bands`. */
  function Register(store: RedisBands, bands: map<nat, string>, entry: string, ttl: Time, now: Time): RedisBands {
    map i | i in store.Keys + bands.Keys ::
      if i in bands then Purge(ZSetAt(store, i)[Member(bands[i], entry) := now + ttl], now) else store[i]
  }

  /** One `ZSCAN MATCH value:*` over a band, unexpired members only, cut at the first colon. */
  function Scan(z: Scores, value: string, now: Time): set<string> {
    set m | m in z && z[m] > now && value + COLON <= m && ':' in m :: AfterColon(m)
  }

  /** `check_simhash_bands`. */
  function Lookup(store: RedisBands, bands: map<nat, string>, now: Time): set<string> {
    set i, c | i in bands && c in Scan(ZSetAt(store, i), bands[i], now) :: c
  }

  // ---- the in-memory store -----------------------------------------------------------------

  function PlainAt(plain: PlainBands, key: (nat, string)): Scores {
    if key in plain then plain[key] else map[]
  }

  function PlainRegister(plain: PlainBands, bands: map<nat, string>, entry: string, ttl: Time, now: Time): PlainBands {
    map key | key in plain.Keys + (set i | i in bands :: (i, bands[i])) ::
      if key.0 in bands && bands[key.0] == key.1 then PlainAt(plain, key)[entry := now + ttl] else PlainAt(plain, key)
  }

  function PlainLookup(plain: PlainBands, bands: map<nat, string>, now: Time): set<string> {
    set i, c | i in bands && c in PlainAt(plain, (i, bands[i])) && PlainAt(plain, (i, bands[i]))[c] > now :: c
  }

  // ---- refinement --------------------------------------------------------------------------

  /** Hexadecimal band values have no colon; nothing more is needed. */
  predicate ColonFree(bands: map<nat, string>) {
    forall i :: i in bands ==> ':' !in bands[i]
  }

  function LiveScore(z: Scores, k: string, now: Time): Option<Time> {
    if k in z && z[k] > now then Some(z[k]) else None
  }

  /** Each member of a band set is some `value:entry`. */
  ghost predicate Composite(m: string) {
    exists v: string, c: string :: ':' !in v && m == Member(v, c)
  }

  /** What is unexpired at `now` is the same in both stores. */
  ghost predicate Agree(store: RedisBands, plain: PlainBands, now: Time) {
    && (forall i, m :: i in store && m in store[i] ==> Composite(m))
    && (forall i: nat, v: string, c: string | ':' !in v ::
          LiveScore(ZSetAt(store, i), Member(v, c), now) == LiveScore(PlainAt(plain, (i, v)), c, now))
  }

  lemma AgreeLater(store: RedisBands, plain: PlainBands, now: Time, later: Time)
    requires Agree(store, plain, now) && now <= later
    ensures Agree(store, plain, later)
  {
    forall i: nat, v: string, c: string | ':' !in v
      ensures LiveScore(ZSetAt(store, i), Member(v, c), later) == LiveScore(PlainAt(plain, (i, v)), c, later)
    {
      assert LiveScore(ZSetAt(store, i), Member(v, c), now) == LiveScore(PlainAt(plain, (i, v)), c, now);
    }
  }

  lemma MemberInjective(v: string, c: string, w: string, d: string)
    requires ':' !in v && ':' !in w && Member(v, c) == Member(w, d)
    ensures v == w && c == d
  {
    PrefixPicksValue(v, w, d);
    assert v + COLON <= Member(v, c);
    AfterColonOfPair(v, c);
    AfterColonOfPair(w, d);
  }

  lemma LookupsAgree(store: RedisBands, plain: PlainBands, bands: map<nat, string>, now: Time)
    requires Agree(store, plain, now) && ColonFree(bands)
    ensures Lookup(store, bands, now) == PlainLookup(plain, bands, now)
  {
    forall i, c: string | i in bands
      ensures c in Scan(ZSetAt(store, i), bands[i], now)
         <==> c in PlainAt(plain, (i, bands[i])) && PlainAt(plain, (i, bands[i]))[c] > now
    {
      ScanFinds(ZSetAt(store, i), bands[i], c, now);
      assert LiveScore(ZSetAt(store, i), Member(bands[i], c), now) == LiveScore(PlainAt(plain, (i, bands[i])), c, now);
    }
  }

  /** The prefix scan returns an entry exactly when its composite member is there and unexpired. */
  lemma ScanFinds(z: Scores, v: string, c: string, now: Time)
    requires ':' !in v && forall m :: m in z ==> Composite(m)
    ensures c in Scan(z, v, now) <==> LiveScore(z, Member(v, c), now).Some?
  {
    AfterColonOfPair(v, c);
    assert v + COLON <= Member(v, c);
    if c in Scan(z, v, now) {
      var m :| m in z && z[m] > now && v + COLON <= m && ':' in m && AfterColon(m) == c;
      var w: string, d: string :| ':' !in w && m == Member(w, d);
      PrefixPicksValue(v, w, d);
      AfterColonOfPair(w, d);
    }
  }

  lemma RegisterAgrees(store: RedisBands, plain: PlainBands, bands: map<nat, string>, entry: string, ttl: Time, now: Time)
    requires Agree(store, plain, now) && ColonFree(bands)
    ensures Agree(Register(store, bands, entry, ttl, now), PlainRegister(plain, bands, entry, ttl, now), now)
  {
    var store', plain' := Register(store, bands, entry, ttl, now), PlainRegister(plain, bands, entry, ttl, now);
    forall i, m | i in store' && m in store'[i] ensures Composite(m) {
      if i in bands && m == Member(bands[i], entry) {
        assert Composite(m);
      } else {
        assert i in store && m in store[i];
      }
    }
    forall i: nat, v: string, c: string | ':' !in v
      ensures LiveScore(ZSetAt(store', i), Member(v, c), now) == LiveScore(PlainAt(plain', (i, v)), c, now)
    {
      assert LiveScore(ZSetAt(store, i), Member(v, c), now) == LiveScore(PlainAt(plain, (i, v)), c, now);
      RegisteredScore(store, bands, entry, ttl, now, i, Member(v, c));
      PlainRegisteredScore(plain, bands, entry, ttl, now, (i, v), c);
      if i in bands && Member(v, c) == Member(bands[i], entry) { MemberInjective(v, c, bands[i], entry); }
    }
  }

  lemma RegisteredScore(store: RedisBands, bands: map<nat, string>, entry: string, ttl: Time, now: Time, i: nat, m: string)
    ensures LiveScore(ZSetAt(Register(store, bands, entry, ttl, now), i), m, now)
         == if i in bands && m == Member(bands[i], entry) then (if ttl > 0.0 then Some(now + ttl) else None)
            else LiveScore(ZSetAt(store, i), m, now)
  {
  }

  lemma PlainRegisteredScore(plain: PlainBands, bands: map<nat, string>, entry: string, ttl: Time, now: Time,
                             key: (nat, string), c: string)
    ensures LiveScore(PlainAt(PlainRegister(plain, bands, entry, ttl, now), key), c, now)
         == if key.0 in bands && bands[key.0] == key.1 && c == entry then (if ttl > 0.0 then Some(now + ttl) else None)
            else LiveScore(PlainAt(plain, key), c, now)
  {
    var r := PlainRegister(plain, bands, entry, ttl, now);
    if key.0 in bands && bands[key.0] == key.1 {
      assert key == (key.0, bands[key.0]);
      assert key in r;
    }
  }

  // ---- runs --------------------------------------------------------------------------------

  datatype BandOp =
    | Add(bands: map<nat, string>, entry: string, ttl: Time, at: Time)
    | Check(bands: map<nat, string>, at: Time)

  /** The answers of the look-ups in a run of operations. */
  function RedisAnswers(store: RedisBands, ops: seq<BandOp>): seq<set<string>>
    decreases |ops|
  {
    if ops == [] then []
    else match ops[0]
      case Add(b, e, ttl, at) => RedisAnswers(Register(store, b, e, ttl, at), ops[1..])
      case Check(b, at) => [Lookup(store, b, at)] + RedisAnswers(store, ops[1..])
  }

  function PlainAnswers(plain: PlainBands, ops: seq<BandOp>): seq<set<string>>
    decreases |ops|
  {
    if ops == [] then []
    else match ops[0]
      case Add(b, e, ttl, at) => PlainAnswers(PlainRegister(plain, b, e, ttl, at), ops[1..])
      case Check(b, at) => [PlainLookup(plain, b, at)] + PlainAnswers(plain, ops[1..])
  }

  predicate ClockNeverGoesBack(now: Time, ops: seq<BandOp>)
    decreases |ops|
  {
    ops == [] || (now <= ops[0].at && ClockNeverGoesBack(ops[0].at, ops[1..]))
  }

  predicate HexBands(ops: seq<BandOp>) {
    forall k :: 0 <= k < |ops| ==> ColonFree(ops[k].bands)
  }

  /** On one clock the Redis store answers every run as the map of maps does: composite members,
      prefix scans and opportunistic clean-up cannot be observed. */
  lemma {:induction false} RedisRefinesPlain(store: RedisBands, plain: PlainBands, now: Time, ops: seq<BandOp>)
    requires Agree(store, plain, now) && ClockNeverGoesBack(now, ops) && HexBands(ops)
    ensures RedisAnswers(store, ops) == PlainAnswers(plain, ops)
    decreases |ops|
  {
    if ops != [] {
      var op := ops[0];
      assert ColonFree(op.bands);
      AgreeLater(store, plain, now, op.at);
      var rest := ops[1..];
      assert HexBands(rest) by { forall k | 0 <= k < |rest| ensures ColonFree(rest[k].bands) { assert rest[k] == ops[k + 1]; } }
      match op
      case Add(b, e, ttl, at) =>
        RegisterAgrees(store, plain, b, e, ttl, at);
        RedisRefinesPlain(Register(store, b, e, ttl, at), PlainRegister(plain, b, e, ttl, at), at, rest);
      case Check(b, at) =>
        LookupsAgree(store, plain, b, at);
        RedisRefinesPlain(store, plain, at, rest);
    }
  }

  /** The whole statement: from empty stores, any run on one clock. */
  lemma RedisRefinesPlainFromStart(now: Time, ops: seq<BandOp>)
    requires ClockNeverGoesBack(now, ops) && HexBands(ops)
    ensures RedisAnswers(map[], ops) == PlainAnswers(map[], ops)
  {
    var store: RedisBands, plain: PlainBands := map[], map[];
    forall i: nat, v: string, c: string | ':' !in v
      ensures LiveScore(ZSetAt(store, i), Member(v, c), now) == LiveScore(PlainAt(plain, (i, v)), c, now)
    {
      assert ZSetAt(store, i) == map[] && PlainAt(plain, (i, v)) == map[];
    }
    assert Agree(store, plain, now);
    RedisRefinesPlain(store, plain, now, ops);
  }

  // ---- any clock ---------------------------------------------------------------------------

  function RedisAfter(ops: seq<BandOp>): RedisBands {
    if ops == [] then map[]
    else
      var store := RedisAfter(ops[..|ops| - 1]);
      match ops[|ops| - 1]
      case Add(b, e, ttl, at) => Register(store, b, e, ttl, at)
      case Check(_, _) => store
  }

  function PlainAfter(ops: seq<BandOp>): PlainBands {
    if ops == [] then map[]
    else
      var plain := PlainAfter(ops[..|ops| - 1]);
      match ops[|ops| - 1]
      case Add(b, e, ttl, at) => PlainRegister(plain, b, e, ttl, at)
      case Check(_, _) => plain
  }

  /** An entry under a key: when it expires, and the latest clean-up of its band since it was added. */
  datatype Kept = Kept(expiry: Time, cleaned: Time)

  function Track(ops: seq<BandOp>, i: nat, v: string, c: string): Option<Kept> {
    if ops == [] then None
    else
      var t := Track(ops[..|ops| - 1], i, v, c);
      var op := ops[|ops| - 1];
      if !op.Add? || i !in op.bands then t
      else if op.bands[i] == v && op.entry == c then Some(Kept(op.at + op.ttl, op.at))
      else if t.None? then None
      else Some(t.value.(cleaned := if t.value.cleaned < op.at then op.at else t.value.cleaned))
  }

  lemma {:induction false} TrackedInPlain(ops: seq<BandOp>, i: nat, v: string, c: string)
    ensures var z, t := PlainAt(PlainAfter(ops), (i, v)), Track(ops, i, v, c);
      (c in z <==> t.Some?) && (c in z ==> z[c] == t.value.expiry)
  {
    if ops != [] {
      var n := |ops| - 1;
      TrackedInPlain(ops[..n], i, v, c);
      if ops[n].Add? {
        PlainRegisteredEntry(PlainAfter(ops[..n]), ops[n].bands, ops[n].entry, ops[n].ttl, ops[n].at, i, v, c);
      }
    }
  }

  lemma PlainRegisteredEntry(plain: PlainBands, bands: map<nat, string>, entry: string, ttl: Time, now: Time, i: nat, v: string, c: string)
    ensures var before, after := PlainAt(plain, (i, v)), PlainAt(PlainRegister(plain, bands, entry, ttl, now), (i, v));
      if i in bands && bands[i] == v && c == entry then c in after && after[c] == now + ttl
      else (c in after <==> c in before) && (c in after ==> after[c] == before[c])
  {
    assert i in bands && bands[i] == v ==> (i, v) in set j | j in bands :: (j, bands[j]);
  }

  lemma {:induction false} TrackedInRedis(ops: seq<BandOp>, i: nat, v: string, c: string)
    requires HexBands(ops) && ':' !in v
    ensures var z, t := ZSetAt(RedisAfter(ops), i), Track(ops, i, v, c);
      && (Member(v, c) in z <==> t.Some? && t.value.expiry > t.value.cleaned)
      && (Member(v, c) in z ==> z[Member(v, c)] == t.value.expiry)
  {
    if ops != [] {
      var n := |ops| - 1;
      HexPrefix(ops);
      TrackedInRedis(ops[..n], i, v, c);
      if ops[n].Add? && i in ops[n].bands {
        assert ColonFree(ops[n].bands);
        var w, d := ops[n].bands[i], ops[n].entry;
        if Member(v, c) == Member(w, d) { MemberInjective(v, c, w, d); }
      }
    }
  }

  lemma HexPrefix(ops: seq<BandOp>)
    requires HexBands(ops) && ops != []
    ensures HexBands(ops[..|ops| - 1])
  {
    var front := ops[..|ops| - 1];
    forall k | 0 <= k < |front| ensures ColonFree(front[k].bands) { assert front[k] == ops[k]; }
  }

  lemma {:induction false} AllComposite(ops: seq<BandOp>, i: nat)
    requires HexBands(ops)
    ensures forall m :: m in ZSetAt(RedisAfter(ops), i) ==> Composite(m)
  {
    if ops != [] {
      var n := |ops| - 1;
      HexPrefix(ops);
      AllComposite(ops[..n], i);
      if ops[n].Add? && i in ops[n].bands {
        assert ColonFree(ops[n].bands);
        assert Composite(Member(ops[n].bands[i], ops[n].entry));
      }
    }
  }

  predicate LiveUnder(ops: seq<BandOp>, i: nat, v: string, c: string, now: Time) {
    var t := Track(ops, i, v, c);
    t.Some? && t.value.expiry > now
  }

  predicate CleanedAway(ops: seq<BandOp>, i: nat, v: string, c: string) {
    var t := Track(ops, i, v, c);
    t.Some? && t.value.expiry <= t.value.cleaned
  }

  /** The entry lives under some key asked for, but its band was cleaned after its expiry under each. */
  predicate Forgotten(ops: seq<BandOp>, bands: map<nat, string>, now: Time, c: string) {
    && (exists i :: i in bands && LiveUnder(ops, i, bands[i], c, now))
    && (forall i :: i in bands && LiveUnder(ops, i, bands[i], c, now) ==> CleanedAway(ops, i, bands[i], c))
  }

  lemma FoundExactly(ops: seq<BandOp>, bands: map<nat, string>, now: Time, c: string)
    requires HexBands(ops) && ColonFree(bands)
    ensures c in PlainLookup(PlainAfter(ops), bands, now) <==> exists i :: i in bands && LiveUnder(ops, i, bands[i], c, now)
    ensures c in Lookup(RedisAfter(ops), bands, now)
       <==> exists i :: i in bands && LiveUnder(ops, i, bands[i], c, now) && !CleanedAway(ops, i, bands[i], c)
  {
    forall i | i in bands
      ensures c in PlainAt(PlainAfter(ops), (i, bands[i])) && PlainAt(PlainAfter(ops), (i, bands[i]))[c] > now
         <==> LiveUnder(ops, i, bands[i], c, now)
      ensures c in Scan(ZSetAt(RedisAfter(ops), i), bands[i], now)
         <==> LiveUnder(ops, i, bands[i], c, now) && !CleanedAway(ops, i, bands[i], c)
    {
      TrackedInPlain(ops, i, bands[i], c);
      TrackedInRedis(ops, i, bands[i], c);
      AllComposite(ops, i);
      ScanFinds(ZSetAt(RedisAfter(ops), i), bands[i], c, now);
    }
  }

  /** On any clock, one that may step back: a look-up answers differently in the two stores exactly when it
      asks for an entry that still lives under some key, but whose band was cleaned at or after its expiry
      under each such key; Redis has then forgotten it. */
  lemma LookupsDifferExactly(ops: seq<BandOp>, bands: map<nat, string>, now: Time)
    requires HexBands(ops) && ColonFree(bands)
    ensures Lookup(RedisAfter(ops), bands, now) <= PlainLookup(PlainAfter(ops), bands, now)
    ensures Lookup(RedisAfter(ops), bands, now) != PlainLookup(PlainAfter(ops), bands, now)
       <==> exists c :: c in PlainLookup(PlainAfter(ops), bands, now) && Forgotten(ops, bands, now, c)
  {
    forall c ensures c in Lookup(RedisAfter(ops), bands, now)
                <==> c in PlainLookup(PlainAfter(ops), bands, now) && !Forgotten(ops, bands, now, c)
    {
      FoundExactly(ops, bands, now, c);
    }
  }

  /** It does happen: the clock reads 9, cleans the band, and then reads 0 again. */
  lemma SteppingBackIsVisible()
    ensures var ops := [Add(map[0 := "a"], "e", 1.0, 0.0), Add(map[0 := "b"], "f", 1.0, 9.0)];
      Lookup(RedisAfter(ops), map[0 := "a"], 0.0) != PlainLookup(PlainAfter(ops), map[0 := "a"], 0.0)
  {
    var a: map<nat, string>, b: map<nat, string> := map[0 := "a"], map[0 := "b"];
    var ops := [Add(a, "e", 1.0, 0.0), Add(b, "f", 1.0, 9.0)];
    assert ops[..1] == [ops[0]] && ops[..1][..0] == [];
    assert Track(ops[..1], 0, "a", "e") == Some(Kept(1.0, 0.0));
    assert Track(ops, 0, "a", "e") == Some(Kept(1.0, 9.0));
    assert 0 in a && LiveUnder(ops, 0, a[0], "e", 0.0);
    FoundExactly(ops, a, 0.0, "e");
    assert Forgotten(ops, a, 0.0, "e");
    LookupsDifferExactly(ops, a, 0.0);
  }
}

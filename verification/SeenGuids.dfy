/** The bounded cache of item keys that the feed poller consults, and the exact rule by which an
    item is emitted again. Keys are ordered from the least to the most recently used. */
module SeenGuids {
  import opened Options
  import opened Naturals

  // ---- the cache ---------------------------------------------------------------------------

  function Without(s: seq<string>, k: string): seq<string> {
    if s == [] then [] else (if s[0] == k then [] else [s[0]]) + Without(s[1..], k)
  }

  lemma WithoutHead(s: seq<string>, k: string)
    requires s != []
    ensures Without(s, k) == (if s[0] == k then [] else [s[0]]) + Without(s[1..], k)
  {
  }

  lemma WithoutNext(kept: seq<string>, keys: seq<string>, i: nat, k: string)
    requires i < |keys|
    ensures kept + Without(keys[i..], k) == (if keys[i] == k then kept else kept + [keys[i]]) + Without(keys[i + 1..], k)
  {
    WithoutHead(keys[i..], k);
    assert keys[i..][1..] == keys[i + 1..];
  }

  /** `move_to_end`. */
  function Touch(keys: seq<string>, k: string): seq<string> {
    Without(keys, k) + [k]
  }

  function AfterContains(keys: seq<string>, k: string): seq<string> {
    if k in keys then Touch(keys, k) else keys
  }

  function AfterAdd(keys: seq<string>, maxsize: int, k: string): seq<string> {
    if k in keys then Touch(keys, k)
    else if |keys| + 1 > maxsize then (keys + [k])[1..]
    else keys + [k]
  }

  class SeenGuidCache {
    var keys: seq<string>
    const maxsize: int

    constructor (maxsize: int)
      ensures keys == [] && this.maxsize == maxsize
    {
      keys := [];
      this.maxsize := maxsize;
    }

    method MoveToEnd(k: string)
      requires k in keys
      modifies this
      ensures keys == Touch(old(keys), k)
    {
      var kept := [];
      for i := 0 to |keys|
        invariant keys == old(keys)
        invariant kept + Without(keys[i..], k) == Without(keys, k)
      {
        WithoutNext(kept, keys, i, k);
        if keys[i] != k { kept := kept + [keys[i]]; }
      }
      assert Without(keys[|keys|..], k) == [];
      keys := kept + [k];
    }

    method Contains(k: string) returns (found: bool)
      modifies this
      ensures found == (k in old(keys)) && keys == AfterContains(old(keys), k)
    {
      found := k in keys;
      if found { MoveToEnd(k); }
    }

    method Add(k: string)
      modifies this
      ensures keys == AfterAdd(old(keys), maxsize, k)
    {
      if k in keys { MoveToEnd(k); return; }
      keys := keys + [k];
      if |keys| > maxsize { keys := keys[1..]; }
    }
  }

  // ---- the reference: all keys by last use -------------------------------------------------

  /** The distinct keys of a log of uses, in order of last use. */
  function ByLastUse(log: seq<string>): seq<string> {
    if log == [] then [] else Touch(ByLastUse(log[..|log| - 1]), log[|log| - 1])
  }

  function LastN(s: seq<string>, n: int): seq<string> {
    if n <= 0 then [] else if n < |s| then s[|s| - n..] else s
  }

  /** The `maxsize` most recently used distinct keys of a log. */
  function Newest(log: seq<string>, maxsize: int): seq<string> {
    LastN(ByLastUse(log), maxsize)
  }

  predicate NoDuplicates(s: seq<string>) {
    forall i, j :: 0 <= i < j < |s| ==> s[i] != s[j]
  }

  lemma {:induction false} WithoutKeeps(s: seq<string>, k: string)
    ensures forall x :: x in Without(s, k) <==> x in s && x != k
    ensures k !in s ==> Without(s, k) == s
  {
    if s != [] {
      WithoutKeeps(s[1..], k);
      assert s == [s[0]] + s[1..];
      assert forall x :: x in s <==> x == s[0] || x in s[1..];
    }
  }

  lemma {:induction false} WithoutOnce(s: seq<string>, k: string)
    requires NoDuplicates(s)
    ensures NoDuplicates(Without(s, k))
    ensures k in s ==> |Without(s, k)| == |s| - 1
  {
    if s != [] {
      assert s == [s[0]] + s[1..];
      assert s[0] !in s[1..];
      WithoutOnce(s[1..], k);
      WithoutKeeps(s[1..], k);
    }
  }

  lemma {:induction false} WithoutConcat(a: seq<string>, b: seq<string>, k: string)
    ensures Without(a + b, k) == Without(a, k) + Without(b, k)
  {
    if a == [] {
      assert a + b == b;
    } else {
      WithoutConcat(a[1..], b, k);
      assert (a + b)[1..] == a[1..] + b && (a + b)[0] == a[0];
      WithoutHead(a, k);
      WithoutHead(a + b, k);
    }
  }

  lemma {:induction false} ByLastUseMembers(log: seq<string>)
    ensures forall x :: x in ByLastUse(log) <==> x in log
    ensures NoDuplicates(ByLastUse(log))
  {
    if log != [] {
      var n := |log| - 1;
      ByLastUseMembers(log[..n]);
      WithoutKeeps(ByLastUse(log[..n]), log[n]);
      WithoutOnce(ByLastUse(log[..n]), log[n]);
      assert log == log[..n] + [log[n]];
    }
  }

  lemma LastNOfSuffix(a: seq<string>, t: seq<string>, n: int)
    requires 0 < n && |t| <= n && (|t| < n ==> a == [])
    ensures LastN(a + t, n) == t
  {
    if |t| < n { assert a + t == t; }
  }

  /** Using a key that is among the last `n` reorders them; any other key pushes out the oldest. */
  lemma LastNOfTouch(s: seq<string>, n: int, k: string)
    requires NoDuplicates(s)
    ensures k in LastN(s, n) ==> LastN(Touch(s, k), n) == Touch(LastN(s, n), k)
    ensures k !in LastN(s, n) ==> LastN(Touch(s, k), n) == AfterAdd(LastN(s, n), n, k)
  {
    if 0 < n {
      var older, kept := s[..|s| - |LastN(s, n)|], LastN(s, n);
      assert s == older + kept;
      if k in kept { KeptIsTouched(older, kept, n, k); } else { OldestIsEvicted(older, kept, n, k); }
    } else {
      assert ([] + [k])[1..] == [];
    }
  }

  lemma KeptIsTouched(older: seq<string>, kept: seq<string>, n: int, k: string)
    requires NoDuplicates(older + kept) && k in kept && 0 < n
    requires |kept| <= n && (|kept| < n ==> older == [])
    ensures LastN(Touch(older + kept, k), n) == Touch(kept, k)
  {
    WithoutConcat(older, kept, k);
    KeyOnce(older, kept, k);
    WithoutKeeps(older, k);
    assert NoDuplicates(kept) by {
      forall i, j | 0 <= i < j < |kept| ensures kept[i] != kept[j] {
        assert (older + kept)[|older| + i] == kept[i] && (older + kept)[|older| + j] == kept[j];
      }
    }
    WithoutOnce(kept, k);
    LastNOfSuffix(older, Touch(kept, k), n);
    assert older + Without(kept, k) + [k] == older + Touch(kept, k);
  }

  lemma OldestIsEvicted(older: seq<string>, kept: seq<string>, n: int, k: string)
    requires k !in kept && 0 < n
    requires |kept| <= n && (|kept| < n ==> older == [])
    ensures LastN(Touch(older + kept, k), n) == AfterAdd(kept, n, k)
  {
    var front := Without(older, k);
    assert Touch(older + kept, k) == front + kept + [k] by {
      WithoutConcat(older, kept, k);
      WithoutKeeps(kept, k);
    }
    assert front == [] || |kept| == n;
    EvictsOldest(front, kept, n, k);
  }

  lemma EvictsOldest(front: seq<string>, kept: seq<string>, n: int, k: string)
    requires k !in kept && 0 < n && |kept| <= n && (|kept| < n ==> front == [])
    ensures LastN(front + kept + [k], n) == AfterAdd(kept, n, k)
  {
    if |kept| < n {
      LastNOfSuffix(front, kept + [k], n);
      assert front + kept + [k] == front + (kept + [k]);
    } else {
      var t := kept + [k];
      LastNOfSuffix(front + [t[0]], t[1..], n);
      assert front + kept + [k] == (front + [t[0]]) + t[1..];
    }
  }

  lemma KeyOnce(a: seq<string>, b: seq<string>, k: string)
    requires NoDuplicates(a + b) && k in b
    ensures k !in a
  {
    var j :| 0 <= j < |b| && b[j] == k;
    assert (a + b)[|a| + j] == k;
    forall i | 0 <= i < |a| ensures a[i] != k { assert (a + b)[i] == a[i]; }
  }

  datatype Op = Contains(key: string) | Add(key: string)

  function Apply(keys: seq<string>, maxsize: int, op: Op): seq<string> {
    match op case Contains(k) => AfterContains(keys, k) case Add(k) => AfterAdd(keys, maxsize, k)
  }

  /** A look-up that misses uses nothing; every other operation uses its key. */
  function Used(keys: seq<string>, op: Op): seq<string> {
    if op.Contains? && op.key !in keys then [] else [op.key]
  }

  function ApplyAll(maxsize: int, ops: seq<Op>): seq<string> {
    if ops == [] then [] else Apply(ApplyAll(maxsize, ops[..|ops| - 1]), maxsize, ops[|ops| - 1])
  }

  function UsedAll(maxsize: int, ops: seq<Op>): seq<string> {
    if ops == [] then []
    else UsedAll(maxsize, ops[..|ops| - 1]) + Used(ApplyAll(maxsize, ops[..|ops| - 1]), ops[|ops| - 1])
  }

  lemma LruStep(log: seq<string>, maxsize: int, op: Op)
    ensures Apply(Newest(log, maxsize), maxsize, op) == Newest(log + Used(Newest(log, maxsize), op), maxsize)
  {
    var used := Used(Newest(log, maxsize), op);
    ByLastUseMembers(log);
    if used == [] {
      assert log + used == log;
    } else {
      assert (log + used)[..|log|] == log && (log + used)[|log|] == op.key;
      LastNOfTouch(ByLastUse(log), maxsize, op.key);
    }
  }

  /** The cache is exactly least-recently-used: after any operations it holds the `maxsize` most
      recently used distinct keys, in order of last use (none when `maxsize` is not positive). */
  lemma {:induction false} ExactLru(maxsize: int, ops: seq<Op>)
    ensures ApplyAll(maxsize, ops) == Newest(UsedAll(maxsize, ops), maxsize)
  {
    if ops == [] {
      assert ByLastUse([]) == [];
    } else {
      var n := |ops| - 1;
      ExactLru(maxsize, ops[..n]);
      LruStep(UsedAll(maxsize, ops[..n]), maxsize, ops[n]);
    }
  }

  // ---- the poller's use of it --------------------------------------------------------------

  /** A feed entry: its dedup key, if it has one, and whether its link is non-blank. */
  datatype Entry = Entry(key: Option<string>, hasLink: bool)

  predicate Emits(keys: seq<string>, e: Entry) {
    e.key.Some? && e.key.value !in keys && e.hasLink
  }

  /** Check, skip, or mark as seen: one entry, with no suspension point inside. */
  function AfterEntry(keys: seq<string>, maxsize: int, e: Entry): seq<string> {
    if e.key.None? then keys
    else if Emits(keys, e) then AfterAdd(keys, maxsize, e.key.value)
    else AfterContains(keys, e.key.value)
  }

  function UsedBy(keys: seq<string>, e: Entry): seq<string> {
    if e.key.Some? && (e.key.value in keys || e.hasLink) then [e.key.value] else []
  }

  function AfterEntries(keys: seq<string>, maxsize: int, es: seq<Entry>): seq<string> {
    if es == [] then keys else AfterEntry(AfterEntries(keys, maxsize, es[..|es| - 1]), maxsize, es[|es| - 1])
  }

  /** The keys used by a run of entries, in order. */
  function UsedByAll(maxsize: int, es: seq<Entry>): seq<string> {
    if es == [] then []
    else UsedByAll(maxsize, es[..|es| - 1]) + UsedBy(AfterEntries([], maxsize, es[..|es| - 1]), es[|es| - 1])
  }

  lemma {:induction false} EntriesAreLru(maxsize: int, es: seq<Entry>)
    ensures AfterEntries([], maxsize, es) == Newest(UsedByAll(maxsize, es), maxsize)
  {
    if es != [] {
      var n := |es| - 1;
      var keys, log := AfterEntries([], maxsize, es[..n]), UsedByAll(maxsize, es[..n]);
      EntriesAreLru(maxsize, es[..n]);
      var e := es[n];
      if UsedBy(keys, e) == [] {
        assert log + [] == log;
      } else if e.key.value in keys {
        LruStep(log, maxsize, Contains(e.key.value));
      } else {
        LruStep(log, maxsize, Add(e.key.value));
      }
    }
  }

  /** The part of a log after the last use of `k`. */
  function Since(log: seq<string>, k: string): seq<string>
    requires k in log
  {
    var n := |log| - 1;
    if log[n] == k then [] else
      assert k in log[..n] by { assert log == log[..n] + [log[n]]; }
      Since(log[..n], k) + [log[n]]
  }

  function Distinct(s: seq<string>): set<string> {
    set x | x in s
  }

  predicate StandsAt(log: seq<string>, k: string, i: nat)
    requires k in log
  {
    var s := ByLastUse(log);
    i < |s| && s[i] == k && Distinct(s[i + 1..]) == Distinct(Since(log, k))
  }

  /** Behind a key, in order of last use, stand exactly the distinct keys used since. */
  lemma {:induction false} BehindKey(log: seq<string>, k: string) returns (i: nat)
    requires k in log
    ensures StandsAt(log, k, i)
  {
    var n := |log| - 1;
    var s := ByLastUse(log);
    if log[n] == k {
      i := |s| - 1;
      assert s[i + 1..] == [];
    } else {
      assert log == log[..n] + [log[n]];
      var j := BehindKey(log[..n], k);
      i := StaysBehind(ByLastUse(log[..n]), j, log[n]);
      var b := ByLastUse(log[..n])[j + 1..];
      DistinctAppend(Since(log[..n], k), log[n]);
    }
  }

  /** Using another key leaves a key where it was, with that key now behind it. */
  lemma StaysBehind(s: seq<string>, j: nat, k: string) returns (i: nat)
    requires j < |s| && s[j] != k
    ensures i < |Touch(s, k)| && Touch(s, k)[i] == s[j]
    ensures Distinct(Touch(s, k)[i + 1..]) == Distinct(s[j + 1..]) + {k}
  {
    var a, b := s[..j + 1], s[j + 1..];
    assert s == a + b;
    WithoutConcat(a, b, k);
    KeyEndsPrefix(s, j, k);
    i := |Without(a, k)| - 1;
    var t := Touch(s, k);
    assert t == Without(a, k) + (Without(b, k) + [k]);
    assert t[i + 1..] == Without(b, k) + [k];
    WithoutKeeps(b, k);
  }

  lemma DistinctAppend(s: seq<string>, k: string)
    ensures Distinct(s + [k]) == Distinct(s) + {k}
  {
  }

  lemma KeyEndsPrefix(s: seq<string>, j: nat, k: string)
    requires j < |s| && s[j] != k
    ensures Without(s[..j + 1], k) != [] && Without(s[..j + 1], k)[|Without(s[..j + 1], k)| - 1] == s[j]
  {
    assert s[..j + 1] == s[..j] + [s[j]];
    WithoutConcat(s[..j], [s[j]], k);
    assert Without([s[j]], k) == [s[j]];
  }

  lemma {:induction false} DistinctSize(s: seq<string>)
    requires NoDuplicates(s)
    ensures |Distinct(s)| == |s|
  {
    if s == [] {
      assert Distinct(s) == {};
    } else {
      DistinctSize(s[1..]);
      assert Distinct(s) == {s[0]} + Distinct(s[1..]);
    }
  }

  /** The exact rule: an entry with a key and a link is emitted exactly when its key was never used, or
      at least `maxsize` distinct other keys were used since it last was. */
  lemma EmitsExactly(maxsize: int, es: seq<Entry>, e: Entry)
    requires e.key.Some? && e.hasLink
    ensures var log := UsedByAll(maxsize, es);
      Emits(AfterEntries([], maxsize, es), e)
      <==> e.key.value !in log || |Distinct(Since(log, e.key.value))| >= maxsize
  {
    var log, k := UsedByAll(maxsize, es), e.key.value;
    var s := ByLastUse(log);
    EntriesAreLru(maxsize, es);
    ByLastUseMembers(log);
    if k in log {
      var i := BehindKey(log, k);
      DistinctSize(s[i + 1..]);
      InLastN(s, maxsize, i);
    }
  }

  lemma InLastN(s: seq<string>, n: int, i: nat)
    requires NoDuplicates(s) && i < |s|
    ensures s[i] in LastN(s, n) <==> |s| - 1 - i < n
  {
    if 0 < n < |s| {
      var t := LastN(s, n);
      if |s| - 1 - i < n {
        assert t[i - (|s| - n)] == s[i];
      } else {
        forall j | 0 <= j < |t| ensures t[j] != s[i] { assert t[j] == s[|s| - n + j]; }
      }
    }
  }

  /** Two emissions of one key, by whatever interleaving of feed polls, have at least `maxsize`
      distinct other keys used between them. */
  lemma EmittedTwiceOnlyAfterEviction(maxsize: int, before: seq<Entry>, first: Entry, between: seq<Entry>, second: Entry)
    requires first.key.Some? && second.key == first.key
    requires Emits(AfterEntries([], maxsize, before), first)
    requires Emits(AfterEntries([], maxsize, before + [first] + between), second)
    ensures var log := UsedByAll(maxsize, before + [first] + between);
      |UsedByAll(maxsize, before + [first])| <= |log|
      && |Distinct(log[|UsedByAll(maxsize, before + [first])|..]) - {first.key.value}| >= maxsize
  {
    var k := first.key.value;
    var head := UsedByAll(maxsize, before + [first]);
    var log := UsedByAll(maxsize, before + [first] + between);
    assert (before + [first])[..|before|] == before;
    assert head[|head| - 1] == k;
    LogGrows(maxsize, before + [first], between);
    assert k in log by { assert log[|head| - 1] == k; }
    EmitsExactly(maxsize, before + [first] + between, second);
    SinceIsRecent(log, k, |head|);
    var recent := Distinct(log[|head|..]) - {k};
    assert Distinct(Since(log, k)) <= recent;
    SubsetSize(Distinct(Since(log, k)), recent);
  }

  lemma {:induction false} LogGrows(maxsize: int, es: seq<Entry>, more: seq<Entry>)
    ensures UsedByAll(maxsize, es) <= UsedByAll(maxsize, es + more)
  {
    if more == [] {
      assert es + more == es;
    } else {
      var n := |more| - 1;
      LogGrows(maxsize, es, more[..n]);
      assert (es + more)[..|es + more| - 1] == es + more[..n];
    }
  }

  /** What was used since the last use of `k` lies after any position that follows a use of `k`. */
  lemma {:induction false} SinceIsRecent(log: seq<string>, k: string, p: nat)
    requires 0 < p <= |log| && log[p - 1] == k
    ensures Distinct(Since(log, k)) <= Distinct(log[p..]) - {k}
  {
    var n := |log| - 1;
    if log[n] != k {
      assert log == log[..n] + [log[n]];
      SinceIsRecent(log[..n], k, p);
      assert log[p..] == log[..n][p..] + [log[n]];
      DistinctAppend(log[..n][p..], log[n]);
      DistinctAppend(Since(log[..n], k), log[n]);
    }
  }

  // ---- cache sizes -------------------------------------------------------------------------

  predicate Linked(es: seq<Entry>) {
    forall i :: 0 <= i < |es| ==> es[i].hasLink
  }

  lemma {:induction false} LinkedUsesEveryKey(maxsize: int, larger: int, es: seq<Entry>)
    requires Linked(es)
    ensures UsedByAll(maxsize, es) == UsedByAll(larger, es)
  {
    if es != [] { LinkedUsesEveryKey(maxsize, larger, es[..|es| - 1]); }
  }

  /** On entries with links a smaller cache always holds the newest part of a larger one. */
  lemma SmallerIsIncluded(maxsize: int, larger: int, es: seq<Entry>)
    requires maxsize <= larger && Linked(es)
    ensures AfterEntries([], maxsize, es) == LastN(AfterEntries([], larger, es), maxsize)
  {
    LinkedUsesEveryKey(maxsize, larger, es);
    EntriesAreLru(maxsize, es);
    EntriesAreLru(larger, es);
    LastOfLast(ByLastUse(UsedByAll(maxsize, es)), maxsize, larger);
  }

  lemma LastOfLast(s: seq<string>, n: int, m: int)
    requires n <= m
    ensures LastN(LastN(s, m), n) == LastN(s, n)
  {
  }
}

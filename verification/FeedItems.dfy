/** Which items a poll, or a whole cycle of polls, emits, repeats or loses. */
module FeedItems {
  import opened Options
  import opened Naturals
  import opened FeedTraces
  import S = SeenGuids
  import F = Feeds

  lemma {:induction false} AtMostOnePerEntry(keys: seq<string>, maxsize: int, trace: seq<Look>, id: string)
    ensures Emitted(keys, maxsize, trace, id) <= |Own(trace, id)|
  {
    if trace != [] { AtMostOnePerEntry(keys, maxsize, trace[..|trace| - 1], id); }
  }

  /** A poll never emits more than twenty items. */
  lemma AtMostTwentyItems(keys: seq<string>, maxsize: int, surroundings: string -> Surroundings, trace: seq<Look>, id: string)
    requires InOrder(keys, maxsize, surroundings, trace, id)
    ensures Emitted(keys, maxsize, trace, id) <= 20
  {
    AtMostOnePerEntry(keys, maxsize, trace, id);
  }

  // ---- counting looks ----------------------------------------------------------------------

  /** The looks of the other polls. */
  function Foreign(trace: seq<Look>, id: string): seq<Look> {
    if trace == [] then []
    else
      var n := |trace| - 1;
      Foreign(trace[..n], id) + if trace[n].id == id then [] else [trace[n]]
  }

  lemma {:induction false} OwnAndForeign(trace: seq<Look>, id: string)
    ensures |trace| == |Own(trace, id)| + |Foreign(trace, id)|
  {
    if trace != [] { OwnAndForeign(trace[..|trace| - 1], id); }
  }

  lemma {:induction false} OwnOfConcat(a: seq<Look>, b: seq<Look>, id: string)
    ensures Own(a + b, id) == Own(a, id) + Own(b, id)
  {
    if b == [] {
      assert a + b == a;
    } else {
      var n := |b| - 1;
      OwnOfConcat(a, b[..n], id);
      assert (a + b)[..|a + b| - 1] == a + b[..n] && (a + b)[|a + b| - 1] == b[n];
    }
  }

  lemma {:induction false} OwnOfForeign(trace: seq<Look>, id: string, other: string)
    requires id != other
    ensures Own(Foreign(trace, id), other) == Own(trace, other)
  {
    if trace != [] {
      var n := |trace| - 1;
      OwnOfForeign(trace[..n], id, other);
      var front := Foreign(trace[..n], id);
      if trace[n].id == id {
        assert Foreign(trace, id) == front && Own(trace, other) == Own(trace[..n], other);
      } else {
        OwnGrows(front, trace[n], other);
      }
    }
  }

  lemma {:induction false} ForeignIsForeign(trace: seq<Look>, id: string)
    ensures forall l :: l in Foreign(trace, id) ==> l.id != id && l in trace
  {
    if trace != [] {
      var n := |trace| - 1;
      ForeignIsForeign(trace[..n], id);
      assert trace == trace[..n] + [trace[n]];
    }
  }

  /** With at most twenty looks for each feed, a trace is at most twenty times as long as its feeds. */
  lemma {:induction false} LooksAddUp(trace: seq<Look>, ids: set<string>)
    requires TwentyEach(trace, ids)
    ensures |trace| <= MAX_ITEMS * |ids|
    decreases |ids|
  {
    if ids != {} {
      var id :| id in ids;
      var rest := Foreign(trace, id);
      OwnAndForeign(trace, id);
      forall other | other in ids - {id} ensures |Own(rest, other)| <= MAX_ITEMS {
        OwnOfForeign(trace, id, other);
      }
      ForeignIsForeign(trace, id);
      forall i | 0 <= i < |rest| ensures rest[i].id in ids - {id} {
        assert rest[i] in rest;
      }
      LooksAddUp(rest, ids - {id});
      assert |ids| == |ids - {id}| + 1;
    }
  }

  // ---- repeating and losing items ----------------------------------------------------------

  /** Two looks at one key, with fewer looks in between than the cache holds keys: at most one emits. */
  lemma OneOfTwoLooks(maxsize: int, history: seq<S.Entry>, trace: seq<Look>, i: nat, j: nat)
    requires i < j < |trace| && trace[i].entry.key.Some? && trace[j].entry.key == trace[i].entry.key
    requires j - i - 1 < maxsize
    requires S.Emits(S.AfterEntries([], maxsize, history + Plain(trace[..i])), trace[i].entry)
    ensures !S.Emits(S.AfterEntries([], maxsize, history + Plain(trace[..j])), trace[j].entry)
  {
    var before, between := history + Plain(trace[..i]), Plain(trace[i + 1..j]);
    assert before + [trace[i].entry] + between == history + Plain(trace[..j]);
    if S.Emits(S.AfterEntries([], maxsize, history + Plain(trace[..j])), trace[j].entry) {
      TooFewBetween(maxsize, before, trace[i].entry, between, trace[j].entry);
      assert false;
    }
  }

  /** One document emits no key twice, as long as other polls look at no more than k entries in between
      and the cache holds at least 20 + k keys. */
  lemma NoKeyTwiceInOnePoll(maxsize: int, history: seq<S.Entry>, trace: seq<Look>, i: nat, j: nat, k: nat)
    requires i < j < |trace| && trace[j].id == trace[i].id && |Own(trace, trace[i].id)| <= MAX_ITEMS
    requires |Foreign(trace[i + 1..j], trace[i].id)| <= k && maxsize >= 20 + k
    requires trace[i].entry.key.Some? && trace[j].entry.key == trace[i].entry.key
    requires S.Emits(S.AfterEntries([], maxsize, history + Plain(trace[..i])), trace[i].entry)
    ensures !S.Emits(S.AfterEntries([], maxsize, history + Plain(trace[..j])), trace[j].entry)
  {
    var id, mid := trace[i].id, trace[i + 1..j];
    OwnAndForeign(mid, id);
    assert trace == trace[..i + 1] + mid + trace[j..];
    OwnOfConcat(trace[..i + 1] + mid, trace[j..], id);
    OwnOfConcat(trace[..i + 1], mid, id);
    OneOfTwoLooks(maxsize, history, trace, i, j);
  }

  /** At most twenty looks at the entries of each of some feeds, and none at others. */
  predicate TwentyEach(trace: seq<Look>, ids: set<string>) {
    (forall i :: 0 <= i < |trace| ==> trace[i].id in ids) && forall id <- ids :: |Own(trace, id)| <= MAX_ITEMS
  }

  /** In such a trace no key is emitted twice, for at most fifty feeds and any cache of at least a
      thousand keys. */
  lemma NoKeyTwiceInTwentyEach(maxsize: int, history: seq<S.Entry>, trace: seq<Look>, ids: set<string>, i: nat, j: nat)
    requires maxsize >= 1000 && |ids| <= 50 && TwentyEach(trace, ids)
    requires i < j < |trace| && trace[i].entry.key.Some? && trace[j].entry.key == trace[i].entry.key
    requires EmitsAt(S.AfterEntries([], maxsize, history), maxsize, trace, i)
    ensures !EmitsAt(S.AfterEntries([], maxsize, history), maxsize, trace, j)
  {
    LooksAddUp(trace, ids);
    EntriesConcat([], maxsize, history, Plain(trace[..i]));
    EntriesConcat([], maxsize, history, Plain(trace[..j]));
    OneOfTwoLooks(maxsize, history, trace, i, j);
  }

  /** Every cycle is such a trace, in whatever order its polls take turns. */
  lemma NoKeyTwiceInOneCycle(maxsize: int, history: seq<S.Entry>, surroundings: string -> Surroundings, trace: seq<Look>,
                             ids: set<string>, polls: map<string, F.Poll>, i: nat, j: nat)
    requires maxsize >= 1000 && |ids| <= 50
    requires i < j < |trace| && trace[i].entry.key.Some? && trace[j].entry.key == trace[i].entry.key
    ensures var keys := S.AfterEntries([], maxsize, history);
      RanAll(keys, maxsize, surroundings, trace, ids, polls) && EmitsAt(keys, maxsize, trace, i) ==>
      !EmitsAt(keys, maxsize, trace, j)
  {
    var keys := S.AfterEntries([], maxsize, history);
    if RanAll(keys, maxsize, surroundings, trace, ids, polls) && EmitsAt(keys, maxsize, trace, i) {
      NoKeyTwiceInTwentyEach(maxsize, history, trace, ids, i, j);
    }
  }

  lemma {:induction false} EntriesConcat(keys: seq<string>, maxsize: int, a: seq<S.Entry>, b: seq<S.Entry>)
    ensures S.AfterEntries(S.AfterEntries(keys, maxsize, a), maxsize, b) == S.AfterEntries(keys, maxsize, a + b)
  {
    if b == [] {
      assert a + b == a;
    } else {
      var n := |b| - 1;
      EntriesConcat(keys, maxsize, a, b[..n]);
      assert (a + b)[..|a + b| - 1] == a + b[..n];
    }
  }

  // ---- a publish that fails ----------------------------------------------------------------

  predicate PublishFailsAt(keys: seq<string>, maxsize: int, surroundings: string -> Surroundings, trace: seq<Look>, n: nat)
    requires n < |trace|
  {
    Emitted(keys, maxsize, trace[..n], trace[n].id) in surroundings(trace[n].id).publishFails
  }

  /** Look `n` hands the key over to the event bus. */
  predicate HandsOverAt(keys: seq<string>, maxsize: int, surroundings: string -> Surroundings, trace: seq<Look>, n: nat, key: string) {
    && n < |trace| && trace[n].entry.key == Some(key)
    && EmitsAt(keys, maxsize, trace, n) && !PublishFailsAt(keys, maxsize, surroundings, trace, n)
  }

  lemma {:induction false} HandedExactly(keys: seq<string>, maxsize: int, surroundings: string -> Surroundings, trace: seq<Look>, key: string)
    ensures key in Handed(keys, maxsize, surroundings, trace)
       <==> exists n: nat :: HandsOverAt(keys, maxsize, surroundings, trace, n, key)
  {
    if trace != [] {
      var last := |trace| - 1;
      var front := trace[..last];
      HandedExactly(keys, maxsize, surroundings, front, key);
      forall n: nat | n < last
        ensures HandsOverAt(keys, maxsize, surroundings, trace, n, key) <==> HandsOverAt(keys, maxsize, surroundings, front, n, key)
      {
        assert front[..n] == trace[..n];
      }
      LastHanded(keys, maxsize, surroundings, trace, key);
      if key in Handed(keys, maxsize, surroundings, front) {
        var n: nat :| HandsOverAt(keys, maxsize, surroundings, front, n, key);
        assert HandsOverAt(keys, maxsize, surroundings, trace, n, key);
      }
    }
  }

  lemma LastHanded(keys: seq<string>, maxsize: int, surroundings: string -> Surroundings, trace: seq<Look>, key: string)
    requires trace != []
    ensures key in Handed(keys, maxsize, surroundings, trace)
       <==> || key in Handed(keys, maxsize, surroundings, trace[..|trace| - 1])
            || HandsOverAt(keys, maxsize, surroundings, trace, |trace| - 1, key)
  {
  }

  /** At look `i` the publish of an item that was never handed over fails. The item is marked as seen. */
  predicate FailsFirst(keys: seq<string>, maxsize: int, surroundings: string -> Surroundings, trace: seq<Look>, i: nat) {
    && i < |trace| && EmitsAt(keys, maxsize, trace, i) && PublishFailsAt(keys, maxsize, surroundings, trace, i)
    && trace[i].entry.key.value !in Handed(keys, maxsize, surroundings, trace[..i])
  }

  lemma NothingUpTo(keys: seq<string>, maxsize: int, surroundings: string -> Surroundings, trace: seq<Look>, i: nat, n: nat)
    requires FailsFirst(keys, maxsize, surroundings, trace, i) && n <= i
    ensures !HandsOverAt(keys, maxsize, surroundings, trace, n, trace[i].entry.key.value)
  {
    var key := trace[i].entry.key.value;
    HandedExactly(keys, maxsize, surroundings, trace[..i], key);
    if n < i {
      assert trace[..i][..n] == trace[..n];
      assert !HandsOverAt(keys, maxsize, surroundings, trace[..i], n, key);
    }
  }

  /** A failed publish loses its item: it is not handed over, by this poll or any later one, before the
      polls have looked at as many further entries as the cache holds keys. */
  lemma FailedPublishLosesItem(maxsize: int, history: seq<S.Entry>, surroundings: string -> Surroundings, trace: seq<Look>, i: nat)
    requires FailsFirst(S.AfterEntries([], maxsize, history), maxsize, surroundings, trace, i)
    requires |trace| - i - 1 <= maxsize
    ensures trace[i].entry.key.value !in Handed(S.AfterEntries([], maxsize, history), maxsize, surroundings, trace)
  {
    var keys, key := S.AfterEntries([], maxsize, history), trace[i].entry.key.value;
    HandedExactly(keys, maxsize, surroundings, trace, key);
    forall n: nat ensures !HandsOverAt(keys, maxsize, surroundings, trace, n, key) {
      if n <= i {
        NothingUpTo(keys, maxsize, surroundings, trace, i, n);
      } else if n < |trace| && trace[n].entry.key == Some(key) {
        EntriesConcat([], maxsize, history, Plain(trace[..i]));
        EntriesConcat([], maxsize, history, Plain(trace[..n]));
        OneOfTwoLooks(maxsize, history, trace, i, n);
      }
    }
  }

  /** The keys used before look `n`. */
  function LogAt(maxsize: int, history: seq<S.Entry>, trace: seq<Look>, n: nat): seq<string>
    requires n <= |trace|
  {
    S.UsedByAll(maxsize, history + Plain(trace[..n]))
  }

  /** At look `n` at the key, `maxsize` distinct other keys have been used since its last use. */
  predicate PushedOutAt(maxsize: int, history: seq<S.Entry>, trace: seq<Look>, n: nat, key: string) {
    && n < |trace| && key in LogAt(maxsize, history, trace, n)
    && |S.Distinct(S.Since(LogAt(maxsize, history, trace, n), key))| >= maxsize
  }

  lemma EmittedIsUsed(maxsize: int, history: seq<S.Entry>, trace: seq<Look>, i: nat, n: nat)
    requires i < n <= |trace| && EmitsAt(S.AfterEntries([], maxsize, history), maxsize, trace, i)
    ensures trace[i].entry.key.value in LogAt(maxsize, history, trace, n)
  {
    var es, e, more := history + Plain(trace[..i]), trace[i].entry, Plain(trace[i + 1..n]);
    assert S.Emits(S.AfterEntries([], maxsize, es), e) by { EntriesConcat([], maxsize, history, Plain(trace[..i])); }
    assert e.key.value in S.UsedByAll(maxsize, es + [e] + more) by { UsedFromThenOn(maxsize, es, e, more); }
    PlainParts(trace, i, n);
    assert es + [e] + more == history + Plain(trace[..n]);
  }

  lemma PlainParts(trace: seq<Look>, i: nat, n: nat)
    requires i < n <= |trace|
    ensures Plain(trace[..n]) == Plain(trace[..i]) + [trace[i].entry] + Plain(trace[i + 1..n])
  {
  }

  lemma UsedFromThenOn(maxsize: int, es: seq<S.Entry>, e: S.Entry, more: seq<S.Entry>)
    requires S.Emits(S.AfterEntries([], maxsize, es), e)
    ensures e.key.value in S.UsedByAll(maxsize, es + [e] + more)
  {
    var used := S.UsedByAll(maxsize, es + [e]);
    assert used[|used| - 1] == e.key.value by { assert (es + [e])[..|es|] == es; }
    S.LogGrows(maxsize, es + [e], more);
    assert S.UsedByAll(maxsize, es + [e] + more)[|used| - 1] == e.key.value;
  }

  /** Exactly when a lost item comes back: some later look finds it with a link, after `maxsize` distinct
      other keys were used since its own last use, and is not met by a failing publish again. */
  lemma LostItemReturnsExactly(maxsize: int, history: seq<S.Entry>, surroundings: string -> Surroundings, trace: seq<Look>, i: nat)
    requires FailsFirst(S.AfterEntries([], maxsize, history), maxsize, surroundings, trace, i)
    ensures var keys, key := S.AfterEntries([], maxsize, history), trace[i].entry.key.value;
      key in Handed(keys, maxsize, surroundings, trace) <==> exists n: nat ::
        && i < n < |trace| && trace[n].entry == S.Entry(Some(key), true)
        && PushedOutAt(maxsize, history, trace, n, key) && !PublishFailsAt(keys, maxsize, surroundings, trace, n)
  {
    var keys, key := S.AfterEntries([], maxsize, history), trace[i].entry.key.value;
    HandedExactly(keys, maxsize, surroundings, trace, key);
    forall n: nat ensures HandsOverAt(keys, maxsize, surroundings, trace, n, key) <==> (
        && i < n < |trace| && trace[n].entry == S.Entry(Some(key), true)
        && PushedOutAt(maxsize, history, trace, n, key) && !PublishFailsAt(keys, maxsize, surroundings, trace, n))
    {
      if n <= i {
        NothingUpTo(keys, maxsize, surroundings, trace, i, n);
      } else if n < |trace| && trace[n].entry == S.Entry(Some(key), true) {
        EmittedIsUsed(maxsize, history, trace, i, n);
        EntriesConcat([], maxsize, history, Plain(trace[..n]));
        S.EmitsExactly(maxsize, history + Plain(trace[..n]), trace[n].entry);
      }
    }
  }

  /** Fewer entries than the cache holds keys cannot push a key out. */
  lemma TooFewBetween(maxsize: int, before: seq<S.Entry>, first: S.Entry, between: seq<S.Entry>, second: S.Entry)
    requires first.key.Some? && second.key == first.key
    requires S.Emits(S.AfterEntries([], maxsize, before), first)
    requires S.Emits(S.AfterEntries([], maxsize, before + [first] + between), second)
    ensures |between| >= maxsize
  {
    S.EmittedTwiceOnlyAfterEviction(maxsize, before, first, between, second);
    var head, log := S.UsedByAll(maxsize, before + [first]), S.UsedByAll(maxsize, before + [first] + between);
    UsesAtMostOneEach(maxsize, before + [first], between);
    DistinctAtMost(log[|head|..]);
    var k := first.key.value;
    SubsetSize(S.Distinct(log[|head|..]) - {k}, S.Distinct(log[|head|..]));
  }

  lemma {:induction false} UsesAtMostOneEach(maxsize: int, es: seq<S.Entry>, more: seq<S.Entry>)
    ensures |S.UsedByAll(maxsize, es + more)| <= |S.UsedByAll(maxsize, es)| + |more|
  {
    if more == [] {
      assert es + more == es;
    } else {
      var n := |more| - 1;
      UsesAtMostOneEach(maxsize, es, more[..n]);
      assert (es + more)[..|es + more| - 1] == es + more[..n];
    }
  }

  lemma {:induction false} DistinctAtMost(s: seq<string>)
    ensures |S.Distinct(s)| <= |s|
  {
    if s == [] {
      assert S.Distinct(s) == {};
    } else {
      DistinctAtMost(s[1..]);
      assert S.Distinct(s) == {s[0]} + S.Distinct(s[1..]);
    }
  }
}

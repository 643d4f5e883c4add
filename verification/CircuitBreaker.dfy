/** The circuit breaker around Redis, for callers that may overlap: each call is a check, then the
    Redis operation, then an update, and other calls may come in between. */
module CircuitBreaker {
  import opened Naturals

  /** How the guarded operation ends: it returns, raises a Redis error, or raises anything else. */
  datatype Outcome = Works | RedisFails | OtherError

  datatype Breaker = Breaker(failures: nat, lastFailure: real)

  const INITIAL := Breaker(0, 0.0)

  predicate Refuses(b: Breaker, maxFailures: int, backoff: real, now: real) {
    b.failures >= maxFailures && now - b.lastFailure < backoff
  }

  function AfterCall(b: Breaker, now: real, outcome: Outcome): Breaker {
    match outcome
    case Works => b.(failures := 0)
    case RedisFails => Breaker(b.failures + 1, now)
    case OtherError => b
  }

  class RedisCircuitBreaker {
    var failures: nat
    var lastFailureTime: real
    const maxFailures: int
    const backoff: real

    ghost function State(): Breaker
      reads this
    {
      Breaker(failures, lastFailureTime)
    }

    constructor (maxFailures: int, backoff: real)
      ensures State() == INITIAL && this.maxFailures == maxFailures && this.backoff == backoff
    {
      failures, lastFailureTime := 0, 0.0;
      this.maxFailures := maxFailures;
      this.backoff := backoff;
    }

    /** The part of a call before the operation. */
    method Enter(now: real) returns (admitted: bool)
      ensures admitted == !Refuses(State(), maxFailures, backoff, now)
    {
      admitted := true;
      if failures >= maxFailures {
        if now - lastFailureTime < backoff { admitted := false; }
      }
    }

    /** The part after it. */
    method Leave(now: real, outcome: Outcome)
      modifies this
      ensures State() == AfterCall(old(State()), now, outcome)
    {
      match outcome
      case Works => if failures > 0 { failures := 0; }
      case RedisFails => failures := failures + 1; lastFailureTime := now;
      case OtherError =>
    }
  }

  // ---- when it refuses ---------------------------------------------------------------------

  datatype Ending = Ending(at: real, outcome: Outcome)

  function AfterAll(endings: seq<Ending>): Breaker {
    if endings == [] then INITIAL
    else
      var e := endings[|endings| - 1];
      AfterCall(AfterAll(endings[..|endings| - 1]), e.at, e.outcome)
  }

  function RedisFailures(endings: seq<Ending>): seq<real> {
    if endings == [] then []
    else
      var e := endings[|endings| - 1];
      RedisFailures(endings[..|endings| - 1]) + (if e.outcome.RedisFails? then [e.at] else [])
  }

  /** The endings after the last success. */
  function SinceSuccess(endings: seq<Ending>): seq<Ending> {
    if endings == [] || endings[|endings| - 1].outcome.Works? then []
    else SinceSuccess(endings[..|endings| - 1]) + [endings[|endings| - 1]]
  }

  lemma {:induction false} CountsSinceSuccess(endings: seq<Ending>)
    ensures var fs := RedisFailures(SinceSuccess(endings));
      AfterAll(endings).failures == |fs| && (fs != [] ==> AfterAll(endings).lastFailure == fs[|fs| - 1])
  {
    if endings != [] {
      var n := |endings| - 1;
      CountsSinceSuccess(endings[..n]);
      if !endings[n].outcome.Works? {
        var s := SinceSuccess(endings);
        assert s[..|s| - 1] == SinceSuccess(endings[..n]);
      }
    }
  }

  /** A call is refused exactly when at least `maxFailures` Redis errors, and at least one, have come
      since the last success, the newest of them less than `backoff` ago. Other exceptions count
      neither as failures nor as successes. */
  lemma RefusesExactly(endings: seq<Ending>, maxFailures: int, backoff: real, now: real)
    requires maxFailures >= 1
    ensures var fs := RedisFailures(SinceSuccess(endings));
      Refuses(AfterAll(endings), maxFailures, backoff, now)
      <==> |fs| >= maxFailures && now - fs[|fs| - 1] < backoff
  {
    CountsSinceSuccess(endings);
  }

  // ---- how often a failing Redis is reached -------------------------------------------------

  /** A call begins, or one of the calls in progress ends with a Redis error. */
  datatype Event = Begin(at: real) | Fail(at: real)

  /** The breaker with its callers. `reached` counts the calls let through; once tripped, `sinceEnd`
      counts those let through since a call last ended, and `rounds` the times that count left 0. */
  datatype Load = Load(breaker: Breaker, inFlight: nat, reached: nat, sinceEnd: nat, rounds: nat, now: real)

  function Limit(maxFailures: int): nat {
    if maxFailures >= 1 then maxFailures else 1
  }

  function Step(s: Load, maxFailures: int, backoff: real, e: Event): Load {
    match e
    case Begin(at) =>
      if Refuses(s.breaker, maxFailures, backoff, at) then s.(now := at)
      else if s.breaker.failures < Limit(maxFailures) then
        s.(inFlight := s.inFlight + 1, reached := s.reached + 1, now := at)
      else
        s.(inFlight := s.inFlight + 1, reached := s.reached + 1, now := at,
           sinceEnd := s.sinceEnd + 1, rounds := if s.sinceEnd == 0 then s.rounds + 1 else s.rounds)
    case Fail(at) =>
      if s.inFlight == 0 then s.(now := at)
      else s.(breaker := AfterCall(s.breaker, at, RedisFails), inFlight := s.inFlight - 1, sinceEnd := 0, now := at)
  }

  function RunLoad(start: real, maxFailures: int, backoff: real, es: seq<Event>): Load {
    if es == [] then Load(INITIAL, 0, 0, 0, 0, start)
    else Step(RunLoad(start, maxFailures, backoff, es[..|es| - 1]), maxFailures, backoff, es[|es| - 1])
  }

  /** Time does not go back, and at most `callers` calls are in progress at once. */
  predicate FailingRun(start: real, maxFailures: int, backoff: real, callers: nat, es: seq<Event>) {
    es == [] ||
    (var n := |es| - 1;
     && FailingRun(start, maxFailures, backoff, callers, es[..n])
     && RunLoad(start, maxFailures, backoff, es[..n]).now <= es[n].at
     && (es[n].Fail? ==> RunLoad(start, maxFailures, backoff, es[..n]).inFlight > 0)
     && RunLoad(start, maxFailures, backoff, es).inFlight <= callers)
  }

  /** `slots` stands for callers * (rounds that have ended), `elapsed` for rounds * backoff. */
  predicate Bounded(s: Load, start: real, limit: nat, callers: nat, slots: nat, elapsed: real) {
    && s.reached == s.breaker.failures + s.inFlight
    && s.inFlight <= callers
    && (s.breaker.failures < limit ==> s.rounds == 0 && s.sinceEnd == 0)
    && (s.breaker.failures >= limit ==> s.breaker.lastFailure <= s.now)
    && (s.sinceEnd > 0 ==> s.rounds > 0)
    && s.sinceEnd <= s.inFlight
    && s.reached - s.sinceEnd <= limit - 1 + callers + slots
    && start + elapsed <= (if s.sinceEnd == 0 && s.breaker.failures >= limit then s.breaker.lastFailure else s.now)
  }

  function Ended(s: Load): nat {
    if s.sinceEnd > 0 && s.rounds > 0 then s.rounds - 1 else s.rounds
  }

  predicate Kept(s: Load, start: real, maxFailures: int, backoff: real, callers: nat) {
    Bounded(s, start, Limit(maxFailures), callers, callers * Ended(s), s.rounds as real * backoff)
  }

  lemma {:induction false} LoadIsBounded(start: real, maxFailures: int, backoff: real, callers: nat, es: seq<Event>)
    requires backoff >= 0.0 && FailingRun(start, maxFailures, backoff, callers, es)
    ensures Kept(RunLoad(start, maxFailures, backoff, es), start, maxFailures, backoff, callers)
  {
    if es != [] {
      var n := |es| - 1;
      var s, e := RunLoad(start, maxFailures, backoff, es[..n]), es[n];
      assert RunLoad(start, maxFailures, backoff, es) == Step(s, maxFailures, backoff, e);
      assert Kept(s, start, maxFailures, backoff, callers) by {
        LoadIsBounded(start, maxFailures, backoff, callers, es[..n]);
      }
      BoundKept(s, start, maxFailures, backoff, callers, e);
    }
  }

  lemma BoundKept(s: Load, start: real, maxFailures: int, backoff: real, callers: nat, e: Event)
    requires backoff >= 0.0 && s.now <= e.at
    requires Kept(s, start, maxFailures, backoff, callers)
    requires Step(s, maxFailures, backoff, e).inFlight <= callers && (e.Fail? ==> s.inFlight > 0)
    ensures Kept(Step(s, maxFailures, backoff, e), start, maxFailures, backoff, callers)
  {
    var t := Step(s, maxFailures, backoff, e);
    assert (s.rounds + 1) as real * backoff == s.rounds as real * backoff + backoff;
    if e.Fail? && s.sinceEnd > 0 {
      assert callers * Ended(t) == callers * Ended(s) + callers;
    }
  }

  /** With at most `callers` overlapping calls, a Redis that keeps failing for a time T is reached at
      most maxFailures - 1 + callers + callers * floor(T / backoff) times. For callers in sequence
      that is maxFailures + floor(T / backoff). */
  lemma FailingRedisIsReachedRarely(start: real, maxFailures: int, backoff: real, callers: nat, es: seq<Event>)
    requires backoff > 0.0 && FailingRun(start, maxFailures, backoff, callers, es)
    ensures var s := RunLoad(start, maxFailures, backoff, es);
      s.reached <= Limit(maxFailures) - 1 + callers + callers * ((s.now - start) / backoff).Floor
  {
    var s := RunLoad(start, maxFailures, backoff, es);
    LoadIsBounded(start, maxFailures, backoff, callers, es);
    KeptIsRare(s, start, maxFailures, backoff, callers);
  }

  lemma KeptIsRare(s: Load, start: real, maxFailures: int, backoff: real, callers: nat)
    requires backoff > 0.0 && Kept(s, start, maxFailures, backoff, callers)
    ensures s.reached <= Limit(maxFailures) - 1 + callers + callers * ((s.now - start) / backoff).Floor
  {
    var windows := ((s.now - start) / backoff).Floor;
    FloorBounds(s.rounds, s.now - start, backoff);
    MulMono(s.rounds, windows, callers);
    if s.sinceEnd > 0 { assert callers * s.rounds == callers * Ended(s) + callers; }
  }

  lemma FloorBounds(k: nat, t: real, d: real)
    requires d > 0.0 && k as real * d <= t
    ensures k <= (t / d).Floor
  {
    var q := t / d;
    assert q * d == t;
    assert q < k as real ==> (k as real - q) * d > 0.0;
  }

  function Burst(n: nat, at: real): seq<Event> {
    if n == 0 then [] else Burst(n - 1, at) + [Begin(at)]
  }

  /** Once the backoff has passed, every call that begins before one of them ends is let through: the
      half-open state does not hold callers back to a single trial. */
  lemma {:induction false} HalfOpenLetsAllThrough(start: real, maxFailures: int, backoff: real, es: seq<Event>, n: nat, at: real)
    requires var s := RunLoad(start, maxFailures, backoff, es); !Refuses(s.breaker, maxFailures, backoff, at)
    ensures var s, t := RunLoad(start, maxFailures, backoff, es), RunLoad(start, maxFailures, backoff, es + Burst(n, at));
      t.reached == s.reached + n && t.breaker == s.breaker
  {
    if n == 0 {
      assert es + Burst(n, at) == es;
    } else {
      HalfOpenLetsAllThrough(start, maxFailures, backoff, es, n - 1, at);
      var all := es + Burst(n, at);
      assert all[..|all| - 1] == es + Burst(n - 1, at);
      LetThrough(RunLoad(start, maxFailures, backoff, es + Burst(n - 1, at)), maxFailures, backoff, at);
    }
  }

  lemma LetThrough(s: Load, maxFailures: int, backoff: real, at: real)
    requires !Refuses(s.breaker, maxFailures, backoff, at)
    ensures var t := Step(s, maxFailures, backoff, Begin(at)); t.reached == s.reached + 1 && t.breaker == s.breaker
  {
  }

  /** Calls in sequence: one call after another, each with its begin, its end and what Redis would do. */
  datatype Call = Call(begin: real, end: real, outcome: Outcome)

  function AfterCalls(b: Breaker, maxFailures: int, backoff: real, calls: seq<Call>): Breaker {
    if calls == [] then b
    else
      var n := |calls| - 1;
      var before := AfterCalls(b, maxFailures, backoff, calls[..n]);
      if Refuses(before, maxFailures, backoff, calls[n].begin) then before
      else AfterCall(before, calls[n].end, calls[n].outcome)
  }

  predicate InSequence(calls: seq<Call>) {
    && (forall i :: 0 <= i < |calls| ==> calls[i].begin <= calls[i].end)
    && (forall i, j :: 0 <= i < j < |calls| ==> calls[i].end <= calls[j].begin)
  }

  predicate Reached(b: Breaker, maxFailures: int, backoff: real, calls: seq<Call>, i: nat)
    requires i < |calls|
  {
    !Refuses(AfterCalls(b, maxFailures, backoff, calls[..i]), maxFailures, backoff, calls[i].begin)
  }

  lemma {:induction false} StaysTripped(b: Breaker, maxFailures: int, backoff: real, calls: seq<Call>, i: nat, j: nat)
    requires b.failures >= maxFailures && InSequence(calls) && i < j <= |calls|
    requires forall k :: 0 <= k < j ==> !calls[k].outcome.Works?
    requires Reached(b, maxFailures, backoff, calls, i) && calls[i].outcome.RedisFails?
    ensures var now := AfterCalls(b, maxFailures, backoff, calls[..j]);
      now.failures >= maxFailures && now.lastFailure >= calls[i].end
  {
    assert calls[..j][..j - 1] == calls[..j - 1];
    if j == i + 1 {
      Tripped(b, maxFailures, backoff, calls[..i]);
    } else {
      StaysTripped(b, maxFailures, backoff, calls, i, j - 1);
    }
  }

  lemma {:induction false} Tripped(b: Breaker, maxFailures: int, backoff: real, calls: seq<Call>)
    requires b.failures >= maxFailures && forall k :: 0 <= k < |calls| ==> !calls[k].outcome.Works?
    ensures AfterCalls(b, maxFailures, backoff, calls).failures >= maxFailures
  {
    if calls != [] { Tripped(b, maxFailures, backoff, calls[..|calls| - 1]); }
  }

  /** Once tripped, and with no success, a call is reached only `backoff` after a reached call that
      ended in a Redis error. */
  lemma TrippedCallsAreSpaced(b: Breaker, maxFailures: int, backoff: real, calls: seq<Call>, i: nat, j: nat)
    requires b.failures >= maxFailures && InSequence(calls) && i < j < |calls|
    requires forall k :: 0 <= k < j ==> !calls[k].outcome.Works?
    requires Reached(b, maxFailures, backoff, calls, i) && calls[i].outcome.RedisFails?
    requires Reached(b, maxFailures, backoff, calls, j)
    ensures calls[j].begin - calls[i].end >= backoff
  {
    StaysTripped(b, maxFailures, backoff, calls, i, j);
  }
}

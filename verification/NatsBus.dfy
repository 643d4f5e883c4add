/** What the message handler signals to JetStream, and how often a message is then handled. */
module NatsBus {
  import opened Options

  datatype Raise = Retryable | Permanent | Unexpected

  datatype Signal = Ack | Nak | Term

  /** One delivery: whether the payload decodes, what the handler raises, and what the first and the
      second signal sent to the server raise. */
  datatype Attempt = Attempt(decodes: bool, handler: Option<Raise>, first: Option<Raise>, second: Option<Raise>)

  function SignalFor(r: Raise): Signal {
    match r
    case Retryable => Nak
    case Permanent => Term
    case Unexpected => Nak
  }

  predicate Succeeds(a: Attempt) {
    a.decodes && a.handler.None?
  }

  class Msg {
    var sent: seq<Signal>

    constructor ()
      ensures sent == []
    {
      sent := [];
    }

    /** A signal that raises does not arrive. */
    method Send(signal: Signal, raises: Option<Raise>) returns (raised: Option<Raise>)
      modifies this
      ensures raised == raises
      ensures sent == if raises.None? then old(sent) + [signal] else old(sent)
    {
      if raises.None? { sent := sent + [signal]; }
      raised := raises;
    }
  }

  /** The signal that arrives, if any. A failed ack, and a failed term of a corrupt payload, still
      fall under the outer handlers; a failed nak or term of those handlers does not. */
  function Arrives(a: Attempt): Option<Signal> {
    var first := if !a.decodes then Term else if a.handler.None? then Ack else SignalFor(a.handler.value);
    if a.first.None? then Some(first)
    else if a.decodes && a.handler.Some? then None
    else if a.second.None? then Some(SignalFor(a.first.value))
    else None
  }

  /** One signal goes out for each way in which the handler can end; an exception of the first signal is
      answered by a second one, unless it came out of the answer to the handler's own exception. */
  method MessageHandler(msg: Msg, a: Attempt) returns (raised: Option<Raise>)
    modifies msg
    ensures msg.sent == old(msg.sent) + (if Arrives(a).Some? then [Arrives(a).value] else [])
    ensures raised.Some? <==> Arrives(a).None?
    ensures !a.decodes && a.first.None? ==> msg.sent == old(msg.sent) + [Term]
    ensures a.decodes && a.handler == None && a.first.None? ==> msg.sent == old(msg.sent) + [Ack]
    ensures a.decodes && a.handler == Some(Retryable) && a.first.None? ==> msg.sent == old(msg.sent) + [Nak]
    ensures a.decodes && a.handler == Some(Permanent) && a.first.None? ==> msg.sent == old(msg.sent) + [Term]
    ensures a.decodes && a.handler == Some(Unexpected) && a.first.None? ==> msg.sent == old(msg.sent) + [Nak]
    ensures a.decodes && a.handler.Some? && a.first.Some? ==> msg.sent == old(msg.sent) && raised == a.first
    ensures !(a.decodes && a.handler.Some?) && a.first.Some? && a.second.Some? ==>
      msg.sent == old(msg.sent) && raised == a.second
    ensures !(a.decodes && a.handler.Some?) && a.first == Some(Permanent) && a.second.None? ==>
      msg.sent == old(msg.sent) + [Term]
    ensures !(a.decodes && a.handler.Some?) && (a.first == Some(Retryable) || a.first == Some(Unexpected)) && a.second.None? ==>
      msg.sent == old(msg.sent) + [Nak]
  {
    var caught: Option<Raise>;
    if !a.decodes {
      caught := msg.Send(Term, a.first);
      if caught.None? { return None; }
      raised := msg.Send(SignalFor(caught.value), a.second);
    } else if a.handler.None? {
      caught := msg.Send(Ack, a.first);
      if caught.None? { return None; }
      raised := msg.Send(SignalFor(caught.value), a.second);
    } else {
      raised := msg.Send(SignalFor(a.handler.value), a.first);
    }
  }

  // ---- redelivery --------------------------------------------------------------------------

  const MAX_DELIVER: nat := 5

  /** No further delivery; a released or unanswered message comes again. */
  predicate Settles(a: Attempt) {
    Arrives(a) == Some(Ack) || Arrives(a) == Some(Term)
  }

  /** What happens to one message: it is sent out, or the handler of its n-th delivery ends, or that
      handler dies without a signal. */
  datatype Event = Begin | End(nth: nat, attempt: Attempt) | Die(nth: nat)

  datatype Bus = Bus(begun: nat, open: set<nat>, settled: bool, ended: seq<Attempt>)

  const FRESH := Bus(0, {}, false, [])

  /** A message that is not answered within `ack_wait` is sent out again, whether or not the handlers
      of its earlier deliveries are still at work. */
  predicate Possible(s: Bus, ev: Event) {
    match ev
    case Begin => !s.settled && s.begun < MAX_DELIVER
    case End(n, _) => n in s.open
    case Die(n) => n in s.open
  }

  function After(s: Bus, ev: Event): Bus {
    match ev
    case Begin => s.(begun := s.begun + 1, open := s.open + {s.begun + 1})
    case End(n, a) => s.(open := s.open - {n}, settled := s.settled || Settles(a), ended := s.ended + [a])
    case Die(n) => s.(open := s.open - {n})
  }

  function AfterAll(evs: seq<Event>): Bus {
    if evs == [] then FRESH else After(AfterAll(evs[..|evs| - 1]), evs[|evs| - 1])
  }

  predicate PossibleRun(evs: seq<Event>) {
    evs == [] || (PossibleRun(evs[..|evs| - 1]) && Possible(AfterAll(evs[..|evs| - 1]), evs[|evs| - 1]))
  }

  function Successes(attempts: seq<Attempt>): nat {
    if attempts == [] then 0
    else Successes(attempts[..|attempts| - 1]) + if Succeeds(attempts[|attempts| - 1]) then 1 else 0
  }

  /** Each delivery ends at most once, and at most five begin. */
  lemma {:induction false} AtMostFiveDeliveries(evs: seq<Event>)
    requires PossibleRun(evs)
    ensures var s := AfterAll(evs);
      && |s.ended| + |s.open| <= s.begun <= MAX_DELIVER
      && (forall n :: n in s.open ==> 1 <= n <= s.begun)
      && Successes(s.ended) <= |s.ended|
  {
    if evs != [] {
      var n := |evs| - 1;
      var s, t := AfterAll(evs[..n]), AfterAll(evs);
      AtMostFiveDeliveries(evs[..n]);
      if evs[n].End? { assert t.ended[..|s.ended|] == s.ended; }
    }
  }

  /** Some delivery begins while another is in progress. */
  predicate Overlaps(evs: seq<Event>) {
    exists i :: 0 <= i < |evs| && evs[i].Begin? && AfterAll(evs[..i]).open != {}
  }

  /** Some handler returns without a signal that settles the message. */
  predicate LosesAck(evs: seq<Event>) {
    exists i :: 0 <= i < |evs| && evs[i].End? && Succeeds(evs[i].attempt) && !Settles(evs[i].attempt)
  }

  predicate AtMostOneSuccess(s: Bus) {
    |s.open| <= 1 && Successes(s.ended) <= 1 && (Successes(s.ended) == 1 ==> s.settled && s.open == {})
  }

  lemma {:induction false} OneAtATime(evs: seq<Event>)
    requires PossibleRun(evs) && !Overlaps(evs) && !LosesAck(evs)
    ensures AtMostOneSuccess(AfterAll(evs))
  {
    if evs != [] {
      var n := |evs| - 1;
      var s, t := AfterAll(evs[..n]), AfterAll(evs);
      assert !Overlaps(evs[..n]) by { OverlapsPrefix(evs, n); }
      assert !LosesAck(evs[..n]) by {
        assert forall i :: 0 <= i < n ==> evs[..n][i] == evs[i];
      }
      OneAtATime(evs[..n]);
      if evs[n].End? {
        assert t.ended[..|s.ended|] == s.ended;
        OnlyOne(s.open, evs[n].nth);
      }
    }
  }

  lemma OverlapsPrefix(evs: seq<Event>, n: nat)
    requires n <= |evs| && !Overlaps(evs)
    ensures !Overlaps(evs[..n])
  {
    forall i | 0 <= i < n && evs[..n][i].Begin? ensures AfterAll(evs[..n][..i]).open == {} {
      assert evs[..n][..i] == evs[..i];
    }
  }

  lemma OnlyOne(s: set<nat>, n: nat)
    requires |s| <= 1 && n in s
    ensures s - {n} == {}
  {
    assert |s - {n}| == 0;
  }

  /** A handler returns normally at most five times for one message; a second time only after an ack
      was lost or a delivery began while another was in progress. */
  lemma HandledTwiceOnlyByLossOrOverlap(evs: seq<Event>)
    requires PossibleRun(evs)
    ensures Successes(AfterAll(evs).ended) <= 5
    ensures Successes(AfterAll(evs).ended) >= 2 ==> LosesAck(evs) || Overlaps(evs)
  {
    AtMostFiveDeliveries(evs);
    if !Overlaps(evs) && !LosesAck(evs) { OneAtATime(evs); }
  }

  lemma {:induction false} PossiblePrefix(evs: seq<Event>, k: nat)
    requires PossibleRun(evs) && k <= |evs|
    ensures PossibleRun(evs[..k])
  {
    if k < |evs| {
      PossiblePrefix(evs[..|evs| - 1], k);
      assert evs[..|evs| - 1][..k] == evs[..k];
    } else {
      assert evs[..k] == evs;
    }
  }

  /** Nothing more happens to a message at rest. */
  lemma RestIsFinal(evs: seq<Event>, more: seq<Event>)
    requires PossibleRun(evs + more) && AtRest(AfterAll(evs))
    ensures more == []
  {
    if more != [] { NextIsPossible(evs, more); }
  }

  lemma NextIsPossible(evs: seq<Event>, more: seq<Event>)
    requires PossibleRun(evs + more) && more != []
    ensures Possible(AfterAll(evs), more[0])
  {
    PossiblePrefix(evs + more, |evs| + 1);
    assert (evs + more)[..|evs| + 1] == evs + [more[0]];
    assert (evs + [more[0]])[..|evs|] == evs;
  }

  predicate SucceedsAgain(evs: seq<Event>, more: seq<Event>) {
    PossibleRun(evs + more) && Successes(AfterAll(evs + more).ended) >= 2
  }

  /** The exact condition: after one success a second one can follow exactly when a delivery is still in
      progress, or the message is unsettled and fewer than five deliveries have begun. */
  lemma SecondSuccessExactly(evs: seq<Event>)
    requires PossibleRun(evs) && Successes(AfterAll(evs).ended) == 1
    ensures var s := AfterAll(evs);
      (exists more :: SucceedsAgain(evs, more)) <==> s.open != {} || (!s.settled && s.begun < 5)
  {
    var s := AfterAll(evs);
    if s.open != {} {
      var n :| n in s.open;
      EndsWell(evs, s, n);
      assert SucceedsAgain(evs, [End(n, GOOD)]);
    } else if !s.settled && s.begun < MAX_DELIVER {
      var more := BeginsAndEnds(evs);
    } else {
      forall more ensures !SucceedsAgain(evs, more) { NeverAgain(evs, more); }
    }
  }

  lemma BeginsAndEnds(evs: seq<Event>) returns (more: seq<Event>)
    requires PossibleRun(evs) && Successes(AfterAll(evs).ended) == 1 && Possible(AfterAll(evs), Begin)
    ensures SucceedsAgain(evs, more)
  {
    var s := AfterAll(evs);
    var end := End(s.begun + 1, GOOD);
    var t := Next(evs, s, Begin, evs + [Begin]);
    EndsWell(evs + [Begin], t, s.begun + 1);
    more := [Begin, end];
    assert evs + more == evs + [Begin] + [end];
  }

  lemma NeverAgain(evs: seq<Event>, more: seq<Event>)
    requires Successes(AfterAll(evs).ended) == 1 && AtRest(AfterAll(evs))
    ensures !SucceedsAgain(evs, more)
  {
    if PossibleRun(evs + more) {
      RestIsFinal(evs, more);
      assert evs + more == evs;
    }
  }

  lemma EndsWell(evs: seq<Event>, s: Bus, n: nat)
    requires PossibleRun(evs) && AfterAll(evs) == s && n in s.open
    ensures PossibleRun(evs + [End(n, GOOD)])
    ensures Successes(AfterAll(evs + [End(n, GOOD)]).ended) == Successes(s.ended) + 1
  {
    var t := Next(evs, s, End(n, GOOD), evs + [End(n, GOOD)]);
    assert t.ended == s.ended + [GOOD];
    OneMoreSuccess(s.ended);
  }

  lemma OneMoreSuccess(attempts: seq<Attempt>)
    ensures Successes(attempts + [GOOD]) == Successes(attempts) + 1
  {
    assert (attempts + [GOOD])[..|attempts|] == attempts;
  }

  const GOOD := Attempt(true, None, None, None)
  const ACK_LOST := Attempt(true, None, Some(Retryable), None)

  /** Either is enough. A slow handler and the next delivery can both return and both acknowledge; and a
      handler whose ack raises gives its message back. */
  lemma EitherIsEnough()
    ensures var overlap := [Begin, Begin, End(1, GOOD), End(2, GOOD)];
      PossibleRun(overlap) && !LosesAck(overlap) && Successes(AfterAll(overlap).ended) == 2
    ensures var lost := [Begin, End(1, ACK_LOST), Begin, End(2, GOOD)];
      PossibleRun(lost) && !Overlaps(lost) && Successes(AfterAll(lost).ended) == 2
  {
    OverlapRun();
    LostRun();
  }

  lemma OverlapRun()
    ensures var overlap := [Begin, Begin, End(1, GOOD), End(2, GOOD)];
      PossibleRun(overlap) && !LosesAck(overlap) && Successes(AfterAll(overlap).ended) == 2
  {
    var two := TwoBegin();
    var s := Next([Begin, Begin], two, End(1, GOOD), [Begin, Begin, End(1, GOOD)]);
    assert s == Bus(2, {2}, true, [GOOD]);
    s := Next([Begin, Begin, End(1, GOOD)], s, End(2, GOOD), [Begin, Begin, End(1, GOOD), End(2, GOOD)]);
    assert s.ended == [GOOD, GOOD];
    TwoSuccesses(GOOD, GOOD);
  }

  lemma TwoBegin() returns (s: Bus)
    ensures s == Bus(2, {1, 2}, false, []) && PossibleRun([Begin, Begin]) && AfterAll([Begin, Begin]) == s
  {
    s := Next([], FRESH, Begin, [Begin]);
    s := Next([Begin], s, Begin, [Begin, Begin]);
  }

  lemma LostRun()
    ensures var lost := [Begin, End(1, ACK_LOST), Begin, End(2, GOOD)];
      PossibleRun(lost) && !Overlaps(lost) && Successes(AfterAll(lost).ended) == 2
  {
    var s := Next([], FRESH, Begin, [Begin]);
    s := Next([Begin], s, End(1, ACK_LOST), [Begin, End(1, ACK_LOST)]);
    assert s.open == {};
    s := Next([Begin, End(1, ACK_LOST)], s, Begin, [Begin, End(1, ACK_LOST), Begin]);
    s := Next([Begin, End(1, ACK_LOST), Begin], s, End(2, GOOD), [Begin, End(1, ACK_LOST), Begin, End(2, GOOD)]);
    assert s == Bus(2, {}, true, [ACK_LOST, GOOD]);
    TwoSuccesses(ACK_LOST, GOOD);
    LostRunDoesNotOverlap();
  }

  lemma LostRunDoesNotOverlap()
    ensures !Overlaps([Begin, End(1, ACK_LOST), Begin, End(2, GOOD)])
  {
    var s := Next([], FRESH, Begin, [Begin]);
    StillNoOverlap([], Begin, [Begin]);
    s := Next([Begin], s, End(1, ACK_LOST), [Begin, End(1, ACK_LOST)]);
    StillNoOverlap([Begin], End(1, ACK_LOST), [Begin, End(1, ACK_LOST)]);
    StillNoOverlap([Begin, End(1, ACK_LOST)], Begin, [Begin, End(1, ACK_LOST), Begin]);
    StillNoOverlap([Begin, End(1, ACK_LOST), Begin], End(2, GOOD), [Begin, End(1, ACK_LOST), Begin, End(2, GOOD)]);
  }

  lemma StillNoOverlap(evs: seq<Event>, ev: Event, more: seq<Event>)
    requires !Overlaps(evs) && (ev.Begin? ==> AfterAll(evs).open == {}) && more == evs + [ev]
    ensures !Overlaps(more)
  {
    forall i | 0 <= i < |more| && more[i].Begin? ensures AfterAll(more[..i]).open == {} {
      assert more[..i] == evs[..i];
      if i < |evs| { assert evs[i] == more[i]; } else { assert evs[..i] == evs; }
    }
  }

  lemma Next(evs: seq<Event>, s: Bus, ev: Event, more: seq<Event>) returns (t: Bus)
    requires PossibleRun(evs) && AfterAll(evs) == s && Possible(s, ev) && more == evs + [ev]
    ensures t == After(s, ev) && PossibleRun(more) && AfterAll(more) == t
  {
    t := After(s, ev);
    assert more[..|more| - 1] == evs;
  }

  lemma TwoSuccesses(a: Attempt, b: Attempt)
    requires Succeeds(a) && Succeeds(b)
    ensures Successes([a, b]) == 2
  {
    assert [a, b][..1] == [a] && [a][..0] == [];
    assert Successes([a]) == Successes([]) + 1;
    assert Successes([a, b]) == Successes([a, b][..1]) + 1;
  }

  predicate AnySettles(attempts: seq<Attempt>) {
    exists i :: 0 <= i < |attempts| && Settles(attempts[i])
  }

  lemma {:induction false} SettledExactly(evs: seq<Event>)
    ensures AfterAll(evs).settled <==> AnySettles(AfterAll(evs).ended)
  {
    if evs != [] {
      var n := |evs| - 1;
      var s, t := AfterAll(evs[..n]), AfterAll(evs);
      SettledExactly(evs[..n]);
      if evs[n].End? {
        assert t.ended[|s.ended|] == evs[n].attempt;
        assert forall i :: 0 <= i < |s.ended| ==> t.ended[i] == s.ended[i];
      }
    }
  }

  /** No handler is at work, and the message will not be sent out again. */
  predicate AtRest(s: Bus) {
    s.open == {} && !Possible(s, Begin)
  }

  /** A message that has come to rest was dropped exactly when none of its endings settled it; then
      five deliveries had begun. */
  lemma DroppedExactly(evs: seq<Event>)
    requires PossibleRun(evs) && AtRest(AfterAll(evs))
    ensures !AfterAll(evs).settled <==> AfterAll(evs).begun == 5 && !AnySettles(AfterAll(evs).ended)
  {
    SettledExactly(evs);
    AtMostFiveDeliveries(evs);
  }

  // ---- when a message comes again ----------------------------------------------------------

  /** The ending takes the message off the stream: an ack or a term arrived. */
  predicate Final(a: Attempt) {
    || (a.decodes && a.handler.None? && a.first.None?)
    || (!a.decodes && a.first.None?)
    || (a.decodes && a.handler == Some(Permanent) && a.first.None?)
    || ((!a.decodes || a.handler.None?) && a.first == Some(Permanent) && a.second.None?)
  }

  predicate AnyFinal(evs: seq<Event>) {
    exists i :: 0 <= i < |evs| && evs[i].End? && Final(evs[i].attempt)
  }

  function Begins(evs: seq<Event>): nat {
    if evs == [] then 0 else Begins(evs[..|evs| - 1]) + if evs[|evs| - 1].Begin? then 1 else 0
  }

  lemma {:induction false} RunSoFar(evs: seq<Event>)
    ensures AfterAll(evs).begun == Begins(evs)
    ensures AfterAll(evs).settled <==> AnyFinal(evs)
  {
    if evs != [] {
      var n := |evs| - 1;
      RunSoFar(evs[..n]);
      assert forall i :: 0 <= i < n ==> evs[..n][i] == evs[i];
    }
  }

  /** Exactly when a message is delivered again: fewer than five deliveries have begun, and none has ended
      with an ack, with a term of a corrupt payload, or with a term after a permanent error. Retryable and
      unexpected errors, lost signals and crashes all bring it back. */
  lemma NextDeliveryExactly(evs: seq<Event>)
    requires PossibleRun(evs)
    ensures PossibleRun(evs + [Begin]) <==> Begins(evs) < 5 && !AnyFinal(evs)
  {
    RunSoFar(evs);
    assert (evs + [Begin])[..|evs|] == evs;
  }

  /** A permanent error whose term arrives is the end of the message; a retryable or unexpected one is not. */
  lemma ErrorsDecideRedelivery(evs: seq<Event>, nth: nat, e: Raise)
    requires PossibleRun(evs) && nth in AfterAll(evs).open && Begins(evs) < 5 && !AnyFinal(evs)
    ensures var more := evs + [End(nth, Attempt(true, Some(e), None, None))];
      PossibleRun(more) && (PossibleRun(more + [Begin]) <==> e != Permanent)
  {
    var end := End(nth, Attempt(true, Some(e), None, None));
    var more := evs + [end];
    assert more[..|evs|] == evs && more[|evs|] == end;
    assert forall i :: 0 <= i < |evs| ==> more[i] == evs[i];
    NextDeliveryExactly(more);
  }
}

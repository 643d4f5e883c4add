/** Polls of several feeds at once: the order in which their entries are looked at, what each poll emits
    and comes to, and which items are lost or emitted again. */
module FeedTraces {
  import opened Options
  import opened Naturals
  import S = SeenGuids
  import F = Feeds

  const MAX_ITEMS: nat := 20

  /** What the network answers: an error in fetching or parsing, a 304, or a parsed document. */
  datatype Reply =
    | Unreachable(error: string)
    | NotModified
    | Document(entries: seq<S.Entry>, etag: Option<string>, lastModified: Option<string>)

  /** The surroundings of a poll: its instant, the reply, which of the publishes for its feed raise, counted
      from the start of the trace, and whether the writes of its outcome raise. */
  datatype Surroundings = Surroundings(at: real, reply: Reply, publishFails: set<nat>,
                                       updateFails: Option<string>, errorUpdateFails: bool)

  function Considered(entries: seq<S.Entry>): (es: seq<S.Entry>)
    ensures |es| <= MAX_ITEMS
  {
    if |entries| > MAX_ITEMS then entries[..MAX_ITEMS] else entries
  }

  function EntriesOf(s: Surroundings): (es: seq<S.Entry>)
    ensures |es| <= MAX_ITEMS
  {
    if s.reply.Document? then Considered(s.reply.entries) else []
  }

  /** Of a parsed document the first twenty entries are looked at, and of any other reply none. */
  lemma FirstTwentyOnly(s: Surroundings)
    ensures !s.reply.Document? ==> EntriesOf(s) == []
    ensures s.reply.Document? && |s.reply.entries| <= 20 ==> EntriesOf(s) == s.reply.entries
    ensures s.reply.Document? && |s.reply.entries| > 20 ==> |EntriesOf(s)| == 20
    ensures s.reply.Document? ==> forall i :: 0 <= i < |EntriesOf(s)| ==> EntriesOf(s)[i] == s.reply.entries[i]
  {
  }

  /** One entry of one feed looked at, with no suspension point inside. */
  datatype Look = Look(id: string, entry: S.Entry)

  function Plain(trace: seq<Look>): (es: seq<S.Entry>)
    ensures |es| == |trace|
  {
    seq(|trace|, i requires 0 <= i < |trace| => trace[i].entry)
  }

  /** The cache before look `n`. */
  function KeysAt(keys: seq<string>, maxsize: int, trace: seq<Look>, n: nat): seq<string>
    requires n <= |trace|
  {
    S.AfterEntries(keys, maxsize, Plain(trace[..n]))
  }

  predicate EmitsAt(keys: seq<string>, maxsize: int, trace: seq<Look>, n: nat)
    requires n < |trace|
  {
    S.Emits(KeysAt(keys, maxsize, trace, n), trace[n].entry)
  }

  /** The entries of one feed. */
  function Own(trace: seq<Look>, id: string): seq<S.Entry> {
    if trace == [] then []
    else
      var n := |trace| - 1;
      Own(trace[..n], id) + if trace[n].id == id then [trace[n].entry] else []
  }

  /** How many of them were emitted, a failed publish included. */
  function Emitted(keys: seq<string>, maxsize: int, trace: seq<Look>, id: string): nat {
    if trace == [] then 0
    else
      var n := |trace| - 1;
      Emitted(keys, maxsize, trace[..n], id) + if trace[n].id == id && EmitsAt(keys, maxsize, trace, n) then 1 else 0
  }

  /** A publish of the poll has raised. */
  predicate Broken(s: Surroundings, emitted: nat) {
    exists n <- s.publishFails :: n < emitted
  }

  /** The keys handed to the event bus. */
  function Handed(keys: seq<string>, maxsize: int, surroundings: string -> Surroundings, trace: seq<Look>): seq<string> {
    if trace == [] then []
    else
      var n := |trace| - 1;
      Handed(keys, maxsize, surroundings, trace[..n]) +
      if EmitsAt(keys, maxsize, trace, n)
         && Emitted(keys, maxsize, trace[..n], trace[n].id) !in surroundings(trace[n].id).publishFails
      then [trace[n].entry.key.value] else []
  }

  // ---- what a poll comes to ----------------------------------------------------------------

  /** What the fetch and the scan come to. */
  function Scanned(s: Surroundings, emitted: nat): F.Result {
    match s.reply
    case Unreachable(error) => F.Failed(error)
    case NotModified => F.NotModified
    case Document(_, etag, lastModified) =>
      if Broken(s, emitted) then F.Failed("RetryableError") else F.Fetched(etag, lastModified, emitted)
  }

  /** An update of the row that raises counts as a failure of the poll, even after its items went out. */
  function ResultOf(s: Surroundings, emitted: nat): F.Result {
    var r := Scanned(s, emitted);
    if !r.Failed? && s.updateFails.Some? then F.Failed(s.updateFails.value) else r
  }

  /** The poll, if its outcome reaches the row. */
  function PollOf(s: Surroundings, emitted: nat): Option<F.Poll> {
    var r := ResultOf(s, emitted);
    if r.Failed? && s.errorUpdateFails then None else Some(F.Poll(s.at, r))
  }

  // ---- polls in progress -------------------------------------------------------------------

  /** `looked` and `newCount` are the loop variables of the polls begun so far. */
  datatype Progress = Progress(trace: seq<Look>, looked: map<string, nat>, newCount: map<string, nat>,
                               running: set<string>, finished: set<string>, polls: map<string, F.Poll>)

  /** A poll looks at its own entries in order, and at none after a publish has raised. */
  ghost predicate InOrder(keys: seq<string>, maxsize: int, surroundings: string -> Surroundings, trace: seq<Look>, id: string) {
    && Own(trace, id) <= EntriesOf(surroundings(id))
    && forall n :: 0 <= n < |trace| && trace[n].id == id ==> !Broken(surroundings(id), Emitted(keys, maxsize, trace[..n], id))
  }

  ghost predicate Ended(keys: seq<string>, maxsize: int, surroundings: string -> Surroundings, trace: seq<Look>, id: string) {
    Broken(surroundings(id), Emitted(keys, maxsize, trace, id)) || Own(trace, id) == EntriesOf(surroundings(id))
  }

  ghost predicate Recorded(keys: seq<string>, maxsize: int, surroundings: string -> Surroundings, trace: seq<Look>,
                           polls: map<string, F.Poll>, id: string)
  {
    var poll := PollOf(surroundings(id), Emitted(keys, maxsize, trace, id));
    if poll.Some? then id in polls && polls[id] == poll.value else id !in polls
  }

  ghost predicate RunningOk(keys: seq<string>, maxsize: int, surroundings: string -> Surroundings, p: Progress, id: string) {
    && id in p.looked && p.looked[id] == |Own(p.trace, id)|
    && id in p.newCount && p.newCount[id] == Emitted(keys, maxsize, p.trace, id)
    && id !in p.polls && InOrder(keys, maxsize, surroundings, p.trace, id)
    && !Broken(surroundings(id), p.newCount[id])
  }

  ghost predicate FinishedOk(keys: seq<string>, maxsize: int, surroundings: string -> Surroundings, p: Progress, id: string) {
    && InOrder(keys, maxsize, surroundings, p.trace, id) && Ended(keys, maxsize, surroundings, p.trace, id)
    && Recorded(keys, maxsize, surroundings, p.trace, p.polls, id)
  }

  ghost predicate Steady(keys: seq<string>, maxsize: int, surroundings: string -> Surroundings, p: Progress) {
    && p.running !! p.finished && p.polls.Keys <= p.finished
    && (forall i :: 0 <= i < |p.trace| ==> p.trace[i].id in p.running + p.finished)
    && (forall id <- p.running :: RunningOk(keys, maxsize, surroundings, p, id))
    && (forall id <- p.finished :: FinishedOk(keys, maxsize, surroundings, p, id))
  }

  function AfterStart(p: Progress, id: string): Progress {
    p.(running := p.running + {id}, looked := p.looked[id := 0], newCount := p.newCount[id := 0])
  }

  /** One more entry of a running poll; when its publish raises the poll is not counted on, but ends. */
  function AfterLook(p: Progress, id: string, e: S.Entry, emits: bool): Progress
    requires id in p.looked && id in p.newCount
  {
    p.(trace := p.trace + [Look(id, e)], looked := p.looked[id := p.looked[id] + 1],
       newCount := p.newCount[id := p.newCount[id] + if emits then 1 else 0])
  }

  function AfterFinish(p: Progress, id: string, poll: Option<F.Poll>): Progress {
    p.(running := p.running - {id}, finished := p.finished + {id},
       polls := if poll.Some? then p.polls[id := poll.value] else p.polls)
  }

  lemma OwnGrows(trace: seq<Look>, l: Look, id: string)
    ensures Own(trace + [l], id) == Own(trace, id) + if l.id == id then [l.entry] else []
  {
    assert (trace + [l])[..|trace|] == trace;
  }

  lemma EmittedGrows(keys: seq<string>, maxsize: int, trace: seq<Look>, l: Look, id: string)
    ensures Emitted(keys, maxsize, trace + [l], id)
         == Emitted(keys, maxsize, trace, id) + if l.id == id && S.Emits(S.AfterEntries(keys, maxsize, Plain(trace)), l.entry) then 1 else 0
  {
    assert (trace + [l])[..|trace|] == trace;
  }

  lemma InOrderKept(keys: seq<string>, maxsize: int, surroundings: string -> Surroundings, trace: seq<Look>, l: Look, id: string)
    requires InOrder(keys, maxsize, surroundings, trace, id)
    requires l.id == id ==> Own(trace, id) + [l.entry] <= EntriesOf(surroundings(id))
                            && !Broken(surroundings(id), Emitted(keys, maxsize, trace, id))
    ensures InOrder(keys, maxsize, surroundings, trace + [l], id)
  {
    var more := trace + [l];
    OwnGrows(trace, l, id);
    forall n | 0 <= n < |more| && more[n].id == id ensures !Broken(surroundings(id), Emitted(keys, maxsize, more[..n], id)) {
      if n < |trace| { assert more[..n] == trace[..n] && trace[n].id == id; } else { assert more[..n] == trace; }
    }
  }

  lemma {:induction false} StrangerHasNothing(keys: seq<string>, maxsize: int, trace: seq<Look>, id: string)
    requires forall i :: 0 <= i < |trace| ==> trace[i].id != id
    ensures Own(trace, id) == [] && Emitted(keys, maxsize, trace, id) == 0
  {
    if trace != [] {
      var n := |trace| - 1;
      assert forall i :: 0 <= i < n ==> trace[..n][i] == trace[i];
      StrangerHasNothing(keys, maxsize, trace[..n], id);
    }
  }

  lemma StartKeeps(keys: seq<string>, maxsize: int, surroundings: string -> Surroundings, p: Progress, id: string)
    requires Steady(keys, maxsize, surroundings, p) && id !in p.running && id !in p.finished
    ensures Steady(keys, maxsize, surroundings, AfterStart(p, id))
  {
    var q := AfterStart(p, id);
    assert RunningOk(keys, maxsize, surroundings, q, id) by {
      assert forall i :: 0 <= i < |p.trace| ==> p.trace[i].id != id;
      StrangerHasNothing(keys, maxsize, p.trace, id);
    }
    forall o | o in p.running ensures RunningOk(keys, maxsize, surroundings, q, o) {
      assert RunningOk(keys, maxsize, surroundings, p, o);
    }
    forall o | o in p.finished ensures FinishedOk(keys, maxsize, surroundings, q, o) {
      assert FinishedOk(keys, maxsize, surroundings, p, o);
    }
  }

  /** A poll that does not move stays as it is. */
  lemma OtherStays(keys: seq<string>, maxsize: int, surroundings: string -> Surroundings, trace: seq<Look>, l: Look, id: string)
    requires l.id != id && InOrder(keys, maxsize, surroundings, trace, id)
    ensures Own(trace + [l], id) == Own(trace, id)
    ensures Emitted(keys, maxsize, trace + [l], id) == Emitted(keys, maxsize, trace, id)
    ensures InOrder(keys, maxsize, surroundings, trace + [l], id)
  {
    OwnGrows(trace, l, id);
    EmittedGrows(keys, maxsize, trace, l, id);
    InOrderKept(keys, maxsize, surroundings, trace, l, id);
  }

  /** All is steady but perhaps one running poll. */
  ghost predicate OthersOk(keys: seq<string>, maxsize: int, surroundings: string -> Surroundings, p: Progress, id: string) {
    && p.running !! p.finished && p.polls.Keys <= p.finished && id in p.running
    && (forall i :: 0 <= i < |p.trace| ==> p.trace[i].id in p.running + p.finished)
    && (forall o <- p.running :: o != id ==> RunningOk(keys, maxsize, surroundings, p, o))
    && (forall o <- p.finished :: FinishedOk(keys, maxsize, surroundings, p, o))
  }

  lemma SteadyParts(keys: seq<string>, maxsize: int, surroundings: string -> Surroundings, p: Progress, id: string)
    requires id in p.running
    ensures Steady(keys, maxsize, surroundings, p)
       <==> OthersOk(keys, maxsize, surroundings, p, id) && RunningOk(keys, maxsize, surroundings, p, id)
  {
  }

  /** That poll has come to its end. */
  ghost predicate AllButOne(keys: seq<string>, maxsize: int, surroundings: string -> Surroundings, p: Progress, id: string) {
    && OthersOk(keys, maxsize, surroundings, p, id) && id !in p.polls
    && InOrder(keys, maxsize, surroundings, p.trace, id) && Ended(keys, maxsize, surroundings, p.trace, id)
    && id in p.newCount && p.newCount[id] == Emitted(keys, maxsize, p.trace, id)
  }

  /** What a look leaves of the other polls. */
  lemma OthersStay(keys: seq<string>, maxsize: int, surroundings: string -> Surroundings, p: Progress, id: string, e: S.Entry, emits: bool)
    requires OthersOk(keys, maxsize, surroundings, p, id) && id in p.looked && id in p.newCount
    ensures OthersOk(keys, maxsize, surroundings, AfterLook(p, id, e, emits), id)
  {
    var l, q := Look(id, e), AfterLook(p, id, e, emits);
    forall o | o in p.running && o != id ensures RunningOk(keys, maxsize, surroundings, q, o) {
      assert RunningOk(keys, maxsize, surroundings, p, o);
      OtherStays(keys, maxsize, surroundings, p.trace, l, o);
    }
    forall o | o in p.finished ensures FinishedOk(keys, maxsize, surroundings, q, o) {
      assert FinishedOk(keys, maxsize, surroundings, p, o);
      OtherStays(keys, maxsize, surroundings, p.trace, l, o);
    }
  }

  lemma NextOfPrefix<T>(a: seq<T>, b: seq<T>)
    requires a <= b && |a| < |b|
    ensures a + [b[|a|]] <= b
  {
  }

  /** What it makes of its own poll. */
  lemma OwnLook(keys: seq<string>, maxsize: int, surroundings: string -> Surroundings, p: Progress, id: string, e: S.Entry, emits: bool)
    requires RunningOk(keys, maxsize, surroundings, p, id) && p.looked[id] < |EntriesOf(surroundings(id))|
    requires e == EntriesOf(surroundings(id))[p.looked[id]]
    requires emits == S.Emits(S.AfterEntries(keys, maxsize, Plain(p.trace)), e)
    ensures var q := AfterLook(p, id, e, emits);
      && q.looked[id] == |Own(q.trace, id)| && q.newCount[id] == Emitted(keys, maxsize, q.trace, id)
      && InOrder(keys, maxsize, surroundings, q.trace, id)
  {
    var l, q := Look(id, e), AfterLook(p, id, e, emits);
    assert q.looked[id] == |Own(q.trace, id)| by { OwnGrows(p.trace, l, id); }
    assert q.newCount[id] == Emitted(keys, maxsize, q.trace, id) by { EmittedGrows(keys, maxsize, p.trace, l, id); }
    NextOfPrefix(Own(p.trace, id), EntriesOf(surroundings(id)));
    InOrderKept(keys, maxsize, surroundings, p.trace, l, id);
  }

  /** A running poll looks at its next entry, and goes on or has come to its end. */
  lemma LookKeeps(keys: seq<string>, maxsize: int, surroundings: string -> Surroundings, p: Progress, id: string, e: S.Entry, emits: bool)
    requires Steady(keys, maxsize, surroundings, p) && id in p.running && id in p.looked && id in p.newCount
    requires p.looked[id] < |EntriesOf(surroundings(id))| && e == EntriesOf(surroundings(id))[p.looked[id]]
    requires emits == S.Emits(S.AfterEntries(keys, maxsize, Plain(p.trace)), e)
    ensures var q := AfterLook(p, id, e, emits);
      if Broken(surroundings(id), q.newCount[id]) then AllButOne(keys, maxsize, surroundings, q, id)
      else Steady(keys, maxsize, surroundings, q)
  {
    var q := AfterLook(p, id, e, emits);
    SteadyParts(keys, maxsize, surroundings, p, id);
    OthersStay(keys, maxsize, surroundings, p, id, e, emits);
    OwnLook(keys, maxsize, surroundings, p, id, e, emits);
    SteadyParts(keys, maxsize, surroundings, q, id);
  }

  /** A running poll that has looked at all its entries has come to its end. */
  lemma AllLooked(keys: seq<string>, maxsize: int, surroundings: string -> Surroundings, p: Progress, id: string)
    requires id in p.running && id in p.looked && p.looked[id] >= |EntriesOf(surroundings(id))|
    ensures Steady(keys, maxsize, surroundings, p) ==> AllButOne(keys, maxsize, surroundings, p, id)
  {
    if Steady(keys, maxsize, surroundings, p) {
      SteadyParts(keys, maxsize, surroundings, p, id);
      assert Own(p.trace, id) == EntriesOf(surroundings(id));
    }
  }

  lemma FinishKeeps(keys: seq<string>, maxsize: int, surroundings: string -> Surroundings, p: Progress, id: string)
    requires AllButOne(keys, maxsize, surroundings, p, id)
    ensures Steady(keys, maxsize, surroundings, AfterFinish(p, id, PollOf(surroundings(id), p.newCount[id])))
  {
    var q := AfterFinish(p, id, PollOf(surroundings(id), p.newCount[id]));
    assert FinishedOk(keys, maxsize, surroundings, q, id);
    forall o | o in p.running && o != id ensures RunningOk(keys, maxsize, surroundings, q, o) {
      assert RunningOk(keys, maxsize, surroundings, p, o);
    }
    forall o | o in p.finished ensures FinishedOk(keys, maxsize, surroundings, q, o) {
      assert FinishedOk(keys, maxsize, surroundings, p, o);
    }
  }

  /** Every chosen feed was polled to its end, and nothing else was looked at. */
  ghost predicate RanAll(keys: seq<string>, maxsize: int, surroundings: string -> Surroundings, trace: seq<Look>,
                         ids: set<string>, polls: map<string, F.Poll>)
  {
    && polls.Keys <= ids
    && (forall i :: 0 <= i < |trace| ==> trace[i].id in ids)
    && (forall id <- ids :: (
          && InOrder(keys, maxsize, surroundings, trace, id) && Ended(keys, maxsize, surroundings, trace, id)
          && Recorded(keys, maxsize, surroundings, trace, polls, id)))
  }
}

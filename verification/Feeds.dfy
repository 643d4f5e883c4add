/** Feed rows, the two row updates that follow a poll, and the choice of the feeds to poll next. */
module Feeds {
  import opened Options
  import opened Naturals

  datatype Status = Active | Paused | Error | Dead

  /** Times and delays are in seconds. */
  datatype Feed = Feed(id: string, interval: nat, lastPolled: Option<real>, nextPoll: real, status: Status,
                       errorCount: nat, lastError: Option<string>, etag: Option<string>,
                       lastModified: Option<string>, articleCount: nat)

  const MAX_BACKOFF: nat := 86_400
  const MAX_ERRORS: nat := 5

  function Pow2(n: nat): (p: nat)
    ensures p >= 1
  {
    if n == 0 then 1 else 2 * Pow2(n - 1)
  }

  /** The delay after the failure that makes the count of consecutive failures `errors`. */
  function Backoff(interval: nat, errors: nat): nat {
    if interval * Pow2(errors) < MAX_BACKOFF then interval * Pow2(errors) else MAX_BACKOFF
  }

  /** What a poll came to: a 304, a parsed document with its newly emitted items, or an exception. */
  datatype Result =
    | NotModified
    | Fetched(etag: Option<string>, lastModified: Option<string>, emitted: nat)
    | Failed(error: string)

  datatype Poll = Poll(at: real, result: Result)

  /** What the poll of `feed` makes of its row: the 304 path writes back the validators, and the
      failure path the count and status, of the feed as it was read. */
  function PollWrites(row: Feed, feed: Feed, p: Poll): Feed {
    match p.result
    case NotModified =>
      row.(lastPolled := Some(p.at), nextPoll := p.at + feed.interval as real, errorCount := 0, lastError := None,
           etag := feed.etag, lastModified := feed.lastModified)
    case Fetched(etag, lastModified, emitted) =>
      row.(lastPolled := Some(p.at), nextPoll := p.at + feed.interval as real, errorCount := 0, lastError := None,
           etag := etag, lastModified := lastModified, articleCount := row.articleCount + emitted)
    case Failed(error) =>
      var errors := feed.errorCount + 1;
      row.(errorCount := errors, lastError := Some(error), nextPoll := p.at + Backoff(feed.interval, errors) as real,
           status := if errors >= MAX_ERRORS then Error else feed.status)
  }

  function AfterPoll(feed: Feed, p: Poll): Feed {
    PollWrites(feed, feed, p)
  }

  predicate IsDue(feed: Feed, now: real) {
    feed.status == Active && feed.nextPoll <= now
  }

  // ---- the selection -----------------------------------------------------------------------

  type Rows = map<string, Feed>

  function Ids(feeds: seq<Feed>): set<string> {
    set f | f in feeds :: f.id
  }

  predicate SortedByDue(feeds: seq<Feed>) {
    forall i, j :: 0 <= i < j < |feeds| ==> feeds[i].nextPoll <= feeds[j].nextPoll
  }

  predicate DistinctIds(feeds: seq<Feed>) {
    forall i, j :: 0 <= i < j < |feeds| ==> feeds[i].id != feeds[j].id
  }

  predicate DueRows(rows: Rows, now: real, feeds: seq<Feed>) {
    forall f <- feeds :: f.id in rows && rows[f.id] == f && IsDue(f, now)
  }

  /** A due feed is left out only behind a full selection of feeds at least as overdue. */
  predicate MostOverdue(rows: Rows, now: real, limit: nat, feeds: seq<Feed>) {
    forall id <- rows :: IsDue(rows[id], now) && id !in Ids(feeds) ==>
      |feeds| == limit && forall f <- feeds :: f.nextPoll <= rows[id].nextPoll
  }

  /** Any order among equally overdue feeds is allowed. */
  predicate IsSelection(rows: Rows, now: real, limit: nat, feeds: seq<Feed>) {
    && |feeds| <= limit
    && SortedByDue(feeds) && DistinctIds(feeds)
    && DueRows(rows, now, feeds)
    && MostOverdue(rows, now, limit, feeds)
  }

  function Insert(feeds: seq<Feed>, f: Feed): seq<Feed> {
    if feeds == [] || f.nextPoll < feeds[0].nextPoll then [f] + feeds
    else [feeds[0]] + Insert(feeds[1..], f)
  }

  lemma {:induction false} InsertKeeps(feeds: seq<Feed>, f: Feed)
    requires SortedByDue(feeds)
    ensures forall g :: g in Insert(feeds, f) <==> g in feeds || g == f
    ensures SortedByDue(Insert(feeds, f))
  {
    if !(feeds == [] || f.nextPoll < feeds[0].nextPoll) {
      var rest := feeds[1..];
      assert feeds == [feeds[0]] + rest;
      InsertKeeps(rest, f);
      assert forall g :: g in feeds <==> g == feeds[0] || g in rest;
      forall g | g in Insert(rest, f) ensures feeds[0].nextPoll <= g.nextPoll {
        if g != f { assert g in feeds; }
      }
      SortedCons(feeds[0], Insert(rest, f));
    }
  }

  lemma SortedCons(f: Feed, feeds: seq<Feed>)
    requires SortedByDue(feeds) && forall g <- feeds :: f.nextPoll <= g.nextPoll
    ensures SortedByDue([f] + feeds)
  {
  }

  lemma {:induction false} InsertDistinct(feeds: seq<Feed>, f: Feed)
    requires SortedByDue(feeds) && DistinctIds(feeds) && f.id !in Ids(feeds)
    ensures DistinctIds(Insert(feeds, f))
  {
    if feeds != [] && !(f.nextPoll < feeds[0].nextPoll) {
      var rest := feeds[1..];
      assert feeds == [feeds[0]] + rest;
      assert f.id !in Ids(rest) by { forall g | g in rest ensures g.id != f.id { assert g in feeds; } }
      InsertDistinct(rest, f);
      InsertKeeps(rest, f);
      assert feeds[0] in feeds;
      forall g | g in Insert(rest, f) ensures g.id != feeds[0].id {
        if g != f { assert g in rest; }
      }
    } else {
      forall g | g in feeds ensures g.id != f.id { assert g.id in Ids(feeds); }
    }
  }

  /** The feed table. */
  class FeedRepository {
    var rows: Rows

    /** Rows are stored under their ids. */
    ghost predicate Keyed()
      reads this
    {
      forall id <- rows :: rows[id].id == id
    }

    constructor ()
      ensures rows == map[] && Keyed()
    {
      rows := map[];
    }

    method GetDueForPoll(now: real, limit: nat) returns (due: seq<Feed>)
      requires Keyed()
      ensures IsSelection(rows, now, limit, due)
      ensures |due| <= limit && forall i, j :: 0 <= i < j < |due| ==> due[i].nextPoll <= due[j].nextPoll
      ensures forall f <- due :: f.id in rows && rows[f.id] == f && f.status == Active && f.nextPoll <= now
      ensures forall id <- rows :: rows[id].status == Active && rows[id].nextPoll <= now && rows[id] !in due ==>
        |due| == limit && forall f <- due :: f.nextPoll <= rows[id].nextPoll
    {
      due := [];
      var todo := rows.Keys;
      while todo != {}
        invariant todo <= rows.Keys
        invariant SortedByDue(due) && DistinctIds(due) && DueRows(rows, now, due)
        invariant Ids(due) !! todo
        invariant forall id <- rows :: id !in todo && IsDue(rows[id], now) ==> rows[id] in due
      {
        var id :| id in todo;
        todo := todo - {id};
        if IsDue(rows[id], now) {
          InsertKeeps(due, rows[id]);
          InsertDistinct(due, rows[id]);
          due := Insert(due, rows[id]);
        }
      }
      if |due| > limit {
        CutIsMostOverdue(rows, now, limit, due);
        due := due[..limit];
      }
    }

    method UpdatePollState(id: string, lastPolled: real, nextPoll: real, etag: Option<string>,
                           lastModified: Option<string>, articleCountDelta: nat) returns (found: bool)
      modifies this
      ensures found == (id in old(rows)) && (old(Keyed()) ==> Keyed())
      ensures rows == if !found then old(rows) else old(rows)[id := old(rows)[id].(
          lastPolled := Some(lastPolled), nextPoll := nextPoll, etag := etag, lastModified := lastModified,
          articleCount := old(rows)[id].articleCount + articleCountDelta, errorCount := 0, lastError := None)]
    {
      found := id in rows;
      if found {
        var row := rows[id];
        rows := rows[id := row.(
          lastPolled := Some(lastPolled), nextPoll := nextPoll, etag := etag, lastModified := lastModified,
          articleCount := row.articleCount + articleCountDelta, errorCount := 0, lastError := None)];
      }
    }

    method UpdateErrorState(id: string, errorCount: nat, lastError: string, status: Status, nextPoll: real)
      returns (found: bool)
      modifies this
      ensures found == (id in old(rows)) && (old(Keyed()) ==> Keyed())
      ensures rows == if !found then old(rows) else old(rows)[id := old(rows)[id].(
          errorCount := errorCount, lastError := Some(lastError), status := status, nextPoll := nextPoll)]
    {
      found := id in rows;
      if found {
        rows := rows[id := rows[id].(
          errorCount := errorCount, lastError := Some(lastError), status := status, nextPoll := nextPoll)];
      }
    }
  }

  lemma CutIsMostOverdue(rows: Rows, now: real, limit: nat, due: seq<Feed>)
    requires SortedByDue(due) && DistinctIds(due) && DueRows(rows, now, due)
    requires forall id <- rows :: IsDue(rows[id], now) ==> rows[id] in due
    requires limit < |due| && forall id <- rows :: rows[id].id == id
    ensures IsSelection(rows, now, limit, due[..limit])
  {
    forall id, f | id in rows && IsDue(rows[id], now) && id !in Ids(due[..limit]) && f in due[..limit]
      ensures f.nextPoll <= rows[id].nextPoll
    {
      var i :| 0 <= i < limit && due[i] == f;
      var j :| 0 <= j < |due| && due[j] == rows[id];
      assert forall k :: 0 <= k < limit ==> due[k].id in Ids(due[..limit]) by {
        forall k | 0 <= k < limit ensures due[k].id in Ids(due[..limit]) { assert due[..limit][k] == due[k]; }
      }
    }
  }

  // ---- runs of the scheduler ---------------------------------------------------------------

  /** One cycle of the scheduler: the instant of the query, the feeds chosen, and how each poll went. */
  datatype Cycle = Cycle(now: real, due: seq<Feed>, polls: map<string, Poll>)

  function Served(rows: Rows, c: Cycle): Rows {
    map id | id in rows ::
      if id in Ids(c.due) && id in c.polls then AfterPoll(rows[id], c.polls[id]) else rows[id]
  }

  /** Every chosen feed is polled, no earlier than the query. */
  predicate ValidCycle(rows: Rows, limit: nat, c: Cycle) {
    && IsSelection(rows, c.now, limit, c.due)
    && forall id <- Ids(c.due) :: id in c.polls && c.polls[id].at >= c.now
  }

  predicate ValidRun(rows: Rows, limit: nat, cycles: seq<Cycle>) {
    cycles == [] ||
    (&& ValidCycle(rows, limit, cycles[0])
     && (|cycles| > 1 ==> cycles[0].now <= cycles[1].now)
     && ValidRun(Served(rows, cycles[0]), limit, cycles[1..]))
  }

  predicate WellFormed(rows: Rows) {
    forall id <- rows :: rows[id].id == id && rows[id].interval >= 30
  }

  /** The other active feeds at least as overdue as `id`. */
  function Ahead(rows: Rows, id: string): set<string>
    requires id in rows
  {
    set other | other in rows && other != id && rows[other].status == Active && rows[other].nextPoll <= rows[id].nextPoll
  }

  lemma PollMovesOn(feed: Feed, p: Poll, now: real)
    requires feed.interval >= 30 && p.at >= now
    ensures AfterPoll(feed, p).nextPoll > now && AfterPoll(feed, p).interval == feed.interval
  {
    Pow2Positive(feed.interval, feed.errorCount + 1);
  }

  lemma Pow2Positive(interval: nat, errors: nat)
    requires interval >= 1
    ensures Backoff(interval, errors) >= 1
  {
  }

  lemma ServedIsWellFormed(rows: Rows, c: Cycle)
    requires WellFormed(rows)
    ensures WellFormed(Served(rows, c))
  {
  }

  /** In a cycle that leaves a due feed waiting, `limit` of those ahead of it fall behind it, and
      none overtakes it. */
  lemma ServedFallBehind(rows: Rows, limit: nat, c: Cycle, id: string)
    requires WellFormed(rows) && ValidCycle(rows, limit, c)
    requires id in rows && IsDue(rows[id], c.now) && id !in Ids(c.due)
    ensures Served(rows, c)[id] == rows[id]
    ensures |c.due| == limit && Ids(c.due) <= Ahead(rows, id)
    ensures Ahead(Served(rows, c), id) == Ahead(rows, id) - Ids(c.due)
  {
    var next := Served(rows, c);
    forall other | other in Ids(c.due) ensures other in Ahead(rows, id) && other !in Ahead(next, id) {
      var f :| f in c.due && f.id == other;
      assert rows[other] == f;
      PollMovesOn(f, c.polls[other], c.now);
    }
    forall other | other !in Ids(c.due) ensures other in Ahead(next, id) <==> other in Ahead(rows, id) {
    }
  }

  lemma {:induction false} IdsSize(feeds: seq<Feed>)
    requires DistinctIds(feeds)
    ensures |Ids(feeds)| == |feeds|
  {
    if feeds == [] {
      assert Ids(feeds) == {};
    } else {
      var n := |feeds| - 1;
      IdsSize(feeds[..n]);
      assert feeds == feeds[..n] + [feeds[n]];
      assert Ids(feeds) == Ids(feeds[..n]) + {feeds[n].id};
    }
  }

  lemma SetMinusSize(a: set<string>, b: set<string>)
    requires b <= a
    ensures |a - b| == |a| - |b|
  {
    assert a == (a - b) + b;
  }

  lemma DivideLess(n: nat, limit: nat)
    requires 1 <= limit <= n
    ensures (n - limit) / limit == n / limit - 1
  {
    DivPlus(1, n - limit, limit);
  }

  /** No starvation: in any run of the scheduler, whatever the outcomes of the polls and however
      ties are broken, a due feed with n active feeds at least as overdue is polled within
      n / limit + 1 cycles. */
  lemma {:induction false} NoStarvation(rows: Rows, limit: nat, cycles: seq<Cycle>, id: string)
    requires WellFormed(rows) && ValidRun(rows, limit, cycles) && limit >= 1
    requires id in rows && |cycles| > |Ahead(rows, id)| / limit
    requires IsDue(rows[id], cycles[0].now)
    ensures PolledWithin(cycles, |Ahead(rows, id)| / limit, id)
    decreases |cycles|
  {
    if id in Ids(cycles[0].due) {
      assert |Ahead(rows, id)| / limit >= 0;
    } else {
      var next := Served(rows, cycles[0]);
      WaitShortens(rows, limit, cycles[0], id);
      ServedIsWellFormed(rows, cycles[0]);
      NoStarvation(next, limit, cycles[1..], id);
      LaterCycles(cycles, |Ahead(next, id)| / limit, id);
    }
  }

  predicate PolledWithin(cycles: seq<Cycle>, last: int, id: string) {
    exists k :: 0 <= k <= last && k < |cycles| && id in Ids(cycles[k].due)
  }

  lemma LaterCycles(cycles: seq<Cycle>, last: int, id: string)
    requires cycles != [] && PolledWithin(cycles[1..], last, id)
    ensures PolledWithin(cycles, last + 1, id)
  {
    var k :| 0 <= k <= last && k < |cycles[1..]| && id in Ids(cycles[1..][k].due);
    assert cycles[1..][k] == cycles[k + 1];
  }

  lemma WaitShortens(rows: Rows, limit: nat, c: Cycle, id: string)
    requires WellFormed(rows) && ValidCycle(rows, limit, c) && limit >= 1
    requires id in rows && IsDue(rows[id], c.now) && id !in Ids(c.due)
    ensures Served(rows, c)[id] == rows[id]
    ensures |Ahead(Served(rows, c), id)| / limit == |Ahead(rows, id)| / limit - 1 >= 0
  {
    var n := |Ahead(rows, id)|;
    ServedFallBehind(rows, limit, c, id);
    IdsSize(c.due);
    SetMinusSize(Ahead(rows, id), Ids(c.due));
    DivideLess(n, limit);
    Quotient(n, limit);
  }

  lemma Quotient(n: nat, limit: nat)
    requires 1 <= limit <= n
    ensures n / limit >= 1
  {
  }

  // ---- one feed's life ---------------------------------------------------------------------

  predicate Fails(p: Poll) {
    p.result.Failed?
  }

  /** Polls of one feed, each of them made when it was due. */
  predicate PolledWhenDue(feed: Feed, polls: seq<Poll>) {
    polls == [] ||
    (var n := |polls| - 1;
     PolledWhenDue(feed, polls[..n]) && IsDue(AfterPolls(feed, polls[..n]), polls[n].at))
  }

  function AfterPolls(feed: Feed, polls: seq<Poll>): Feed {
    if polls == [] then feed else AfterPoll(AfterPolls(feed, polls[..|polls| - 1]), polls[|polls| - 1])
  }

  /** How many of the last polls failed in a row. */
  function Failures(polls: seq<Poll>): nat {
    if polls == [] || !Fails(polls[|polls| - 1]) then 0 else Failures(polls[..|polls| - 1]) + 1
  }

  predicate Fresh(feed: Feed) {
    feed.status == Active && feed.errorCount == 0 && feed.interval >= 30
  }

  /** From a fresh feed: the stored count is the number of consecutive failures, the feed goes to
      ERROR exactly at the fifth, and never gets past it. */
  lemma {:induction false} ErrorAfterFiveFailures(feed: Feed, polls: seq<Poll>)
    requires Fresh(feed) && PolledWhenDue(feed, polls)
    ensures var f := AfterPolls(feed, polls);
      && f.errorCount == Failures(polls) <= 5
      && f.status == (if Failures(polls) == 5 then Error else Active)
      && f.interval == feed.interval
  {
    if polls != [] { ErrorAfterFiveFailures(feed, polls[..|polls| - 1]); }
  }

  /** Once five polls in a row have failed there is no further poll. */
  lemma NeverDueAgain(feed: Feed, polls: seq<Poll>, more: seq<Poll>)
    requires Fresh(feed) && PolledWhenDue(feed, polls + more)
    requires Failures(polls) == 5
    ensures more == []
  {
    if more != [] {
      DuePrefix(feed, polls + more, |polls| + 1);
      assert (polls + more)[..|polls| + 1] == polls + [more[0]];
      assert (polls + [more[0]])[..|polls|] == polls;
      ErrorAfterFiveFailures(feed, polls);
      assert false;
    }
  }

  lemma {:induction false} DuePrefix(feed: Feed, polls: seq<Poll>, k: nat)
    requires PolledWhenDue(feed, polls) && k <= |polls|
    ensures PolledWhenDue(feed, polls[..k])
  {
    if k < |polls| {
      var n := |polls| - 1;
      DuePrefix(feed, polls[..n], k);
      assert polls[..n][..k] == polls[..k];
    } else {
      assert polls[..k] == polls;
    }
  }

  function Delay(feed: Feed, polls: seq<Poll>): nat {
    if Failures(polls) == 0 then feed.interval else Backoff(feed.interval, Failures(polls))
  }

  /** The next poll is set the interval ahead after a success, and a doubling, capped delay ahead
      after a failure. */
  lemma NextPollAt(feed: Feed, polls: seq<Poll>)
    requires Fresh(feed) && PolledWhenDue(feed, polls) && polls != []
    ensures AfterPolls(feed, polls).nextPoll == polls[|polls| - 1].at + Delay(feed, polls) as real
  {
    ErrorAfterFiveFailures(feed, polls[..|polls| - 1]);
  }

  lemma {:induction false} Pow2Grows(a: nat, b: nat)
    requires a <= b
    ensures Pow2(a) <= Pow2(b)
  {
    if a < b { Pow2Grows(a, b - 1); }
  }

  /** Delays never shrink from one failure to the next, and a failing feed waits less than a healthy
      one exactly when its interval is over the cap. */
  lemma BackoffGrows(interval: nat, fewer: nat, more: nat)
    requires fewer <= more
    ensures Backoff(interval, fewer) <= Backoff(interval, more)
    ensures Backoff(interval, fewer) < interval <==> interval > 86_400
  {
    Pow2Grows(fewer, more);
    MulMono(Pow2(fewer), Pow2(more), interval);
    MulAtLeast(interval, Pow2(fewer));
    assert interval * Pow2(fewer) == Pow2(fewer) * interval && interval * Pow2(more) == Pow2(more) * interval;
  }

  /** Successive polls of a feed are at least its interval apart, or the cap if that is smaller. */
  lemma PollsAreSpaced(feed: Feed, polls: seq<Poll>, k: nat)
    requires Fresh(feed) && PolledWhenDue(feed, polls) && k + 1 < |polls|
    ensures polls[k + 1].at - polls[k].at >= (if feed.interval < 86_400 then feed.interval else 86_400) as real
  {
    var done := polls[..k + 1];
    DuePrefix(feed, polls, k + 1);
    DueAt(feed, polls, k + 1);
    assert done[|done| - 1] == polls[k];
    NextPollAt(feed, done);
    BackoffGrows(feed.interval, Failures(done), Failures(done));
    DelayAtLeast(feed, done);
  }

  lemma MulAtLeast(a: nat, p: nat)
    requires p >= 1
    ensures a * p >= a
  {
  }

  lemma DelayAtLeast(feed: Feed, polls: seq<Poll>)
    ensures Delay(feed, polls) >= (if feed.interval < MAX_BACKOFF then feed.interval else MAX_BACKOFF)
  {
    MulAtLeast(feed.interval, Pow2(Failures(polls)));
  }

  lemma DueAt(feed: Feed, polls: seq<Poll>, k: nat)
    requires PolledWhenDue(feed, polls) && k < |polls|
    ensures AfterPolls(feed, polls[..k]).nextPoll <= polls[k].at
  {
    DuePrefix(feed, polls, k + 1);
    assert polls[..k + 1][..k] == polls[..k];
  }

  function Emitted(polls: seq<Poll>): nat {
    if polls == [] then 0
    else Emitted(polls[..|polls| - 1]) + (var r := polls[|polls| - 1].result; if r.Fetched? then r.emitted else 0)
  }

  /** The stored item count is what the successful polls emitted. */
  lemma {:induction false} ArticleCountAddsUp(feed: Feed, polls: seq<Poll>)
    ensures AfterPolls(feed, polls).articleCount == feed.articleCount + Emitted(polls)
  {
    if polls != [] { ArticleCountAddsUp(feed, polls[..|polls| - 1]); }
  }

  // ---- what the row remembers --------------------------------------------------------------

  /** Poll `i` is the last one that fetched a document. */
  predicate LastFetched(polls: seq<Poll>, i: int) {
    0 <= i < |polls| && polls[i].result.Fetched? && forall j :: i < j < |polls| ==> !polls[j].result.Fetched?
  }

  predicate LastSuccess(polls: seq<Poll>, i: int) {
    0 <= i < |polls| && !polls[i].result.Failed? && forall j :: i < j < |polls| ==> polls[j].result.Failed?
  }

  lemma LastOfFront(polls: seq<Poll>, i: int)
    requires polls != []
    ensures !polls[|polls| - 1].result.Fetched? ==> (LastFetched(polls, i) <==> LastFetched(polls[..|polls| - 1], i))
    ensures polls[|polls| - 1].result.Failed? ==> (LastSuccess(polls, i) <==> LastSuccess(polls[..|polls| - 1], i))
    ensures polls[|polls| - 1].result.Fetched? ==> (LastFetched(polls, i) <==> i == |polls| - 1)
    ensures !polls[|polls| - 1].result.Failed? ==> (LastSuccess(polls, i) <==> i == |polls| - 1)
  {
    var front := polls[..|polls| - 1];
    assert forall j :: 0 <= j < |front| ==> front[j] == polls[j];
  }

  /** The validators of the next conditional request are those of the last document, each in its own column;
      a 304 and a failure leave them alone. */
  lemma {:induction false} ValidatorsExactly(feed: Feed, polls: seq<Poll>, i: int)
    ensures LastFetched(polls, i) ==>
      AfterPolls(feed, polls).etag == polls[i].result.etag && AfterPolls(feed, polls).lastModified == polls[i].result.lastModified
    ensures (forall j :: 0 <= j < |polls| ==> !polls[j].result.Fetched?) ==>
      AfterPolls(feed, polls).etag == feed.etag && AfterPolls(feed, polls).lastModified == feed.lastModified
  {
    if polls != [] {
      ValidatorsExactly(feed, polls[..|polls| - 1], i);
      LastOfFront(polls, i);
    }
  }

  /** `last_polled_at` is the time of the last poll that did not fail, and `last_error` says whether and how the
      last poll failed. */
  lemma {:induction false} LastPollExactly(feed: Feed, polls: seq<Poll>, i: int)
    ensures LastSuccess(polls, i) ==> AfterPolls(feed, polls).lastPolled == Some(polls[i].at)
    ensures (forall j :: 0 <= j < |polls| ==> polls[j].result.Failed?) ==> AfterPolls(feed, polls).lastPolled == feed.lastPolled
    ensures polls != [] && polls[|polls| - 1].result.Failed? ==>
      AfterPolls(feed, polls).lastError == Some(polls[|polls| - 1].result.error)
    ensures polls != [] && !polls[|polls| - 1].result.Failed? ==> AfterPolls(feed, polls).lastError == None
  {
    if polls != [] {
      LastPollExactly(feed, polls[..|polls| - 1], i);
      LastOfFront(polls, i);
    }
  }

  const POWERS: seq<nat> := [1, 2, 4, 8, 16, 32]

  /** The next poll of a feed that started afresh: the interval after a success, and after the first to fifth
      failure in a row 2, 4, 8, 16 or 32 times the interval, but at most a day. */
  lemma NextPollInNumbers(feed: Feed, polls: seq<Poll>)
    requires Fresh(feed) && PolledWhenDue(feed, polls) && polls != []
    ensures Failures(polls) <= 5
    ensures var wait := AfterPolls(feed, polls).nextPoll - polls[|polls| - 1].at;
      if Failures(polls) == 0 then wait == feed.interval as real
      else if feed.interval * POWERS[Failures(polls)] < 86_400 then wait == (feed.interval * POWERS[Failures(polls)]) as real
      else wait == 86_400.0
  {
    NextPollAt(feed, polls);
    ErrorAfterFiveFailures(feed, polls);
    var n := Failures(polls);
    assert Pow2(n) == POWERS[n] by {
      assert Pow2(1) == 2 && Pow2(2) == 4 && Pow2(3) == 8 && Pow2(4) == 16 && Pow2(5) == 32;
    }
  }
}

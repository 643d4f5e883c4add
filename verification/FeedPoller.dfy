/** The feed poller: one poll of a feed, and a cycle in which up to ten polls run at once. */
module FeedPoller {
  import opened Options
  import opened FeedTraces
  import S = SeenGuids
  import F = Feeds

  const BATCH_LIMIT: nat := 50
  const MAX_CONCURRENCY: nat := 10

  class FeedManager {
    const repo: F.FeedRepository
    const seen: S.SeenGuidCache
    /** The keys of the items handed to the event bus. */
    var published: seq<string>

    constructor (repo: F.FeedRepository, seen: S.SeenGuidCache)
      ensures this.repo == repo && this.seen == seen && published == []
    {
      this.repo := repo;
      this.seen := seen;
      published := [];
    }

    /** The body of the entry loop: check, skip, mark as seen, publish. */
    method LookAt(e: S.Entry, raises: bool) returns (emits: bool)
      modifies this, seen
      ensures emits == S.Emits(old(seen.keys), e)
      ensures seen.keys == S.AfterEntry(old(seen.keys), seen.maxsize, e)
      ensures published == old(published) + if emits && !raises then [e.key.value] else []
      ensures emits <==> e.key.Some? && e.key.value !in old(seen.keys) && e.hasLink
      ensures e.key.None? || (e.key.value !in old(seen.keys) && !e.hasLink) ==> seen.keys == old(seen.keys)
      ensures e.key.Some? && (e.key.value in old(seen.keys) || (e.hasLink && seen.maxsize >= 1)) ==>
        seen.keys != [] && seen.keys[|seen.keys| - 1] == e.key.value
    {
      if e.key.None? { return false; }
      var known := seen.Contains(e.key.value);
      if known || !e.hasLink { return false; }
      seen.Add(e.key.value);
      if !raises { published := published + [e.key.value]; }
      emits := true;
    }

    /** The end of a poll: the outcome goes to the feed's row, unless the writes raise. In plain terms: a document
        all of whose publishes arrived, and a 304, move the feed on; all else counts as a failure, with the text of
        what was raised, and the fifth failure in a row puts the feed into ERROR. */
    method Finish(feed: F.Feed, s: Surroundings, emitted: nat) returns (poll: Option<F.Poll>)
      modifies repo
      ensures poll == PollOf(s, emitted)
      ensures repo.rows == if poll.None? || feed.id !in old(repo.rows) then old(repo.rows)
                           else old(repo.rows)[feed.id := F.PollWrites(old(repo.rows)[feed.id], feed, poll.value)]
      ensures old(repo.Keyed()) ==> repo.Keyed()
      ensures feed.id in old(repo.rows) && s.reply.Document? && !Raised(s, emitted) && s.updateFails.None? ==>
        repo.rows == old(repo.rows)[feed.id := old(repo.rows)[feed.id].(
          lastPolled := Some(s.at), nextPoll := s.at + feed.interval as real, errorCount := 0, lastError := None,
          etag := s.reply.etag, lastModified := s.reply.lastModified,
          articleCount := old(repo.rows)[feed.id].articleCount + emitted)]
      ensures feed.id in old(repo.rows) && s.reply.NotModified? && s.updateFails.None? ==>
        repo.rows == old(repo.rows)[feed.id := old(repo.rows)[feed.id].(
          lastPolled := Some(s.at), nextPoll := s.at + feed.interval as real, errorCount := 0, lastError := None,
          etag := feed.etag, lastModified := feed.lastModified)]
      ensures feed.id in old(repo.rows) && FailsWith(s, emitted).Some? && !s.errorUpdateFails ==>
        repo.rows == old(repo.rows)[feed.id := old(repo.rows)[feed.id].(
          errorCount := feed.errorCount + 1, lastError := FailsWith(s, emitted),
          nextPoll := s.at + F.Backoff(feed.interval, feed.errorCount + 1) as real,
          status := if feed.errorCount + 1 >= 5 then F.Error else feed.status)]
      ensures feed.id !in old(repo.rows) || (FailsWith(s, emitted).Some? && s.errorUpdateFails) ==> repo.rows == old(repo.rows)
    {
      var found;
      var error := "RetryableError";
      var updated := false;
      match s.reply {
        case NotModified =>
          if s.updateFails.None? {
            found := repo.UpdatePollState(feed.id, s.at, s.at + feed.interval as real, feed.etag, feed.lastModified, 0);
            return Some(F.Poll(s.at, F.NotModified));
          }
          error := s.updateFails.value;
        case Document(_, etag, lastModified) =>
          if !Broken(s, emitted) {
            if s.updateFails.None? {
              found := repo.UpdatePollState(feed.id, s.at, s.at + feed.interval as real, etag, lastModified, emitted);
              return Some(F.Poll(s.at, F.Fetched(etag, lastModified, emitted)));
            }
            error := s.updateFails.value;
          }
        case Unreachable(e) =>
          error := e;
      }
      if s.errorUpdateFails { return None; }
      var errors := feed.errorCount + 1;
      var status := if errors >= F.MAX_ERRORS then F.Error else feed.status;
      found := repo.UpdateErrorState(feed.id, errors, error, status, s.at + F.Backoff(feed.interval, errors) as real);
      poll := Some(F.Poll(s.at, F.Failed(error)));
    }

    /** The entry loop of one uninterrupted poll. */
    method Scan(id: string, surroundings: string -> Surroundings) returns (newCount: nat, trace: seq<Look>)
      modifies this, seen
      ensures forall i :: 0 <= i < |trace| ==> trace[i].id == id
      ensures InOrder(old(seen.keys), seen.maxsize, surroundings, trace, id)
      ensures Ended(old(seen.keys), seen.maxsize, surroundings, trace, id)
      ensures newCount == Emitted(old(seen.keys), seen.maxsize, trace, id)
      ensures seen.keys == S.AfterEntries(old(seen.keys), seen.maxsize, Plain(trace))
      ensures published == old(published) + Handed(old(seen.keys), seen.maxsize, surroundings, trace)
    {
      ghost var keys := seen.keys;
      var es := EntriesOf(surroundings(id));
      newCount, trace := 0, [];
      while |trace| < |es| && !Broken(surroundings(id), newCount)
        invariant ScansSoFar(keys, seen.maxsize, surroundings, trace, id, newCount)
        invariant seen.keys == S.AfterEntries(keys, seen.maxsize, Plain(trace))
        invariant published == old(published) + Handed(keys, seen.maxsize, surroundings, trace)
        decreases |es| - |trace|
      {
        var l := Look(id, es[|trace|]);
        ScanGrows(keys, seen.maxsize, surroundings, trace, id, newCount);
        var emits := LookNext(l, surroundings, keys, old(published), trace, newCount);
        trace := trace + [l];
        newCount := newCount + if emits then 1 else 0;
      }
    }

    /** One poll of a feed with no other poll in between. */
    method ProcessFeed(feed: F.Feed, surroundings: string -> Surroundings) returns (poll: Option<F.Poll>, trace: seq<Look>)
      modifies this, seen, repo
      ensures InOrder(old(seen.keys), seen.maxsize, surroundings, trace, feed.id)
      ensures Ended(old(seen.keys), seen.maxsize, surroundings, trace, feed.id)
      ensures poll == PollOf(surroundings(feed.id), Emitted(old(seen.keys), seen.maxsize, trace, feed.id))
      ensures repo.rows == if poll.None? || feed.id !in old(repo.rows) then old(repo.rows)
                           else old(repo.rows)[feed.id := F.PollWrites(old(repo.rows)[feed.id], feed, poll.value)]
      ensures seen.keys == S.AfterEntries(old(seen.keys), seen.maxsize, Plain(trace))
      ensures published == old(published) + Handed(old(seen.keys), seen.maxsize, surroundings, trace)
    {
      var newCount;
      newCount, trace := Scan(feed.id, surroundings);
      poll := Finish(feed, surroundings(feed.id), newCount);
    }

    /** A running poll looks at its next entry; `ended` when that raised or when there was none left. */
    method Advance(id: string, surroundings: string -> Surroundings, ghost keys: seq<string>, ghost handed: seq<string>, p: Progress)
      returns (q: Progress, ended: bool)
      requires Steady(keys, seen.maxsize, surroundings, p) && id in p.running
      requires seen.keys == S.AfterEntries(keys, seen.maxsize, Plain(p.trace))
      requires published == handed + Handed(keys, seen.maxsize, surroundings, p.trace)
      modifies this, seen
      ensures q.running == p.running && q.finished == p.finished && q.polls == p.polls
      ensures LookedOn(surroundings, p, q, id) && (!ended ==> q.looked != p.looked)
      ensures if ended then AllButOne(keys, seen.maxsize, surroundings, q, id) else Steady(keys, seen.maxsize, surroundings, q)
      ensures seen.keys == S.AfterEntries(keys, seen.maxsize, Plain(q.trace))
      ensures published == handed + Handed(keys, seen.maxsize, surroundings, q.trace)
    {
      var es := EntriesOf(surroundings(id));
      assert RunningOk(keys, seen.maxsize, surroundings, p, id);
      if p.looked[id] >= |es| {
        AllLooked(keys, seen.maxsize, surroundings, p, id);
        return p, true;
      }
      var e := es[p.looked[id]];
      assert p.newCount[id] == Emitted(keys, seen.maxsize, p.trace, id);
      var emits := LookNext(Look(id, e), surroundings, keys, handed, p.trace, p.newCount[id]);
      LookKeeps(keys, seen.maxsize, surroundings, p, id, e, emits);
      q := AfterLook(p, id, e, emits);
      ended := Broken(surroundings(id), q.newCount[id]);
    }

    method LookNext(l: Look, surroundings: string -> Surroundings, ghost keys: seq<string>, ghost handed: seq<string>,
                    ghost trace: seq<Look>, newCount: nat)
      returns (emits: bool)
      requires seen.keys == S.AfterEntries(keys, seen.maxsize, Plain(trace))
      requires published == handed + Handed(keys, seen.maxsize, surroundings, trace)
      requires newCount == Emitted(keys, seen.maxsize, trace, l.id)
      modifies this, seen
      ensures emits == S.Emits(S.AfterEntries(keys, seen.maxsize, Plain(trace)), l.entry)
      ensures seen.keys == S.AfterEntries(keys, seen.maxsize, Plain(trace + [l]))
      ensures published == handed + Handed(keys, seen.maxsize, surroundings, trace + [l])
    {
      TraceGrows(keys, seen.maxsize, surroundings, trace, l);
      emits := LookAt(l.entry, newCount in surroundings(l.id).publishFails);
    }

    /** A running poll moves on, and settles if that was its end. */
    method TakeTurn(id: string, surroundings: string -> Surroundings, ghost keys: seq<string>, ghost handed: seq<string>,
                    ghost now: real, due: seq<F.Feed>, ghost rows: F.Rows, p: Progress)
      returns (q: Progress)
      requires Underway(surroundings, keys, handed, now, due, rows, p) && id in p.running && id in F.Ids(due)
      modifies this, seen, repo
      ensures Underway(surroundings, keys, handed, now, due, rows, q) && MovedOn(F.Ids(due), surroundings, p, q)
    {
      var ended;
      q, ended := Advance(id, surroundings, keys, handed, p);
      if ended {
        ghost var looked := q;
        q := Settle(id, surroundings, keys, now, due, rows, q);
        SettledMovedOn(F.Ids(due), surroundings, p, looked, q, id);
      } else {
        LookingShrinks(F.Ids(due), surroundings, p, q, id);
      }
    }

    /** A poll that has come to its end writes its outcome. */
    method Settle(id: string, surroundings: string -> Surroundings, ghost keys: seq<string>, ghost now: real, due: seq<F.Feed>,
                  ghost rows: F.Rows, p: Progress)
      returns (q: Progress)
      requires AllButOne(keys, seen.maxsize, surroundings, p, id) && id in F.Ids(due)
      requires F.DistinctIds(due) && F.DueRows(rows, now, due) && repo.Keyed()
      requires repo.rows == F.Served(rows, F.Cycle(now, due, p.polls))
      modifies repo
      ensures Steady(keys, seen.maxsize, surroundings, q) && q.trace == p.trace && q.looked == p.looked
      ensures q.running == p.running - {id} && q.finished == p.finished + {id}
      ensures repo.rows == F.Served(rows, F.Cycle(now, due, q.polls)) && repo.Keyed()
    {
      var feed := FeedOf(due, id);
      ServedOneMore(rows, now, due, feed, p.polls);
      FinishKeeps(keys, seen.maxsize, surroundings, p, id);
      var poll := Finish(feed, surroundings(id), p.newCount[id]);
      q := AfterFinish(p, id, poll);
    }

    /** The stores, while polls are in progress. */
    ghost predicate Underway(surroundings: string -> Surroundings, keys: seq<string>, handed: seq<string>, now: real,
                             due: seq<F.Feed>, rows: F.Rows, p: Progress)
      reads this, seen, repo
    {
      && Steady(keys, seen.maxsize, surroundings, p)
      && seen.keys == S.AfterEntries(keys, seen.maxsize, Plain(p.trace))
      && published == handed + Handed(keys, seen.maxsize, surroundings, p.trace)
      && F.DistinctIds(due) && F.DueRows(rows, now, due) && repo.Keyed()
      && repo.rows == F.Served(rows, F.Cycle(now, due, p.polls))
    }

    /** A chosen feed's poll begins. */
    method Begin(i: nat, surroundings: string -> Surroundings, ghost keys: seq<string>, ghost handed: seq<string>,
                 ghost now: real, due: seq<F.Feed>, ghost rows: F.Rows, p: Progress)
      returns (q: Progress)
      requires Underway(surroundings, keys, handed, now, due, rows, p)
      requires i < |due| && p.running + p.finished == F.Ids(due[..i]) && |p.running| < 10
      ensures Underway(surroundings, keys, handed, now, due, rows, q) && q.running + q.finished == F.Ids(due[..i + 1])
    {
      NextStarts(keys, seen.maxsize, surroundings, p, due, i);
      q := AfterStart(p, due[i].id);
    }

    /** Up to ten polls at once; they take turns entry by entry, in any order. */
    method RunPolls(surroundings: string -> Surroundings, ghost now: real, due: seq<F.Feed>) returns (p: Progress)
      requires F.DistinctIds(due) && F.DueRows(repo.rows, now, due) && repo.Keyed()
      modifies this, seen, repo
      ensures Underway(surroundings, old(seen.keys), old(published), now, due, old(repo.rows), p)
      ensures p.running == {} && p.finished == F.Ids(due)
    {
      ghost var keys, handed, rows := seen.keys, published, repo.rows;
      var begun := 0;
      p := Progress([], map[], map[], {}, {}, map[]);
      while begun < |due| || p.running != {}
        invariant begun <= |due| && p.running + p.finished == F.Ids(due[..begun])
        invariant Underway(surroundings, keys, handed, now, due, rows, p)
        decreases |due| - begun, Unlooked(F.Ids(due), surroundings, p), p.running
      {
        if begun < |due| && |p.running| < MAX_CONCURRENCY {
          p := Begin(begun, surroundings, keys, handed, now, due, rows, p);
          begun := begun + 1;
        } else {
          var id :| id in p.running;
          IdsOfPrefix(due, begun);
          p := TakeTurn(id, surroundings, keys, handed, now, due, rows, p);
        }
      }
      assert due[..|due|] == due;
    }

    /** One cycle: ask for the due feeds and poll them. */
    method PollCycle(now: real, surroundings: string -> Surroundings) returns (cycle: F.Cycle, trace: seq<Look>)
      requires repo.Keyed()
      modifies this, seen, repo
      ensures cycle.now == now && F.IsSelection(old(repo.rows), now, 50, cycle.due)
      ensures RanAll(old(seen.keys), seen.maxsize, surroundings, trace, F.Ids(cycle.due), cycle.polls)
      ensures seen.keys == S.AfterEntries(old(seen.keys), seen.maxsize, Plain(trace))
      ensures published == old(published) + Handed(old(seen.keys), seen.maxsize, surroundings, trace)
      ensures repo.rows == F.Served(old(repo.rows), cycle) && repo.Keyed()
    {
      var due := repo.GetDueForPoll(now, BATCH_LIMIT);
      var p := RunPolls(surroundings, now, due);
      cycle, trace := F.Cycle(now, due, p.polls), p.trace;
    }
  }

  /** One of the publishes so far raised. */
  predicate Raised(s: Surroundings, emitted: nat) {
    exists n <- s.publishFails :: n < emitted
  }

  /** What ends the poll, if something was raised: by the fetch, by a publish, or by the update of the row. */
  function FailsWith(s: Surroundings, emitted: nat): Option<string> {
    if s.reply.Unreachable? then Some(s.reply.error)
    else if s.reply.Document? && Raised(s, emitted) then Some("RetryableError")
    else s.updateFails
  }

  /** The invariant of the entry loop. */
  ghost predicate ScansSoFar(keys: seq<string>, maxsize: int, surroundings: string -> Surroundings, trace: seq<Look>, id: string, newCount: nat) {
    && |trace| <= |EntriesOf(surroundings(id))| && Own(trace, id) == EntriesOf(surroundings(id))[..|trace|]
    && (forall i :: 0 <= i < |trace| ==> trace[i].id == id)
    && InOrder(keys, maxsize, surroundings, trace, id) && newCount == Emitted(keys, maxsize, trace, id)
  }

  lemma ScanGrows(keys: seq<string>, maxsize: int, surroundings: string -> Surroundings, trace: seq<Look>, id: string, newCount: nat)
    requires ScansSoFar(keys, maxsize, surroundings, trace, id, newCount)
    requires |trace| < |EntriesOf(surroundings(id))| && !Broken(surroundings(id), newCount)
    ensures var l := Look(id, EntriesOf(surroundings(id))[|trace|]);
      var emits := S.Emits(S.AfterEntries(keys, maxsize, Plain(trace)), l.entry);
      ScansSoFar(keys, maxsize, surroundings, trace + [l], id, newCount + if emits then 1 else 0)
  {
    var es := EntriesOf(surroundings(id));
    var l := Look(id, es[|trace|]);
    assert Own(trace + [l], id) == es[..|trace| + 1] by {
      OwnGrows(trace, l, id);
      assert es[..|trace|] + [l.entry] == es[..|trace| + 1];
    }
    EmittedGrows(keys, maxsize, trace, l, id);
    assert InOrder(keys, maxsize, surroundings, trace + [l], id) by {
      InOrderKept(keys, maxsize, surroundings, trace, l, id);
    }
  }

  function FeedOf(due: seq<F.Feed>, id: string): (f: F.Feed)
    requires id in F.Ids(due)
    ensures f in due && f.id == id
  {
    if due[0].id == id then due[0] else FeedOf(due[1..], id)
  }

  lemma NextBegins(due: seq<F.Feed>, i: nat, running: set<string>, finished: set<string>)
    requires F.DistinctIds(due) && i < |due| && running + finished == F.Ids(due[..i])
    ensures due[i].id !in running && due[i].id !in finished
    ensures running + {due[i].id} + finished == F.Ids(due[..i + 1])
  {
    assert due[i].id !in F.Ids(due[..i]);
    assert due[..i + 1] == due[..i] + [due[i]];
    assert F.Ids(due[..i + 1]) == F.Ids(due[..i]) + {due[i].id};
  }

  lemma NextStarts(keys: seq<string>, maxsize: int, surroundings: string -> Surroundings, p: Progress, due: seq<F.Feed>, i: nat)
    requires Steady(keys, maxsize, surroundings, p) && F.DistinctIds(due) && i < |due|
    requires p.running + p.finished == F.Ids(due[..i])
    ensures var q := AfterStart(p, due[i].id);
      Steady(keys, maxsize, surroundings, q) && q.running + q.finished == F.Ids(due[..i + 1])
  {
    NextBegins(due, i, p.running, p.finished);
    StartKeeps(keys, maxsize, surroundings, p, due[i].id);
  }

  /** A chosen feed that was not served yet still has the row it was chosen with. */
  lemma ServedOneMore(rows: F.Rows, now: real, due: seq<F.Feed>, f: F.Feed, polls: map<string, F.Poll>)
    requires F.DistinctIds(due) && F.DueRows(rows, now, due) && f in due && f.id !in polls
    ensures var served := F.Served(rows, F.Cycle(now, due, polls));
      && f.id in served && served[f.id] == f
      && forall poll :: F.Served(rows, F.Cycle(now, due, polls[f.id := poll])) == served[f.id := F.AfterPoll(f, poll)]
  {
    assert f.id in F.Ids(due);
  }

  /** The entries that no poll has looked at. */
  ghost function Unlooked(ids: set<string>, surroundings: string -> Surroundings, p: Progress): set<(string, nat)> {
    set id, k: nat | id in ids && k < |EntriesOf(surroundings(id))| && (id in p.looked ==> p.looked[id] <= k) :: (id, k)
  }

  predicate LookedOn(surroundings: string -> Surroundings, p: Progress, q: Progress, id: string) {
    || q.looked == p.looked
    || (id in p.looked && p.looked[id] < |EntriesOf(surroundings(id))| && q.looked == p.looked[id := p.looked[id] + 1])
  }

  lemma LookingShrinks(ids: set<string>, surroundings: string -> Surroundings, p: Progress, q: Progress, id: string)
    requires LookedOn(surroundings, p, q, id) && id in ids
    ensures Unlooked(ids, surroundings, q) <= Unlooked(ids, surroundings, p)
    ensures q.looked != p.looked ==> Unlooked(ids, surroundings, q) < Unlooked(ids, surroundings, p)
  {
    if q.looked != p.looked {
      assert (id, p.looked[id]) in Unlooked(ids, surroundings, p);
      assert (id, p.looked[id]) !in Unlooked(ids, surroundings, q);
    }
  }

  /** The poll looked further or came to its end. */
  ghost predicate MovedOn(ids: set<string>, surroundings: string -> Surroundings, p: Progress, q: Progress) {
    && q.running + q.finished == p.running + p.finished
    && (|| Unlooked(ids, surroundings, q) < Unlooked(ids, surroundings, p)
        || (Unlooked(ids, surroundings, q) == Unlooked(ids, surroundings, p) && q.running < p.running))
  }

  lemma SettledMovedOn(ids: set<string>, surroundings: string -> Surroundings, p: Progress, looked: Progress, q: Progress, id: string)
    requires LookedOn(surroundings, p, looked, id) && id in ids && id in p.running && p.running !! p.finished
    requires looked.running == p.running && looked.finished == p.finished && q.looked == looked.looked
    requires q.running == p.running - {id} && q.finished == p.finished + {id}
    ensures MovedOn(ids, surroundings, p, q)
  {
    LookingShrinks(ids, surroundings, p, looked, id);
    assert Unlooked(ids, surroundings, q) == Unlooked(ids, surroundings, looked);
    if looked.looked == p.looked { assert Unlooked(ids, surroundings, looked) == Unlooked(ids, surroundings, p); }
    assert id !in q.running;
  }

  lemma IdsOfPrefix(due: seq<F.Feed>, n: nat)
    requires n <= |due|
    ensures F.Ids(due[..n]) <= F.Ids(due)
  {
    forall f | f in due[..n] ensures f in due {
    }
  }

  /** What one more look does to the cache and to the published keys. */
  lemma TraceGrows(keys: seq<string>, maxsize: int, surroundings: string -> Surroundings, trace: seq<Look>, l: Look)
    ensures var now := S.AfterEntries(keys, maxsize, Plain(trace));
      && S.AfterEntries(keys, maxsize, Plain(trace + [l])) == S.AfterEntry(now, maxsize, l.entry)
      && Handed(keys, maxsize, surroundings, trace + [l])
         == Handed(keys, maxsize, surroundings, trace)
            + (if S.Emits(now, l.entry) && Emitted(keys, maxsize, trace, l.id) !in surroundings(l.id).publishFails
               then [l.entry.key.value] else [])
  {
    assert (trace + [l])[..|trace|] == trace;
    assert Plain(trace + [l])[..|trace|] == Plain(trace);
  }
}

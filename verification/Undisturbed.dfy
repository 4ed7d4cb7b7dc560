/**
 The interleaved worker with nobody in between: its moves, one store access each, come to what its own code does in
 one go.
 */
module Undisturbed {
  import opened Wrappers
  import opened Frontier
  import opened Backoff
  import opened MetadataStores
  import opened CrawlSystem
  import opened Tasks

  /** The table and one worker on it. */
  datatype Stand = Stand(rows: Store, worker: Worker)

  ghost function Moves(c: Crawl, at: Stand, now: Time, content: Content): Stand {
    var op := MoveOp(c, at.worker, now, content);
    Stand(if op.Some? then Apply(at.rows, op.value) else at.rows,
          at.worker.(pc := MovePc(c, at.rows, at.worker)))
  }

  /** That is a step of the crawl, as far as the table and this worker are concerned. */
  lemma MovesIsStep(c: Crawl, s: Sys, e: Event)
    requires Enabled(c, s, e) && e.Move?
    ensures var s' := Next(c, s, e);
      && e.worker in s'.workers
      && Moves(c, Stand(s.rows, s.workers[e.worker]), e.readAt, e.content) == Stand(s'.rows, s'.workers[e.worker])
  {
  }

  /** One move after another. */
  ghost predicate Path(c: Crawl, path: seq<Stand>, now: Time, content: Content) {
    path != [] && forall i | 0 < i < |path| :: path[i] == Moves(c, path[i - 1], now, content)
  }

  ghost predicate PathBetween(c: Crawl, path: seq<Stand>, start: Stand, end: Stand, now: Time, content: Content) {
    Path(c, path, now, content) && path[0] == start && path[|path| - 1] == end
  }

  lemma OneMore(c: Crawl, path: seq<Stand>, start: Stand, at: Stand, next: Stand, now: Time, content: Content)
    requires PathBetween(c, path, start, at, now, content) && next == Moves(c, at, now, content)
    ensures PathBetween(c, path + [next], start, next, now, content)
  {
  }

  // ---- The links of a page ----

  lemma ListMore(c: Crawl, rows: Store, links: seq<Url>, i: nat, depth: nat)
    requires i < |links|
    ensures EnqueueList(c, rows, links[..i + 1], depth)
         == EnqueueOne(c, EnqueueList(c, rows, links[..i], depth), links[i], depth)
  {
    assert links[..i + 1][..i] == links[..i];
  }

  /** A vetted link takes two moves, any other one a single move. */
  lemma LinkMoves(c: Crawl, rows: Store, lease: LeaseResult, links: seq<Url>, i: nat, now: Time, content: Content)
    requires i < |links| && !Chokes(c, links[i])
    ensures var at := Stand(rows, Worker(lease, Scanning(links, i)));
      var next := Moves(c, at, now, content);
      (if Vetted(c, rows, links[i], lease.depth + 1) then Moves(c, next, now, content) else next)
      == Stand(EnqueueOne(c, rows, links[i], lease.depth + 1), Worker(lease, Scanning(links, i + 1)))
  {
  }

  lemma LinkPath(c: Crawl, path: seq<Stand>, start: Stand, rows: Store, lease: LeaseResult, links: seq<Url>, i: nat,
                 now: Time, content: Content) returns (longer: seq<Stand>)
    requires i < |links| && !Chokes(c, links[i])
    requires PathBetween(c, path, start, Stand(rows, Worker(lease, Scanning(links, i))), now, content)
    ensures PathBetween(c, longer, start,
                  Stand(EnqueueOne(c, rows, links[i], lease.depth + 1), Worker(lease, Scanning(links, i + 1))),
                  now, content)
  {
    LinkMoves(c, rows, lease, links, i, now, content);
    var at := Stand(rows, Worker(lease, Scanning(links, i)));
    var next := Moves(c, at, now, content);
    OneMore(c, path, start, at, next, now, content);
    longer := path + [next];
    if Vetted(c, rows, links[i], lease.depth + 1) {
      var last := Moves(c, next, now, content);
      OneMore(c, longer, start, next, last, now, content);
      longer := longer + [last];
    }
  }

  lemma {:induction false} LinksPath(c: Crawl, rows: Store, lease: LeaseResult, links: seq<Url>, now: Time,
                                     content: Content, i: nat) returns (path: seq<Stand>)
    requires i <= Sound(c, links)
    ensures PathBetween(c, path, Stand(rows, Worker(lease, Scanning(links, 0))),
                  Stand(EnqueueList(c, rows, links[..i], lease.depth + 1), Worker(lease, Scanning(links, i))),
                  now, content)
  {
    var start := Stand(rows, Worker(lease, Scanning(links, 0)));
    if i == 0 {
      path := [start];
    } else {
      path := LinksPath(c, rows, lease, links, now, content, i - 1);
      ListMore(c, rows, links, i - 1, lease.depth + 1);
      path := LinkPath(c, path, start, EnqueueList(c, rows, links[..i - 1], lease.depth + 1), lease, links, i - 1, now,
                       content);
    }
  }

  // ---- What each outcome of a fetch comes to ----

  /** The row of a retry report: failed when its retries are used up, otherwise due after the wait of the next one. */
  function RetriedRow(c: Crawl, r: Row, why: string, now: Time): Row {
    var freed := r.(token := None, expiresAt := None, reason := Some(why));
    if r.retryCount >= c.maxRetries then freed.(state := Failed)
    else freed.(state := Retry, retryCount := r.retryCount + 1,
                nextRetryAt := Some(now + 1000 * Wait(r.retryCount + 1)))
  }

  /** The table once the outcome is reported. */
  ghost function Processed(c: Crawl, rows: Store, lease: LeaseResult, o: Outcome, now: Time, content: Content): Store {
    match o
    case Page(links) =>
      var stored := EnqueueAll(c, rows, links, lease.depth + 1);
      if Sound(c, links) < |links| then Apply(stored, MarkTerminal(lease.key, lease.token, Some("processing error")))
      else Apply(stored, Complete(lease.key, lease.token, content))
    case Moved(location) =>
      var hops := HopsOf(rows, lease.key);
      if hops >= c.maxRedirects then Apply(rows, MarkTerminal(lease.key, lease.token, Some("redirect loop detected")))
      else if TargetRefused(c, rows, lease, location, hops)
      then Apply(rows, MarkTerminal(lease.key, lease.token, Some("processing error")))
      else Apply(WithTarget(c, rows, lease, location, hops), Complete(lease.key, lease.token, NO_CONTENT))
    case Permanent(why) => Apply(rows, MarkTerminal(lease.key, lease.token, Some(why)))
    case Transient(why) =>
      if lease.key in rows && Holds(rows[lease.key], lease.token)
      then rows[lease.key := RetriedRow(c, rows[lease.key], why, now)] else rows
  }

  /** Where a worker that got the outcome stands in the end. */
  ghost function Done(c: Crawl, rows: Store, lease: LeaseResult, o: Outcome, now: Time, content: Content): Stand {
    Stand(Processed(c, rows, lease, o, now, content), Worker(lease, Reported))
  }

  lemma LastMoves(c: Crawl, rows: Store, lease: LeaseResult, pc: Pc, now: Time, content: Content)
    requires pc.Failing? || pc.Completing?
    ensures Moves(c, Stand(rows, Worker(lease, pc)), now, content)
         == Stand(Apply(rows, if pc.Failing? then MarkTerminal(lease.key, lease.token, Some(pc.why))
                              else Complete(lease.key, lease.token, if pc.page.Some? then content else NO_CONTENT)),
                  Worker(lease, Reported))
  {
  }

  lemma ScannedMoves(c: Crawl, rows: Store, lease: LeaseResult, links: seq<Url>, now: Time, content: Content)
    ensures var i := Sound(c, links);
      Moves(c, Stand(rows, Worker(lease, Scanning(links, i))), now, content)
      == Stand(rows, Worker(lease, if i < |links| then Failing("processing error") else Completing(Some(links))))
  {
  }

  lemma PagePath(c: Crawl, rows: Store, lease: LeaseResult, links: seq<Url>, now: Time, content: Content)
    returns (path: seq<Stand>)
    ensures PathBetween(c, path, Stand(rows, Worker(lease, Scanning(links, 0))),
                  Done(c, rows, lease, Page(links), now, content), now, content)
  {
    var i := Sound(c, links);
    path := LinksPath(c, rows, lease, links, now, content, i);
    var start := Stand(rows, Worker(lease, Scanning(links, 0)));
    var stored := EnqueueAll(c, rows, links, lease.depth + 1);
    var pc := if i < |links| then Failing("processing error") else Completing(Some(links));
    var at := Stand(stored, Worker(lease, Scanning(links, i)));
    var next := Stand(stored, Worker(lease, pc));
    ScannedMoves(c, stored, lease, links, now, content);
    OneMore(c, path, start, at, next, now, content);
    LastMoves(c, stored, lease, pc, now, content);
    OneMore(c, path + [next], start, next, Done(c, rows, lease, Page(links), now, content), now, content);
    path := path + [next] + [Done(c, rows, lease, Page(links), now, content)];
  }

  /** The deduplication read for a redirect target, and its insert if it is vetted. */
  lemma TargetMoves(c: Crawl, rows: Store, lease: LeaseResult, location: Url, hops: nat, now: Time, content: Content)
    ensures var next := Moves(c, Stand(rows, Worker(lease, Vetting(location, hops))), now, content);
      (if next.worker.pc.Following? then Moves(c, next, now, content) else next)
      == if TargetRefused(c, rows, lease, location, hops) then Stand(rows, Worker(lease, Failing("processing error")))
         else Stand(WithTarget(c, rows, lease, location, hops), Worker(lease, Completing(None)))
  {
  }

  lemma TargetPath(c: Crawl, path: seq<Stand>, start: Stand, rows: Store, lease: LeaseResult, location: Url,
                   hops: nat, now: Time, content: Content) returns (longer: seq<Stand>)
    requires PathBetween(c, path, start, Stand(rows, Worker(lease, Vetting(location, hops))), now, content)
    ensures PathBetween(c, longer, start,
                  if TargetRefused(c, rows, lease, location, hops)
                  then Stand(rows, Worker(lease, Failing("processing error")))
                  else Stand(WithTarget(c, rows, lease, location, hops), Worker(lease, Completing(None))),
                  now, content)
  {
    TargetMoves(c, rows, lease, location, hops, now, content);
    var at := Stand(rows, Worker(lease, Vetting(location, hops)));
    var next := Moves(c, at, now, content);
    OneMore(c, path, start, at, next, now, content);
    longer := path + [next];
    if next.worker.pc.Following? {
      var last := Moves(c, next, now, content);
      OneMore(c, longer, start, next, last, now, content);
      longer := longer + [last];
    }
  }

  lemma CountingMoves(c: Crawl, rows: Store, lease: LeaseResult, location: Url, now: Time, content: Content)
    ensures var hops := HopsOf(rows, lease.key);
      Moves(c, Stand(rows, Worker(lease, CountingHops(location))), now, content)
      == Stand(rows, Worker(lease, if hops >= c.maxRedirects then Failing("redirect loop detected")
                                   else Vetting(location, hops)))
  {
  }

  lemma RedirectPath(c: Crawl, rows: Store, lease: LeaseResult, location: Url, now: Time, content: Content)
    returns (path: seq<Stand>)
    ensures PathBetween(c, path, Stand(rows, Worker(lease, CountingHops(location))),
                  Done(c, rows, lease, Moved(location), now, content), now, content)
  {
    var hops := HopsOf(rows, lease.key);
    var start := Stand(rows, Worker(lease, CountingHops(location)));
    CountingMoves(c, rows, lease, location, now, content);
    var at := Moves(c, start, now, content);
    OneMore(c, [start], start, start, at, now, content);
    path := [start] + [at];
    if hops < c.maxRedirects {
      path := TargetPath(c, path, start, rows, lease, location, hops, now, content);
    }
    var last := path[|path| - 1];
    LastMoves(c, last.rows, lease, last.worker.pc, now, content);
    OneMore(c, path, start, last, Done(c, rows, lease, Moved(location), now, content), now, content);
    path := path + [Done(c, rows, lease, Moved(location), now, content)];
  }

  /** The write of a retry report from the count in the table. */
  lemma RetryWrites(c: Crawl, rows: Store, lease: LeaseResult, why: string, now: Time, content: Content)
    ensures var next := RetryCountOf(rows, lease.key) + 1;
      Processed(c, rows, lease, Transient(why), now, content)
      == Apply(rows, if next > c.maxRetries then MarkFailed(lease.key, lease.token, Some(why))
                     else MarkRetry(lease.key, lease.token, next, Some(now + 1000 * Wait(next)), Some(why)))
  {
  }

  lemma DecidingMoves(c: Crawl, rows: Store, lease: LeaseResult, why: string, again: bool, now: Time, content: Content)
    ensures Moves(c, Stand(rows, Worker(lease, Deciding(why, RetryCountOf(rows, lease.key), again))), now, content)
         == Done(c, rows, lease, Transient(why), now, content)
  {
    RetryDelayIsWait(RetryCountOf(rows, lease.key) + 1);
    RetryWrites(c, rows, lease, why, now, content);
  }

  lemma RetryPath(c: Crawl, rows: Store, lease: LeaseResult, why: string, again: bool, now: Time, content: Content)
    returns (path: seq<Stand>)
    ensures PathBetween(c, path, Stand(rows, Worker(lease, Retrying(why, again))),
                  Done(c, rows, lease, Transient(why), now, content), now, content)
  {
    var start := Stand(rows, Worker(lease, Retrying(why, again)));
    var at := Stand(rows, Worker(lease, Deciding(why, RetryCountOf(rows, lease.key), again)));
    OneMore(c, [start], start, start, at, now, content);
    DecidingMoves(c, rows, lease, why, again, now, content);
    OneMore(c, [start] + [at], start, at, Done(c, rows, lease, Transient(why), now, content), now, content);
    path := [start] + [at] + [Done(c, rows, lease, Transient(why), now, content)];
  }

  /** Undisturbed, a worker that got an outcome comes to its report, and leaves the table its code would leave. */
  lemma WorkerUndisturbed(c: Crawl, rows: Store, lease: LeaseResult, o: Outcome, now: Time, content: Content)
    returns (path: seq<Stand>)
    ensures PathBetween(c, path, Stand(rows, Worker(lease, AfterFetch(o))), Done(c, rows, lease, o, now, content), now,
                  content)
  {
    match o
    case Page(links) => path := PagePath(c, rows, lease, links, now, content);
    case Moved(location) => path := RedirectPath(c, rows, lease, location, now, content);
    case Permanent(why) =>
      var start := Stand(rows, Worker(lease, Failing(why)));
      LastMoves(c, rows, lease, Failing(why), now, content);
      OneMore(c, [start], start, start, Done(c, rows, lease, o, now, content), now, content);
      path := [start] + [Done(c, rows, lease, o, now, content)];
    case Transient(why) => path := RetryPath(c, rows, lease, why, false, now, content);
  }

  // ---- What becomes of a store that raises ----

  /** An error of the deduplication read comes to the same as an answer that the URL is stored. */
  lemma ReadErrorRejects(c: Crawl, rows: Store, w: Worker)
    requires TouchesStore(c, w) && (w.pc.Scanning? || w.pc.Vetting?)
    requires var u := if w.pc.Scanning? then w.pc.links[w.pc.i] else w.pc.location; Target(c, u).value in rows
    ensures FaultPc(w.pc) == MovePc(c, rows, w)
  {
  }

  /** Any other error while a page or a redirect is handled is reported, and the URL ends terminally failed. */
  lemma ErrorReported(c: Crawl, rows: Store, lease: LeaseResult, pc: Pc, now: Time, content: Content)
    requires pc.Storing? || pc.Completing? || pc.CountingHops? || pc.Following?
    ensures Moves(c, Stand(rows, Worker(lease, FaultPc(pc))), now, content)
         == Done(c, rows, lease, Permanent("processing error"), now, content)
  {
  }

  /** An error while a failure or a retry is reported comes to a retry, and an error in that one ends the worker. */
  lemma ReportErrorRetried(c: Crawl, rows: Store, lease: LeaseResult, pc: Pc, now: Time, content: Content)
    returns (path: seq<Stand>)
    requires pc.Failing? || pc.Retrying? || pc.Deciding?
    ensures pc.Failing? || !pc.again ==>
              PathBetween(c, path, Stand(rows, Worker(lease, FaultPc(pc))),
                          Done(c, rows, lease, Transient(pc.why), now, content), now, content)
    ensures !pc.Failing? && pc.again ==> FaultPc(pc) == Reported
  {
    path := [];
    if pc.Failing? || !pc.again {
      path := RetryPath(c, rows, lease, pc.why, true, now, content);
    }
  }
}

/**
 The crawl as a system of tasks.  A step is the work of one task between two awaits, so statements of different
 tasks interleave freely: the scheduler's SELECT and its UPDATEs, sweeps, heartbeats, and any number of workers,
 including those whose lease lapsed long ago.  Tasks may fail or vanish at any point, and the whole process may
 crash and be started again on the same table.
 */
module CrawlSystem {
  import opened Wrappers
  import opened Frontier
  import opened Filters
  import opened Selection
  import opened MetadataStores
  import opened Backoff

  /** The fixed configuration of a crawl; `normalize` stands for whatever URL normaliser is wired in. */
  datatype Crawl = Crawl(
    seed: Key,
    seedUrl: Url,
    filter: FilterConfig,
    maxRetries: nat,
    maxRedirects: nat,
    maxConcurrency: nat,
    batchSize: nat,
    leaseTtl: nat,
    normalize: Url -> Option<Key>)

  /** What fetching and processing a page comes to. */
  datatype Outcome =
    | Page(links: seq<Url>)         // 200, with the links its processor reported
    | Moved(location: Url)          // 301 or 302 with a location
    | Permanent(why: string)        // reported as terminal_failed
    | Transient(why: string)        // reported as retry

  /** Where a worker stands; each name but the first and last is the store access it is about to make. */
  datatype Pc =
    | Fetching
    | Scanning(links: seq<Url>, i: nat)                  // the deduplication read for link i, if any is left
    | Storing(links: seq<Url>, i: nat, target: Key)      // the insert of link i
    | Completing(page: Option<seq<Url>>)                 // mark_completed, after a page or a redirect
    | CountingHops(location: Url)                        // get_redirect_count
    | Vetting(location: Url, hops: nat)                  // the deduplication read for the redirect target
    | Following(location: Url, hops: nat, target: Key)   // the insert of the redirect target
    | Failing(why: string)                               // mark_terminal_failed
    | Retrying(why: string, again: bool)                 // get_retry_count; `again` once the handler itself has failed
    | Deciding(why: string, count: nat, again: bool)     // mark_retry or mark_failed
    | Reported

  datatype Worker = Worker(lease: LeaseResult, pc: Pc)

  /**
   A batch from its SELECT on: `i` candidates tried, and of the leases granted `sent` dispatched to workers.
   `size` is the limit of the SELECT and `start` the number of statements issued before it.
   */
  datatype Acquisition = Acquisition(
    now: Time,
    size: nat,
    start: nat,
    keys: seq<Key>,
    i: nat,
    granted: seq<LeaseResult>,
    sent: nat)

  /** A page completed through the 200 path: by which lease, and the links its processor reported. */
  datatype Visit = Visit(token: Token, links: seq<Url>)

  datatype Sys = Sys(
    rows: Store,
    clock: Time,
    lastRead: Time,                    // the clock reading of the latest batch
    nextToken: Token,
    acquiring: Option<Acquisition>,
    workers: map<Token, Worker>,
    // history
    log: seq<Op>,                      // every statement issued
    fetched: set<(Key, Outcome)>,      // every outcome a worker got for the URL it held
    pages: map<Key, Visit>,            // each URL completed through the 200 path
    missed: set<(Token, Url)>)         // each link whose deduplication read raised, and the lease of its page

  const START := Sys(map[], 0, 0, 0, None, map[], [], {}, map[], {})

  datatype Event =
    | Tick(to: Time)
    | Seed                                             // Scheduler.init: the seed is enqueued
    | Select(readAt: Time, size: nat, keys: seq<Key>)
    | TryGrant
    | Dispatch                                         // the next lease of the batch, or the end of the batch
    | Shutdown                                         // the scheduler stops dispatching; workers go on
    | Sweep(readAt: Time)
    | Beat(worker: Token, readAt: Time)
    | Fetched(worker: Token, outcome: Outcome)
    | Move(worker: Token, readAt: Time, content: Content)
    | Fault(worker: Token)                             // the store access raises and changes nothing
    | Lose(worker: Token)                              // the task vanishes
    | Crash                                            // the process vanishes

  /** `normalize(url)` when it yields a usable key. */
  function Target(c: Crawl, u: Url): Option<Key> {
    match c.normalize(u)
    case Some(k) => if k == "" then None else Some(k)
    case None => None
  }

  /** The link leads to a URL the crawl should visit from a page at `depth`. */
  ghost predicate Wanted(c: Crawl, u: Url, depth: nat) {
    Target(c, u).Some? && InScope(c.filter, Target(c, u).value) && WithinDepth(c.filter.maxDepth, depth)
  }

  /** The link normalises to something the filter cannot parse: asking it raises. */
  predicate Chokes(c: Crawl, u: Url) {
    Target(c, u).Some? && c.filter.parse(Target(c, u).value).None?
  }

  /** The scheduler can be initialised: the seed has a normal form, and that can be parsed. */
  predicate Startable(c: Crawl) {
    Target(c, c.seedUrl) == Some(c.seed) && c.filter.parse(c.seed).Some?
  }

  /** The filter lets the URL through, on a store that answers. */
  ghost predicate Vetted(c: Crawl, rows: Store, u: Url, depth: nat) {
    Wanted(c, u, depth) && Target(c, u).value !in rows
  }

  /** That is the verdict of the pipeline; when the deduplication read raises, nothing passes. */
  lemma VettedIsPasses(c: Crawl, rows: Store, u: Url, depth: nat)
    requires Target(c, u).Some?
    ensures Vetted(c, rows, u, depth) <==> Passes(c.filter, Target(c, u).value, depth, Some(Target(c, u).value in rows))
    ensures !Passes(c.filter, Target(c, u).value, depth, None)
  {
    PassesMeans(c.filter, Target(c, u).value, depth, Some(Target(c, u).value in rows));
    PassesMeans(c.filter, Target(c, u).value, depth, None);
  }

  function AfterFetch(o: Outcome): Pc {
    match o
    case Page(links) => Scanning(links, 0)
    case Moved(location) => CountingHops(location)
    case Permanent(why) => Failing(why)
    case Transient(why) => Retrying(why, false)
  }

  function RetryCountOf(rows: Store, k: Key): nat {
    if k in rows then rows[k].retryCount else 0
  }

  function HopsOf(rows: Store, k: Key): nat {
    if k in rows then rows[k].redirectCount else 0
  }

  /** The statement a worker issues in its next move, if that move writes. */
  function MoveOp(c: Crawl, w: Worker, now: Time, content: Content): Option<Op> {
    var Worker(lease, pc) := w;
    match pc
    case Storing(links, i, target) =>
      if i < |links| then Some(Insert(target, links[i], lease.depth + 1, None, 0)) else None
    case Following(location, hops, target) => Some(Insert(target, location, lease.depth, Some(lease.url), hops + 1))
    case Completing(page) =>
      Some(Complete(lease.key, lease.token, if page.Some? then content else NO_CONTENT))
    case Failing(why) => Some(MarkTerminal(lease.key, lease.token, Some(why)))
    case Deciding(why, count, _) =>
      if count + 1 > c.maxRetries then Some(MarkFailed(lease.key, lease.token, Some(why)))
      else Some(MarkRetry(lease.key, lease.token, count + 1, Some(now + 1000 * RetryDelay(count + 1)), Some(why)))
    case _ => None
  }

  /** Where the move takes it, given the table it reads. */
  ghost function MovePc(c: Crawl, rows: Store, w: Worker): Pc {
    var Worker(lease, pc) := w;
    match pc
    case Scanning(links, i) =>
      if i >= |links| then Completing(Some(links))
      else if Chokes(c, links[i]) then Failing("processing error")
      else if Vetted(c, rows, links[i], lease.depth + 1) then Storing(links, i, Target(c, links[i]).value)
      else Scanning(links, i + 1)
    case Storing(links, i, target) => Scanning(links, i + 1)
    case CountingHops(location) =>
      if HopsOf(rows, lease.key) >= c.maxRedirects then Failing("redirect loop detected")
      else Vetting(location, HopsOf(rows, lease.key))
    case Vetting(location, hops) =>
      if Chokes(c, location) then Failing("processing error")
      else if Vetted(c, rows, location, lease.depth) then Following(location, hops, Target(c, location).value)
      else Completing(None)
    case Following(location, hops, target) =>
      if Refused(rows, Insert(target, location, lease.depth, Some(lease.url), hops + 1))
      then Failing("processing error")
      else Completing(None)
    case Retrying(why, again) => Deciding(why, RetryCountOf(rows, lease.key), again)
    case _ => Reported
  }

  /**
   The next move goes to the store.  The deduplication read is the last filter step, so it is made only for a URL
   that is wanted; what happens to the store while a page is fetched and processed is part of the outcome.
   */
  ghost predicate TouchesStore(c: Crawl, w: Worker) {
    match w.pc
    case Fetching => false
    case Scanning(links, i) => i < |links| && Wanted(c, links[i], w.lease.depth + 1)
    case Vetting(location, _) => Wanted(c, location, w.lease.depth)
    case Reported => false
    case _ => true
  }

  /**
   Where a raised store error takes it.  The filter pipeline swallows an error of the deduplication read and
   rejects the URL, so the link or the redirect target is skipped; `_do_process` reports any other error,
   `_process_lease` answers an error while handling the report with a retry, and an error in that retry ends the
   task.
   */
  function FaultPc(pc: Pc): Pc {
    match pc
    case Scanning(links, i) => Scanning(links, i + 1)
    case Vetting(_, _) => Completing(None)
    case Failing(why) => Retrying(why, true)
    case Retrying(why, again) => if again then Reported else Retrying(why, true)
    case Deciding(why, _, again) => if again then Reported else Retrying(why, true)
    case _ => Failing("processing error")
  }

  /** The workers the pool counts as active. */
  function Active(workers: map<Token, Worker>): set<Token> {
    set t | t in workers && !workers[t].pc.Reported?
  }

  /** `max_concurrency` less the active workers. */
  function FreeSlots(c: Crawl, s: Sys): int {
    c.maxConcurrency - |Active(s.workers)|
  }

  /**
   The scheduler may ask for a batch of this size: with no slot free it waits, and as it alone dispatches, the
   slots it counted are still free when the SELECT runs.
   */
  predicate MayAsk(c: Crawl, s: Sys, size: nat) {
    s.acquiring.None? && 0 < size <= FreeSlots(c, s) && size <= c.batchSize
  }

  ghost predicate Enabled(c: Crawl, s: Sys, e: Event) {
    match e
    case Tick(to) => s.clock <= to
    case Seed => Startable(c)
    case Select(readAt, size, keys) =>
      MayAsk(c, s, size) && s.lastRead <= readAt <= s.clock && IsSelection(s.rows, readAt, size, keys)
    case TryGrant => s.acquiring.Some? && s.acquiring.value.i < |s.acquiring.value.keys|
    case Dispatch => s.acquiring.Some? && s.acquiring.value.i >= |s.acquiring.value.keys|
    case Shutdown => true
    case Sweep(readAt) => readAt <= s.clock
    case Beat(worker, readAt) => worker in s.workers && readAt <= s.clock
    case Fetched(worker, _) => worker in s.workers && s.workers[worker].pc.Fetching?
    case Move(worker, readAt, _) =>
      worker in s.workers && readAt <= s.clock && !s.workers[worker].pc.Fetching? && !s.workers[worker].pc.Reported?
    case Fault(worker) => worker in s.workers && TouchesStore(c, s.workers[worker])
    case Lose(worker) => worker in s.workers
    case Crash => true
  }

  /** The statement the step runs on the table. */
  function StepOp(c: Crawl, s: Sys, e: Event): Option<Op> {
    match e
    case Seed => Some(Insert(c.seed, c.seedUrl, 0, None, 0))
    case TryGrant =>
      if s.acquiring.Some? && s.acquiring.value.i < |s.acquiring.value.keys| then
        var a := s.acquiring.value;
        Some(Grant(a.keys[a.i], s.nextToken, a.now, a.now + c.leaseTtl))
      else None
    case Sweep(readAt) => Some(Expire(readAt))
    case Beat(worker, readAt) =>
      if worker in s.workers then
        Some(Renew(s.workers[worker].lease.key, s.workers[worker].lease.token, readAt + c.leaseTtl))
      else None
    case Move(worker, readAt, content) =>
      if worker in s.workers then MoveOp(c, s.workers[worker], readAt, content) else None
    case _ => None
  }

  ghost function WorkersAfter(c: Crawl, s: Sys, e: Event): map<Token, Worker>
    requires Enabled(c, s, e)
  {
    match e
    case Dispatch =>
      var a := s.acquiring.value;
      if a.sent >= |a.granted| then s.workers
      else s.workers[a.granted[a.sent].token := Worker(a.granted[a.sent], Fetching)]
    case Fetched(worker, outcome) => s.workers[worker := s.workers[worker].(pc := AfterFetch(outcome))]
    case Move(worker, _, _) => s.workers[worker := s.workers[worker].(pc := MovePc(c, s.rows, s.workers[worker]))]
    case Fault(worker) => s.workers[worker := s.workers[worker].(pc := FaultPc(s.workers[worker].pc))]
    case Lose(worker) => s.workers - {worker}
    case Crash => map[]
    case _ => s.workers
  }

  ghost function AcquiringAfter(c: Crawl, s: Sys, e: Event): Option<Acquisition>
    requires Enabled(c, s, e)
  {
    match e
    case Select(readAt, size, keys) => Some(Acquisition(readAt, size, |s.log|, keys, 0, [], 0))
    case TryGrant =>
      var a := s.acquiring.value;
      var k := a.keys[a.i];
      var granted := if Effective(s.rows, StepOp(c, s, e).value) then
          a.granted + [LeaseOf(s.rows, k, s.nextToken, a.now + c.leaseTtl)]
        else a.granted;
      Some(a.(i := a.i + 1, granted := granted))
    case Dispatch =>
      var a := s.acquiring.value;
      if a.sent < |a.granted| then Some(a.(sent := a.sent + 1)) else None
    case Shutdown => None
    case Crash => None
    case _ => s.acquiring
  }

  ghost function PagesAfter(c: Crawl, s: Sys, e: Event): map<Key, Visit>
    requires Enabled(c, s, e)
  {
    if e.Move? && s.workers[e.worker].pc.Completing? && s.workers[e.worker].pc.page.Some?
       && Effective(s.rows, StepOp(c, s, e).value)
    then
      var w := s.workers[e.worker];
      s.pages[w.lease.key := Visit(w.lease.token, w.pc.page.value)]
    else s.pages
  }

  ghost function MissedAfter(c: Crawl, s: Sys, e: Event): set<(Token, Url)>
    requires Enabled(c, s, e)
  {
    if e.Fault? && s.workers[e.worker].pc.Scanning? then
      var w := s.workers[e.worker];
      s.missed + {(w.lease.token, w.pc.links[w.pc.i])}
    else s.missed
  }

  ghost function Next(c: Crawl, s: Sys, e: Event): Sys
    requires Enabled(c, s, e)
  {
    var op := StepOp(c, s, e);
    Sys(if op.Some? then Apply(s.rows, op.value) else s.rows,
        if e.Tick? then e.to else s.clock,
        if e.Select? then e.readAt else s.lastRead,
        if e.TryGrant? then s.nextToken + 1 else s.nextToken,
        AcquiringAfter(c, s, e),
        WorkersAfter(c, s, e),
        if op.Some? then s.log + [op.value] else s.log,
        if e.Fetched? then s.fetched + {(s.workers[e.worker].lease.key, e.outcome)} else s.fetched,
        PagesAfter(c, s, e),
        MissedAfter(c, s, e))
  }

  /** A run: each step is possible where it is taken. */
  ghost predicate IsRun(c: Crawl, s: Sys, es: seq<Event>)
    decreases |es|
  {
    es == [] || (Enabled(c, s, es[0]) && IsRun(c, Next(c, s, es[0]), es[1..]))
  }

  /** The state a run ends in. */
  ghost function Final(c: Crawl, s: Sys, es: seq<Event>): Sys
    requires IsRun(c, s, es)
    decreases |es|
  {
    if es == [] then s else Final(c, Next(c, s, es[0]), es[1..])
  }
}

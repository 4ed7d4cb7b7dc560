/** When a URL comes up again: the instants written for its retries, and the readings of the grants after them. */
module CrawlRetries {
  import opened Wrappers
  import opened Frontier
  import opened Backoff
  import opened LeaseHistory
  import opened CrawlSystem
  import opened CrawlInvariants
  import opened CrawlTheorems

  // ---- What a retry report writes ----

  lemma ToRetry(op: Op, k: Key, r: Row)
    requires Touch(op, k, r).state.Retry? && !r.state.Retry?
    ensures op.MarkRetry? && Where(op, k, r) && r.state.InProgress?
    ensures Touch(op, k, r)
         == r.(state := Retry, retryCount := op.count, nextRetryAt := op.at, reason := op.reason, token := None,
               expiresAt := None)
  {
  }

  lemma RetryStep(c: Crawl, s: Sys, e: Event)
    requires Enabled(c, s, e) && StepOp(c, s, e).Some? && StepOp(c, s, e).value.MarkRetry?
    ensures e.Move?
    ensures var op := StepOp(c, s, e).value; op.count > 0 && op.at == Some(e.readAt + 1000 * RetryDelay(op.count))
  {
  }

  /**
   A row gets into Retry by a report on its lease only, one retry further, and due after the wait of that retry: a
   second for the first one, twice as long for each further one, five minutes at most.
   */
  lemma RetryInstant(c: Crawl, s: Sys, e: Event, s': Sys, k: Key)
    requires Reached(c, s) && Step(c, s, e, s') && k in s.rows && !s.rows[k].state.Retry?
    requires k in s'.rows && s'.rows[k].state.Retry?
    ensures e.Move? && s.rows[k].state.InProgress?
    ensures var (r, r') := (s.rows[k], s'.rows[k]);
      && r'.retryCount == r.retryCount + 1 <= c.maxRetries
      && r'.nextRetryAt == Some(e.readAt + 1000 * Wait(r.retryCount + 1))
  {
    RowStep(c, s, e, k);
    ToRetry(StepOp(c, s, e).value, k, s.rows[k]);
    RetryStep(c, s, e);
    assert ReadInv(s) by { InvReached(c, s); }
    RetryWriteAddsOne(c, s, e, k);
    RetryDelayIsWait(s.rows[k].retryCount + 1);
  }

  lemma ReportStep(c: Crawl, s: Sys, e: Event)
    requires Enabled(c, s, e) && e.Move? && s.workers[e.worker].pc.Deciding?
    requires var lease := s.workers[e.worker].lease;
      lease.key in s.rows && Holds(s.rows[lease.key], lease.token)
    ensures var (k, pc) := (s.workers[e.worker].lease.key, s.workers[e.worker].pc);
      && k in Next(c, s, e).rows
      && Next(c, s, e).rows[k].state == (if pc.count >= c.maxRetries then Failed else Retry)
      && Next(c, s, e).rows[k].reason == Some(pc.why)
  {
  }

  /** A retry report under an open lease fails the URL exactly when its retries are used up. */
  lemma RetryVerdict(c: Crawl, s: Sys, e: Event, k: Key)
    requires Reached(c, s) && Enabled(c, s, e) && e.Move? && s.workers[e.worker].pc.Deciding?
    requires k == s.workers[e.worker].lease.key && k in s.rows
    requires s.rows[k].state.InProgress? && s.rows[k].token == Some(s.workers[e.worker].lease.token)
    ensures k in Next(c, s, e).rows
    ensures Next(c, s, e).rows[k].state == if s.rows[k].retryCount == c.maxRetries then Failed else Retry
    ensures Next(c, s, e).rows[k].reason == Some(s.workers[e.worker].pc.why)
  {
    assert ReadInv(s) && s.rows[k].retryCount <= c.maxRetries by { InvReached(c, s); }
    assert ReadCurrent(s.rows, s.workers[e.worker]);
    ReportStep(c, s, e);
  }

  // ---- Nothing is handed out before its time ----

  lemma LeftRetry(op: Op, k: Key, r: Row)
    requires r.state.Retry? && Touch(op, k, r).state.InProgress?
    ensures op.Grant? && r.nextRetryAt.Some? && r.nextRetryAt.value <= op.now
  {
  }

  lemma LostLease(op: Op, k: Key, r: Row)
    requires r.state.InProgress?
    requires var r' := Touch(op, k, r); r'.state.Pending? || (r'.state.InProgress? && r'.token != r.token)
    ensures (op.Grant? || op.Expire?) && r.expiresAt.Some? && r.expiresAt.value <= op.now
  {
  }

  lemma ReadBefore(c: Crawl, s: Sys, e: Event)
    requires Enabled(c, s, e) && ClockInv(s) && StepOp(c, s, e).Some?
    ensures var op := StepOp(c, s, e).value; op.Grant? || op.Expire? ==> op.now <= s.clock
  {
  }

  /** On the clock of the run, a retry is handed out only once its instant has come. */
  lemma NoRetryEarly(c: Crawl, s: Sys, e: Event, k: Key)
    requires Reached(c, s) && Enabled(c, s, e) && k in s.rows && s.rows[k].state.Retry?
    requires k in Next(c, s, e).rows && Next(c, s, e).rows[k].state.InProgress?
    ensures s.rows[k].nextRetryAt.Some? && s.rows[k].nextRetryAt.value <= s.clock
  {
    RowStep(c, s, e, k);
    LeftRetry(StepOp(c, s, e).value, k, s.rows[k]);
    assert ClockInv(s) by { InvReached(c, s); }
    ReadBefore(c, s, e);
  }

  /** And a lease is taken from its worker, by a sweep or by another grant, only once it has run out. */
  lemma NoLapseEarly(c: Crawl, s: Sys, e: Event, k: Key)
    requires Reached(c, s) && Enabled(c, s, e) && k in s.rows && s.rows[k].state.InProgress?
    requires k in Next(c, s, e).rows
    requires var r' := Next(c, s, e).rows[k];
      r'.state.Pending? || (r'.state.InProgress? && r'.token != s.rows[k].token)
    ensures s.rows[k].expiresAt.Some? && s.rows[k].expiresAt.value <= s.clock
  {
    RowStep(c, s, e, k);
    LostLease(StepOp(c, s, e).value, k, s.rows[k]);
    assert ClockInv(s) by { InvReached(c, s); }
    ReadBefore(c, s, e);
  }

  // ---- Over whole runs ----

  lemma {:induction false} ReachedOnward(c: Crawl, s: Sys, es: seq<Event>)
    requires Reached(c, s) && IsRun(c, s, es)
    ensures Reached(c, Final(c, s, es)) && s.log <= Final(c, s, es).log
    decreases |es|
  {
    if es != [] {
      ReachedNext(c, s, es[0]);
      ReachedOnward(c, Next(c, s, es[0]), es[1..]);
    }
  }

  lemma WaitsInLog(c: Crawl, s: Sys, log: seq<Op>, k: Key)
    requires Reached(c, s) && s.log <= log && k in s.rows
    ensures k in Before(log, |s.log|) && Before(log, |s.log|)[k] == s.rows[k]
  {
    assert log[..|s.log|] == s.log;
    assert s.rows == Replay(s.log) by { InvReached(c, s); }
  }

  /** Entry `j` of the log, at or behind position `from`, hands out `k`. */
  ghost predicate HandsOut(log: seq<Op>, from: nat, j: nat, k: Key) {
    from <= j < |log| && log[j].Grant? && Hits(log, j, k)
  }

  /** From a state in which a URL waits for `t`, no run leads to a grant of it that reads an earlier time. */
  lemma NotBefore(c: Crawl, s: Sys, es: seq<Event>, k: Key, t: Time, j: nat)
    requires Reached(c, s) && IsRun(c, s, es)
    requires k in s.rows && s.rows[k].state.Retry? && s.rows[k].nextRetryAt == Some(t)
    requires HandsOut(Final(c, s, es).log, |s.log|, j, k)
    ensures Final(c, s, es).log[j].now >= t
  {
    ReachedOnward(c, s, es);
    var log := Final(c, s, es).log;
    assert GrantsOrdered(log) by { InvReached(c, Final(c, s, es)); }
    WaitsInLog(c, s, log, k);
    NoGrantBefore(log, |s.log|, j, k, t);
  }

  /**
   A failed URL is left alone for the wait of its retry: after a report that sends it into Retry, read at `e.readAt`,
   no grant of it on any continuation of the run, the next or any later one, reads a time before the wait is over.
   */
  lemma RetryWaitsOut(c: Crawl, s: Sys, e: Event, s': Sys, es: seq<Event>, k: Key, j: nat)
    requires Reached(c, s) && Step(c, s, e, s') && IsRun(c, s', es)
    requires k in s.rows && !s.rows[k].state.Retry? && k in s'.rows && s'.rows[k].state.Retry?
    requires HandsOut(Final(c, s', es).log, |s'.log|, j, k)
    ensures e.Move?
    ensures Final(c, s', es).log[j].now >= e.readAt + 1000 * Wait(s.rows[k].retryCount + 1)
  {
    RetryInstant(c, s, e, s', k);
    assert Reached(c, s') by { ReachedNext(c, s, e); }
    NotBefore(c, s', es, k, s'.rows[k].nextRetryAt.value, j);
  }
}

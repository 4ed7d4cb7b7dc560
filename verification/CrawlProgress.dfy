/** From every state of the crawl with work left and a slot to spare, a lease is within reach. */
module CrawlProgress {
  import opened Wrappers
  import opened Frontier
  import opened Selection
  import opened LeaseHistory
  import opened CrawlSystem
  import opened CrawlInvariants
  import opened CrawlSlots
  import opened CrawlTheorems

  // ---- The query has an answer ----

  lemma {:induction false} BestOf(s: Store, pool: set<Key>) returns (best: Key)
    requires pool != {} && pool <= s.Keys
    ensures best in pool && forall k | k in pool :: RanksFirst(s[best], s[k])
    decreases |pool|
  {
    best :| best in pool;
    if pool != {best} {
      var other := BestOf(s, pool - {best});
      if !RanksFirst(s[best], s[other]) {
        best := other;
      }
    }
  }

  lemma OneCandidate(s: Store, now: Time, k: Key) returns (keys: seq<Key>)
    requires k in s && Eligible(s[k], now)
    ensures IsSelection(s, now, 1, keys) && keys != []
  {
    assert k in EligibleKeys(s, now);
    var best := BestOf(s, EligibleKeys(s, now));
    keys := [best];
  }

  // ---- A lease is granted later ----

  ghost predicate GrantsLater(c: Crawl, s: Sys) {
    exists es :: IsRun(c, s, es) && TotalGrants(Final(c, s, es).log) > TotalGrants(s.log)
  }

  lemma GrantsStep(log: seq<Op>, op: Op)
    ensures TotalGrants(log + [op])
         == TotalGrants(log) +
            if op.Grant? && op.key in Replay(log) && Where(op, op.key, Replay(log)[op.key]) then 1 else 0
  {
    assert (log + [op])[..|log|] == log;
  }

  lemma GrantsGrow(c: Crawl, s: Sys, e: Event)
    requires Enabled(c, s, e)
    ensures TotalGrants(Next(c, s, e).log) >= TotalGrants(s.log)
  {
    if StepOp(c, s, e).Some? {
      GrantsStep(s.log, StepOp(c, s, e).value);
    }
  }

  lemma GrantsNow(c: Crawl, s: Sys)
    requires Enabled(c, s, TryGrant) && s.rows == Replay(s.log) && Effective(s.rows, StepOp(c, s, TryGrant).value)
    ensures GrantsLater(c, s)
  {
    GrantsStep(s.log, StepOp(c, s, TryGrant).value);
    RunOfOne(c, s, TryGrant);
  }

  lemma GrantsAfter(c: Crawl, s: Sys, e: Event)
    requires Enabled(c, s, e) && GrantsLater(c, Next(c, s, e))
    ensures GrantsLater(c, s)
  {
    GrantsGrow(c, s, e);
    var s' := Next(c, s, e);
    var es :| IsRun(c, s', es) && TotalGrants(Final(c, s', es).log) > TotalGrants(s'.log);
    RunPrepends(c, s, e, es);
  }

  lemma BatchGrants(c: Crawl, s: Sys, now: Time, keys: seq<Key>)
    requires s.rows == Replay(s.log) && MayAsk(c, s, 1) && now >= s.clock >= s.lastRead
    requires IsSelection(s.rows, now, 1, keys) && keys != []
    ensures GrantsLater(c, s)
  {
    var s1, s2 := FirstCandidates(c, s, now, 1, keys);
    GrantsNow(c, s2);
    GrantsAfter(c, s1, Select(now, 1, keys));
    GrantsAfter(c, s, Tick(now));
  }

  /** No batch is under way: one started late enough grants. */
  lemma FreshBatchGrants(c: Crawl, s: Sys, k: Key)
    requires Reached(c, s) && k in s.rows && !Terminal(s.rows[k].state)
    requires s.acquiring.None? && c.batchSize > 0 && FreeSlots(c, s) > 0
    ensures GrantsLater(c, s)
  {
    var now := if ReadyAt(s.rows[k]) > s.clock then ReadyAt(s.rows[k]) else s.clock;
    ReadyIsEligible(c, s, k, now);
    var keys := OneCandidate(s.rows, now, k);
    assert s.rows == Replay(s.log) && s.lastRead <= s.clock by { InvReached(c, s); }
    BatchGrants(c, s, now, keys);
  }

  // ---- Finishing the batch under way ----

  /** An update that comes too late only moves the batch on. */
  lemma TriesOn(c: Crawl, s: Sys)
    requires Enabled(c, s, TryGrant) && !Effective(s.rows, StepOp(c, s, TryGrant).value)
    ensures var s' := Next(c, s, TryGrant);
      && s'.rows == s.rows && s'.workers == s.workers
      && s'.acquiring == Some(s.acquiring.value.(i := s.acquiring.value.i + 1))
  {
    TriedBatch(c, s);
    assert Apply(s.rows, StepOp(c, s, TryGrant).value) == s.rows;
  }

  lemma DispatchesOn(c: Crawl, s: Sys)
    requires Enabled(c, s, Dispatch) && BatchBounds(s.acquiring) && Outstanding(s.acquiring) < FreeSlots(c, s)
    ensures var s' := Next(c, s, Dispatch);
      && s'.rows == s.rows && BatchBounds(s'.acquiring) && Outstanding(s'.acquiring) < FreeSlots(c, s')
      && Remaining(s'.acquiring) < Remaining(s.acquiring)
  {
    ActiveGrows(c, s);
  }

  /** How many steps the batch under way still takes. */
  function Remaining(acquiring: Option<Acquisition>): int {
    match acquiring
    case None => 0
    case Some(a) => |a.keys| - a.i + |a.granted| - a.sent + 1
  }

  /**
   No URL is left behind, whatever the crawl is doing: as long as some row is not terminal and a slot is left over
   when all leases of the batch under way have got theirs, some continuation grants a lease.
   */
  lemma {:induction false} LeaseComes(c: Crawl, s: Sys, k: Key)
    requires Reached(c, s) && k in s.rows && !Terminal(s.rows[k].state)
    requires c.batchSize > 0 && Outstanding(s.acquiring) < FreeSlots(c, s)
    ensures GrantsLater(c, s)
    decreases Remaining(s.acquiring)
  {
    assert s.rows == Replay(s.log) && BatchBounds(s.acquiring) by { InvReached(c, s); }
    match s.acquiring
    case None => FreshBatchGrants(c, s, k);
    case Some(a) =>
      if a.i >= |a.keys| {
        DispatchesOn(c, s);
        ReachedNext(c, s, Dispatch);
        LeaseComes(c, Next(c, s, Dispatch), k);
        GrantsAfter(c, s, Dispatch);
      } else if Effective(s.rows, StepOp(c, s, TryGrant).value) {
        GrantsNow(c, s);
      } else {
        TriesOn(c, s);
        ReachedNext(c, s, TryGrant);
        LeaseComes(c, Next(c, s, TryGrant), k);
        GrantsAfter(c, s, TryGrant);
      }
  }
}

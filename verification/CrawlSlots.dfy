/** Workers, slots and tokens: how many workers there are at once, and why two can hold the same URL. */
module CrawlSlots {
  import opened Wrappers
  import opened Frontier
  import opened Selection
  import opened MetadataStores
  import opened LeaseHistory
  import opened CrawlSystem
  import opened CrawlInvariants

  // ---- Every lease in flight has a token of its own ----

  /** The leases granted to a batch and not yet dispatched. */
  ghost predicate Undispatched(s: Sys, j: nat) {
    s.acquiring.Some? && s.acquiring.value.sent <= j < |s.acquiring.value.granted|
  }

  ghost predicate GrantedApart(a: Acquisition, workers: map<Token, Worker>) {
    && (forall i, j | 0 <= i < j < |a.granted| :: a.granted[i].token < a.granted[j].token)
    && (forall j | a.sent <= j < |a.granted| :: a.granted[j].token !in workers)
  }

  ghost predicate TokensInv(s: Sys) {
    && (forall t | t in s.workers :: s.workers[t].lease.token == t)
    && (s.acquiring.Some? ==> GrantedApart(s.acquiring.value, s.workers))
  }

  lemma WorkerTokenKept(c: Crawl, s: Sys, e: Event, t: Token)
    requires Enabled(c, s, e) && TokensInv(s) && t in Next(c, s, e).workers
    ensures Next(c, s, e).workers[t].lease.token == t
  {
    var fate := FateOf(c, s, e, t);
  }

  lemma GrantsApart(c: Crawl, s: Sys)
    requires Enabled(c, s, TryGrant) && LeasesInv(s) && TokensInv(s)
    ensures GrantedApart(AcquiringAfter(c, s, TryGrant).value, s.workers)
  {
    TriedBatch(c, s);
    var a := s.acquiring.value;
    forall i | 0 <= i < |a.granted|
      ensures a.granted[i].token < s.nextToken
    {
      assert LeaseFits(s, a.granted[i]);
    }
    forall t | t in s.workers
      ensures t < s.nextToken
    {
      assert LeaseFits(s, s.workers[t].lease);
    }
  }

  lemma DispatchApart(c: Crawl, s: Sys)
    requires Enabled(c, s, Dispatch) && TokensInv(s) && Undispatched(s, s.acquiring.value.sent)
    ensures GrantedApart(AcquiringAfter(c, s, Dispatch).value, WorkersAfter(c, s, Dispatch))
  {
  }

  lemma WorkersShrink(c: Crawl, s: Sys, e: Event)
    requires Enabled(c, s, e) && !e.Dispatch?
    ensures Next(c, s, e).workers.Keys <= s.workers.Keys
  {
  }

  lemma TokensKept(c: Crawl, s: Sys, e: Event)
    requires Enabled(c, s, e) && LeasesInv(s) && TokensInv(s)
    ensures TokensInv(Next(c, s, e))
  {
    var s' := Next(c, s, e);
    forall t | t in s'.workers
      ensures s'.workers[t].lease.token == t
    {
      WorkerTokenKept(c, s, e, t);
    }
    if e.TryGrant? {
      GrantsApart(c, s);
    } else if e.Dispatch? {
      if s'.acquiring.Some? {
        DispatchApart(c, s);
      }
    } else {
      WorkersShrink(c, s, e);
    }
  }

  // ---- No more workers than slots ----

  /** What the batch under way can still put to work. */
  function Outstanding(acquiring: Option<Acquisition>): int {
    match acquiring
    case None => 0
    case Some(a) => |a.keys| - a.i + |a.granted| - a.sent
  }

  ghost predicate BatchBounds(acquiring: Option<Acquisition>) {
    acquiring.Some? ==> acquiring.value.i <= |acquiring.value.keys| && acquiring.value.sent <= |acquiring.value.granted|
  }

  predicate SizeOk(c: Crawl, acquiring: Option<Acquisition>) {
    acquiring.Some? ==> acquiring.value.size <= c.batchSize
  }

  ghost predicate SlotsInv(c: Crawl, s: Sys) {
    && BatchBounds(s.acquiring) && |Active(s.workers)| + Outstanding(s.acquiring) <= c.maxConcurrency
    && SizeOk(c, s.acquiring)
  }

  /** Only a dispatch makes a worker active. */
  lemma ActiveShrinks(c: Crawl, s: Sys, e: Event)
    requires Enabled(c, s, e) && !e.Dispatch?
    ensures Active(Next(c, s, e).workers) <= Active(s.workers)
  {
    forall t | t in Active(Next(c, s, e).workers)
      ensures t in Active(s.workers)
    {
      var fate := FateOf(c, s, e, t);
    }
  }

  lemma ActiveGrows(c: Crawl, s: Sys)
    requires Enabled(c, s, Dispatch)
    ensures if Undispatched(s, s.acquiring.value.sent)
            then |Active(Next(c, s, Dispatch).workers)| <= |Active(s.workers)| + 1
            else Next(c, s, Dispatch).workers == s.workers
  {
    if Undispatched(s, s.acquiring.value.sent) {
      var t := s.acquiring.value.granted[s.acquiring.value.sent].token;
      assert Active(Next(c, s, Dispatch).workers) <= Active(s.workers) + {t};
      SubsetSize(Active(Next(c, s, Dispatch).workers), Active(s.workers) + {t});
    }
  }

  lemma OutstandingShrinks(c: Crawl, s: Sys, e: Event)
    requires Enabled(c, s, e) && BatchBounds(s.acquiring)
    ensures BatchBounds(Next(c, s, e).acquiring)
    ensures e.Select? ==> Outstanding(Next(c, s, e).acquiring) <= FreeSlots(c, s)
    ensures !e.Select? ==> Outstanding(Next(c, s, e).acquiring) <= Outstanding(s.acquiring)
    ensures e.Dispatch? && Undispatched(s, s.acquiring.value.sent) ==>
              Outstanding(Next(c, s, e).acquiring) == Outstanding(s.acquiring) - 1
  {
    if e.TryGrant? {
      TriedBatch(c, s);
    }
  }

  lemma SizeKept(c: Crawl, s: Sys, e: Event)
    requires Enabled(c, s, e) && SizeOk(c, s.acquiring)
    ensures SizeOk(c, Next(c, s, e).acquiring)
  {
    if !e.Select? && Next(c, s, e).acquiring.Some? {
      BatchGoesOn(c, s, e);
    }
  }

  lemma SlotsKept(c: Crawl, s: Sys, e: Event)
    requires Enabled(c, s, e) && SlotsInv(c, s)
    ensures SlotsInv(c, Next(c, s, e))
  {
    OutstandingShrinks(c, s, e);
    SizeKept(c, s, e);
    if e.Dispatch? {
      ActiveGrows(c, s);
    } else {
      ActiveShrinks(c, s, e);
      SubsetSize(Active(Next(c, s, e).workers), Active(s.workers));
    }
  }

  // ---- A worker loses its lease only by a lapse ----

  /** The row still holds the token, or some lease of the URL has lapsed. */
  ghost predicate HeldOrLapsed(rows: Store, log: seq<Op>, lease: LeaseResult) {
    (lease.key in rows && Holds(rows[lease.key], lease.token)) || TallyOf(log, lease.key).lapses > 0
  }

  ghost predicate LapseInv(s: Sys) {
    && (forall t | t in s.workers && !s.workers[t].pc.Reported? :: HeldOrLapsed(s.rows, s.log, s.workers[t].lease))
    && (forall j: nat | Undispatched(s, j) :: HeldOrLapsed(s.rows, s.log, s.acquiring.value.granted[j]))
  }

  lemma LapsesStep(log: seq<Op>, op: Op, k: Key)
    ensures TallyOf(log + [op], k) == Plus(TallyOf(log, k), Replay(log), op, k)
  {
    assert (log + [op])[..|log|] == log;
  }

  /** A statement that takes the row from a token without committing under it is a lapse. */
  lemma LostHoldLapses(h: Tally, s: Store, op: Op, k: Key, t: Token)
    requires k in s && Holds(s[k], t) && !Holds(Touch(op, k, s[k]), t)
    requires IsCommit(op) ==> op.token != t
    ensures Plus(h, s, op, k).lapses > 0
  {
  }

  lemma HeldOrLapsedStep(rows: Store, log: seq<Op>, op: Op, lease: LeaseResult)
    requires rows == Replay(log) && lease.key in rows && HeldOrLapsed(rows, log, lease)
    requires IsCommit(op) ==> op.token != lease.token
    ensures HeldOrLapsed(Apply(rows, op), log + [op], lease)
  {
    LapsesStep(log, op, lease.key);
    if Holds(rows[lease.key], lease.token) && !Holds(Touch(op, lease.key, rows[lease.key]), lease.token) {
      LostHoldLapses(TallyOf(log, lease.key), rows, op, lease.key, lease.token);
    }
  }

  /** Commits are made by workers in their last move, each under the token of its own lease. */
  lemma CommitsAreLast(c: Crawl, s: Sys, e: Event)
    requires Enabled(c, s, e) && TokensInv(s) && StepOp(c, s, e).Some? && IsCommit(StepOp(c, s, e).value)
    ensures e.Move? && e.worker in s.workers && StepOp(c, s, e).value.token == e.worker
    ensures MovePc(c, s.rows, s.workers[e.worker]).Reported?
  {
  }

  lemma HeldOrLapsedNext(c: Crawl, s: Sys, e: Event, lease: LeaseResult)
    requires Enabled(c, s, e) && LogInv(s) && TokensInv(s)
    requires LeaseFits(s, lease) && HeldOrLapsed(s.rows, s.log, lease)
    requires e.Move? && MovePc(c, s.rows, s.workers[e.worker]).Reported? ==> e.worker != lease.token
    ensures HeldOrLapsed(Next(c, s, e).rows, Next(c, s, e).log, lease)
  {
    if StepOp(c, s, e).Some? {
      if IsCommit(StepOp(c, s, e).value) {
        CommitsAreLast(c, s, e);
      }
      HeldOrLapsedStep(s.rows, s.log, StepOp(c, s, e).value, lease);
    }
  }

  /** A worker still at work was at work before, or was dispatched just now. */
  lemma ActiveBefore(c: Crawl, s: Sys, e: Event, t: Token)
    requires Enabled(c, s, e) && TokensInv(s) && t in Next(c, s, e).workers && !Next(c, s, e).workers[t].pc.Reported?
    ensures var lease := Next(c, s, e).workers[t].lease;
      || (&& t in s.workers && lease == s.workers[t].lease && !s.workers[t].pc.Reported?
          && !(e.Move? && e.worker == t && MovePc(c, s.rows, s.workers[t]).Reported?))
      || (e.Dispatch? && Undispatched(s, s.acquiring.value.sent)
          && lease == s.acquiring.value.granted[s.acquiring.value.sent])
  {
    var fate := FateOf(c, s, e, t);
  }

  lemma WorkerLapseKept(c: Crawl, s: Sys, e: Event, t: Token)
    requires Enabled(c, s, e) && LogInv(s) && LeasesInv(s) && TokensInv(s) && LapseInv(s)
    requires t in Next(c, s, e).workers && !Next(c, s, e).workers[t].pc.Reported?
    ensures HeldOrLapsed(Next(c, s, e).rows, Next(c, s, e).log, Next(c, s, e).workers[t].lease)
  {
    ActiveBefore(c, s, e, t);
    var lease := Next(c, s, e).workers[t].lease;
    assert LeaseFits(s, lease);
    HeldOrLapsedNext(c, s, e, lease);
  }

  /** A lease still undispatched was so before, or was granted just now. */
  lemma UndispatchedBefore(c: Crawl, s: Sys, e: Event, j: nat)
    requires Enabled(c, s, e) && Undispatched(Next(c, s, e), j)
    ensures var lease := Next(c, s, e).acquiring.value.granted[j];
      || (Undispatched(s, j) && lease == s.acquiring.value.granted[j])
      || (e.TryGrant? && Effective(s.rows, StepOp(c, s, e).value)
          && lease == LeaseOf(s.rows, StepOp(c, s, e).value.key, s.nextToken, StepOp(c, s, e).value.expiry))
  {
    if e.TryGrant? {
      TriedBatch(c, s);
    }
  }

  lemma UndispatchedLapseKept(c: Crawl, s: Sys, e: Event, j: nat)
    requires Enabled(c, s, e) && LogInv(s) && LeasesInv(s) && TokensInv(s) && LapseInv(s)
    requires Undispatched(Next(c, s, e), j)
    ensures HeldOrLapsed(Next(c, s, e).rows, Next(c, s, e).log, Next(c, s, e).acquiring.value.granted[j])
  {
    UndispatchedBefore(c, s, e, j);
    var lease := Next(c, s, e).acquiring.value.granted[j];
    if Undispatched(s, j) && lease == s.acquiring.value.granted[j] {
      assert lease in s.acquiring.value.granted && lease.token !in s.workers;
      assert LeaseFits(s, lease);
      HeldOrLapsedNext(c, s, e, lease);
    }
  }

  lemma LapseKept(c: Crawl, s: Sys, e: Event)
    requires Enabled(c, s, e) && LogInv(s) && LeasesInv(s) && TokensInv(s) && LapseInv(s)
    ensures LapseInv(Next(c, s, e))
  {
    var s' := Next(c, s, e);
    forall t | t in s'.workers && !s'.workers[t].pc.Reported?
      ensures HeldOrLapsed(s'.rows, s'.log, s'.workers[t].lease)
    {
      WorkerLapseKept(c, s, e, t);
    }
    forall j: nat | Undispatched(s', j)
      ensures HeldOrLapsed(s'.rows, s'.log, s'.acquiring.value.granted[j])
    {
      UndispatchedLapseKept(c, s, e, j);
    }
  }
}

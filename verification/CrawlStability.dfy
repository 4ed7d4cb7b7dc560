/** When a complete crawl is really over: exactly which states some continuation still changes. */
module CrawlStability {
  import opened Wrappers
  import opened Frontier
  import opened MetadataStores
  import opened CrawlSystem
  import opened CrawlInvariants
  import opened CrawlSlots
  import opened CrawlTheorems

  /** A redirect to `u`, reported for the leased URL now, would put a new row into the table. */
  ghost predicate Followable(c: Crawl, rows: Store, lease: LeaseResult, u: Url) {
    HopsOf(rows, lease.key) < c.maxRedirects && Insertable(c, rows, lease, u)
  }

  /** The redirect target is wanted and new, and the foreign key admits the raw URL of its source as parent. */
  ghost predicate Insertable(c: Crawl, rows: Store, lease: LeaseResult, u: Url) {
    Vetted(c, rows, u, lease.depth) && ParentKnown(rows, Target(c, u).value, Some(lease.url))
  }

  /** A link to `u`, reported for the leased URL now, would put a new row into the table. */
  ghost predicate Addable(c: Crawl, rows: Store, lease: LeaseResult, u: Url) {
    Vetted(c, rows, u, lease.depth + 1)
  }

  /** A link from `i` on is in scope, within depth and not stored, and the filter does not choke before it. */
  ghost predicate LinkLeft(c: Crawl, rows: Store, lease: LeaseResult, links: seq<Url>, i: nat) {
    exists j :: i <= j < |links| && Addable(c, rows, lease, links[j]) && forall m | i <= m < j :: !Chokes(c, links[m])
  }

  /** On this table the worker can still insert a key that is not stored. */
  ghost predicate CanInsert(c: Crawl, rows: Store, w: Worker) {
    var Worker(lease, pc) := w;
    match pc
    case Fetching =>
      || (exists u :: Addable(c, rows, lease, u))
      || (exists u :: Followable(c, rows, lease, u))
    case Scanning(links, i) => LinkLeft(c, rows, lease, links, i)
    case Storing(links, i, target) => target !in rows || LinkLeft(c, rows, lease, links, i + 1)
    case CountingHops(location) => Followable(c, rows, lease, location)
    case Vetting(location, _) => Insertable(c, rows, lease, location)
    case Following(_, _, target) => target !in rows && ParentKnown(rows, target, Some(lease.url))
    case _ => false
  }

  /** The worker an undispatched lease would get. */
  function WorkerFor(lease: LeaseResult): Worker {
    Worker(lease, Fetching)
  }

  /**
   The seed is missing and can be enqueued, or a worker, at work or still to be dispatched, can insert a key that is
   not stored.
   */
  ghost predicate SomeoneCanInsert(c: Crawl, s: Sys) {
    || (c.seed !in s.rows && Startable(c))
    || (exists t :: t in s.workers && CanInsert(c, s.rows, s.workers[t]))
    || (exists j: nat :: Undispatched(s, j) && CanInsert(c, s.rows, WorkerFor(s.acquiring.value.granted[j])))
  }

  // ---- If nobody can insert, nothing changes ----

  lemma MoverStaysBarred(c: Crawl, rows: Store, w: Worker)
    requires !CanInsert(c, rows, w) && !w.pc.Fetching?
    ensures !CanInsert(c, rows, w.(pc := MovePc(c, rows, w)))
  {
    var Worker(lease, pc) := w;
    if pc.Scanning? && pc.i < |pc.links| {
      assert !Addable(c, rows, lease, pc.links[pc.i]);
    }
  }

  lemma FaultStaysBarred(c: Crawl, rows: Store, w: Worker)
    requires !CanInsert(c, rows, w) && TouchesStore(c, w)
    ensures !CanInsert(c, rows, w.(pc := FaultPc(w.pc)))
  {
  }

  lemma FetcherStaysBarred(c: Crawl, rows: Store, w: Worker, outcome: Outcome)
    requires !CanInsert(c, rows, w) && w.pc.Fetching?
    ensures !CanInsert(c, rows, w.(pc := AfterFetch(outcome)))
  {
  }

  lemma BarredInsertsNothing(c: Crawl, rows: Store, w: Worker, now: Time, content: Content)
    requires !CanInsert(c, rows, w)
    ensures MoveOp(c, w, now, content).Some? ==> !Inserts(rows, MoveOp(c, w, now, content).value)
  {
  }

  lemma BarredStep(c: Crawl, s: Sys, e: Event)
    requires Enabled(c, s, e) && !SomeoneCanInsert(c, s)
    ensures StepOp(c, s, e).Some? ==> !Inserts(s.rows, StepOp(c, s, e).value)
  {
    if e.Move? {
      assert e.worker in s.workers && !CanInsert(c, s.rows, s.workers[e.worker]);
      BarredInsertsNothing(c, s.rows, s.workers[e.worker], e.readAt, e.content);
    }
  }

  lemma FinishedRows(c: Crawl, s: Sys, e: Event)
    requires Enabled(c, s, e) && AllTerminal(s.rows) && !SomeoneCanInsert(c, s)
    ensures Next(c, s, e).rows == s.rows
  {
    BarredStep(c, s, e);
    var s' := Next(c, s, e);
    forall k | k in s.rows
      ensures k in s'.rows && s'.rows[k] == s.rows[k]
    {
      TerminalStays(c, s, e, k);
    }
    forall k | k in s'.rows
      ensures k in s.rows
    {
      if k !in s.rows {
        NewRowStep(c, s, e, k);
        assert false;
      }
    }
  }

  lemma WorkerStaysBarred(c: Crawl, s: Sys, e: Event, t: Token)
    requires Enabled(c, s, e) && !SomeoneCanInsert(c, s) && t in Next(c, s, e).workers
    ensures !CanInsert(c, s.rows, Next(c, s, e).workers[t])
  {
    if t in s.workers && Next(c, s, e).workers[t] == s.workers[t] {
      assert !CanInsert(c, s.rows, s.workers[t]);
    } else if e.Dispatch? {
      DispatchedWorker(c, s, t);
    } else {
      var fate := FateOf(c, s, e, t);
      assert t in s.workers && !CanInsert(c, s.rows, s.workers[t]);
      match fate
      case Fetches => FetcherStaysBarred(c, s.rows, s.workers[t], e.outcome);
      case Moves => MoverStaysBarred(c, s.rows, s.workers[t]);
      case Faults => FaultStaysBarred(c, s.rows, s.workers[t]);
      case _ =>
    }
  }

  /** The worker a dispatch adds is the one its lease was waiting for. */
  lemma DispatchedWorker(c: Crawl, s: Sys, t: Token)
    requires Enabled(c, s, Dispatch) && t in Next(c, s, Dispatch).workers
    requires !(t in s.workers && Next(c, s, Dispatch).workers[t] == s.workers[t])
    ensures Undispatched(s, s.acquiring.value.sent)
    ensures Next(c, s, Dispatch).workers[t] == WorkerFor(s.acquiring.value.granted[s.acquiring.value.sent])
  {
  }

  /** On a complete table no update of a batch succeeds, so no lease is added to those waiting. */
  lemma NoneAdded(c: Crawl, s: Sys, e: Event, j: nat)
    requires Enabled(c, s, e) && AllTerminal(s.rows) && Undispatched(Next(c, s, e), j)
    ensures Undispatched(s, j) && Next(c, s, e).acquiring.value.granted[j] == s.acquiring.value.granted[j]
  {
    UndispatchedBefore(c, s, e, j);
  }

  lemma FinishedStep(c: Crawl, s: Sys, e: Event)
    requires Enabled(c, s, e) && AllTerminal(s.rows) && !SomeoneCanInsert(c, s)
    ensures Next(c, s, e).rows == s.rows && !SomeoneCanInsert(c, Next(c, s, e))
  {
    FinishedRows(c, s, e);
    var s' := Next(c, s, e);
    forall t | t in s'.workers
      ensures !CanInsert(c, s'.rows, s'.workers[t])
    {
      WorkerStaysBarred(c, s, e, t);
    }
    forall j: nat | Undispatched(s', j)
      ensures !CanInsert(c, s'.rows, WorkerFor(s'.acquiring.value.granted[j]))
    {
      NoneAdded(c, s, e, j);
    }
  }

  /** A complete crawl in which nobody can insert is over: no continuation of any kind changes a single row. */
  lemma {:induction false} QuietForever(c: Crawl, s: Sys, es: seq<Event>)
    requires AllTerminal(s.rows) && !SomeoneCanInsert(c, s) && IsRun(c, s, es)
    ensures Final(c, s, es).rows == s.rows
    decreases |es|
  {
    if es != [] {
      FinishedStep(c, s, es[0]);
      QuietForever(c, Next(c, s, es[0]), es[1..]);
    }
  }

  // ---- If somebody can insert, some continuation changes the table ----

  ghost predicate CanChange(c: Crawl, s: Sys) {
    exists es :: IsRun(c, s, es) && Final(c, s, es).rows != s.rows
  }

  lemma ChangesNow(c: Crawl, s: Sys, e: Event)
    requires Enabled(c, s, e) && Next(c, s, e).rows != s.rows
    ensures CanChange(c, s)
  {
    RunOfOne(c, s, e);
  }

  lemma ChangesLater(c: Crawl, s: Sys, e: Event)
    requires Enabled(c, s, e) && Next(c, s, e).rows == s.rows && CanChange(c, Next(c, s, e))
    ensures CanChange(c, s)
  {
    var es :| IsRun(c, Next(c, s, e), es) && Final(c, Next(c, s, e), es).rows != Next(c, s, e).rows;
    RunPrepends(c, s, e, es);
  }

  /** How many moves the worker is away from its next insert at most. */
  function Rank(pc: Pc): int {
    match pc
    case Scanning(links, i) => 2 * (|links| - i)
    case Storing(links, i, _) => 2 * (|links| - i) - 1
    case CountingHops(_) => 3
    case Vetting(_, _) => 2
    case Following(_, _, _) => 1
    case _ => 0
  }

  predicate WellPlaced(pc: Pc) {
    pc.Storing? ==> pc.i < |pc.links|
  }

  /** A worker that can insert does so in its next move or is one move closer to it. */
  lemma MoverNears(c: Crawl, rows: Store, w: Worker, now: Time)
    requires CanInsert(c, rows, w) && WellPlaced(w.pc) && !w.pc.Fetching?
    ensures var (op, w') := (MoveOp(c, w, now, NO_CONTENT), w.(pc := MovePc(c, rows, w)));
      || (op.Some? && Inserts(rows, op.value))
      || (&& (op.Some? ==> op.value.Insert?) && CanInsert(c, rows, w') && WellPlaced(w'.pc) && !w'.pc.Fetching?
          && 0 <= Rank(w'.pc) < Rank(w.pc))
  {
  }

  lemma InsertShows(s: Store, op: Op)
    requires op.Insert?
    ensures Apply(s, op) != s <==> Inserts(s, op)
  {
    InsertApplied(s, op);
    if Inserts(s, op) {
      assert op.key in Apply(s, op);
    }
  }

  lemma {:induction false} WorkerCanChange(c: Crawl, s: Sys, t: Token)
    requires t in s.workers && CanInsert(c, s.rows, s.workers[t]) && WellPlaced(s.workers[t].pc)
    requires !s.workers[t].pc.Fetching?
    ensures CanChange(c, s)
    decreases Rank(s.workers[t].pc)
  {
    var (w, e) := (s.workers[t], Move(t, s.clock, NO_CONTENT));
    var op := MoveOp(c, w, s.clock, NO_CONTENT);
    MoverNears(c, s.rows, w, s.clock);
    assert Enabled(c, s, e) && StepOp(c, s, e) == op;
    if op.Some? && op.value.Insert? {
      InsertShows(s.rows, op.value);
    }
    if op.Some? && Inserts(s.rows, op.value) {
      ChangesNow(c, s, e);
    } else {
      assert Next(c, s, e).rows == s.rows;
      assert Next(c, s, e).workers[t] == w.(pc := MovePc(c, s.rows, w));
      WorkerCanChange(c, Next(c, s, e), t);
      ChangesLater(c, s, e);
    }
  }

  lemma FetcherCanChange(c: Crawl, s: Sys, t: Token)
    requires t in s.workers && CanInsert(c, s.rows, s.workers[t]) && s.workers[t].pc.Fetching?
    ensures CanChange(c, s)
  {
    var (w, rows) := (s.workers[t], s.rows);
    var e;
    if u :| Addable(c, rows, w.lease, u) {
      e := Fetched(t, Page([u]));
      assert Addable(c, rows, w.lease, [u][0]);
      assert LinkLeft(c, rows, w.lease, [u], 0);
    } else {
      var u :| Followable(c, rows, w.lease, u);
      e := Fetched(t, Moved(u));
    }
    assert Next(c, s, e).workers[t] == w.(pc := AfterFetch(e.outcome));
    WorkerCanChange(c, Next(c, s, e), t);
    ChangesLater(c, s, e);
  }

  /** The update of a candidate that is terminal by now grants nothing. */
  lemma TooLate(c: Crawl, s: Sys)
    requires Enabled(c, s, TryGrant) && AllTerminal(s.rows)
    ensures Next(c, s, TryGrant).rows == s.rows
    ensures Next(c, s, TryGrant).acquiring == Some(s.acquiring.value.(i := s.acquiring.value.i + 1))
  {
    TriedBatch(c, s);
    var op := StepOp(c, s, TryGrant).value;
    forall k | k in s.rows
      ensures Touch(op, k, s.rows[k]) == s.rows[k]
    {
      TerminalUntouched(op, k, s.rows[k]);
    }
    assert Apply(s.rows, op) == s.rows;
  }

  lemma DispatchSends(c: Crawl, s: Sys)
    requires Enabled(c, s, Dispatch) && Undispatched(s, s.acquiring.value.sent)
    ensures var (a, s') := (s.acquiring.value, Next(c, s, Dispatch));
      && s'.rows == s.rows && s'.acquiring == Some(a.(sent := a.sent + 1))
      && a.granted[a.sent].token in s'.workers && s'.workers[a.granted[a.sent].token] == WorkerFor(a.granted[a.sent])
  {
  }

  lemma {:induction false} WaitingCanChange(c: Crawl, s: Sys, j: nat)
    requires AllTerminal(s.rows) && Undispatched(s, j)
    requires CanInsert(c, s.rows, WorkerFor(s.acquiring.value.granted[j]))
    ensures CanChange(c, s)
    decreases |s.acquiring.value.keys| - s.acquiring.value.i, j - s.acquiring.value.sent
  {
    var a := s.acquiring.value;
    if a.i < |a.keys| {
      TooLate(c, s);
      WaitingCanChange(c, Next(c, s, TryGrant), j);
      ChangesLater(c, s, TryGrant);
    } else {
      DispatchSends(c, s);
      if a.sent == j {
        FetcherCanChange(c, Next(c, s, Dispatch), a.granted[j].token);
      } else {
        WaitingCanChange(c, Next(c, s, Dispatch), j);
      }
      ChangesLater(c, s, Dispatch);
    }
  }

  lemma SeedCanChange(c: Crawl, s: Sys)
    requires c.seed !in s.rows && Startable(c)
    ensures CanChange(c, s)
  {
    InsertShows(s.rows, StepOp(c, s, Seed).value);
    ChangesNow(c, s, Seed);
  }

  lemma SomeoneChanges(c: Crawl, s: Sys)
    requires ScopeInv(c, s) && AllTerminal(s.rows) && SomeoneCanInsert(c, s)
    ensures CanChange(c, s)
  {
    if c.seed !in s.rows && Startable(c) {
      SeedCanChange(c, s);
    } else if t :| t in s.workers && CanInsert(c, s.rows, s.workers[t]) {
      assert WorkerScope(c, s, s.workers[t]);
      if s.workers[t].pc.Fetching? { FetcherCanChange(c, s, t); } else { WorkerCanChange(c, s, t); }
    } else {
      var j: nat :| Undispatched(s, j) && CanInsert(c, s.rows, WorkerFor(s.acquiring.value.granted[j]));
      WaitingCanChange(c, s, j);
    }
  }

  lemma NobodyChanges(c: Crawl, s: Sys)
    requires AllTerminal(s.rows) && !SomeoneCanInsert(c, s)
    ensures !CanChange(c, s)
  {
    forall es | IsRun(c, s, es)
      ensures Final(c, s, es).rows == s.rows
    {
      QuietForever(c, s, es);
    }
  }

  /**
   Completion alone is not stable, and this is exactly when it is not: some continuation of a complete crawl
   changes the table if and only if somebody can still insert a key that is in scope, within depth and not stored.
   */
  lemma CompleteChangesIff(c: Crawl, s: Sys)
    requires Reached(c, s) && AllTerminal(s.rows)
    ensures CanChange(c, s) <==> SomeoneCanInsert(c, s)
  {
    InvReached(c, s);
    if SomeoneCanInsert(c, s) {
      SomeoneChanges(c, s);
    } else {
      NobodyChanges(c, s);
    }
  }
}

/** The pool that bounds the workers in flight, and the scheduler loop that feeds it. */
module WorkerPools {
  import opened Wrappers

  type Id = nat

  /** Where `Scheduler.run` stands between awaits. */
  datatype Stage =
    | Looking                     // about to compute the available slots
    | Waiting                     // inside wait_for_slot, on the event
    | Leasing(count: nat)         // acquiring a batch of at most `count`
    | Dispatching(left: nat)      // `left` leases of the batch still to dispatch
    | Pausing                     // sleeping for the poll interval

  datatype Pool = Pool(permits: int, active: int, slotSet: bool, running: set<Id>, stage: Stage)

  datatype Event =
    | Look
    | Notified                    // the slot event is set
    | Leased(n: nat)
    | DispatchOne(id: Id)
    | Finish(id: Id)
    | Resume

  predicate Enabled(p: Pool, e: Event) {
    match e
    case Look => p.stage.Looking?
    case Notified => p.stage.Waiting? && p.slotSet
    case Leased(n) => p.stage.Leasing? && n <= p.stage.count
    case DispatchOne(id) => p.stage.Dispatching? && p.stage.left > 0 && p.permits > 0 && id !in p.running
    case Finish(id) => id in p.running
    case Resume => p.stage.Pausing?
  }

  /** One turn of the loop in `wait_for_slot`. */
  function TryWait(p: Pool, maxConcurrency: nat): Pool {
    if p.active < maxConcurrency then p.(stage := Looking) else p.(slotSet := false, stage := Waiting)
  }

  function Next(p: Pool, e: Event, maxConcurrency: nat, batchSize: nat): Pool
    requires Enabled(p, e)
  {
    match e
    case Look =>
      var slots := maxConcurrency - p.active;
      if slots <= 0 then TryWait(p, maxConcurrency) else p.(stage := Leasing(Min(slots, batchSize)))
    case Notified => TryWait(p, maxConcurrency)
    case Leased(n) => p.(stage := if n == 0 then Pausing else Dispatching(n))
    case DispatchOne(id) =>
      var left := p.stage.left - 1;
      Pool(p.permits - 1, p.active + 1, if p.active + 1 >= maxConcurrency then false else p.slotSet,
           p.running + {id}, if left == 0 then Pausing else Dispatching(left))
    case Finish(id) => Pool(p.permits + 1, p.active - 1, true, p.running - {id}, p.stage)
    case Resume => p.(stage := Looking)
  }

  predicate Inv(p: Pool, maxConcurrency: nat, batchSize: nat) {
    && p.permits + p.active == maxConcurrency && 0 <= p.permits
    && p.active == |p.running|
    && (p.slotSet <==> p.active < maxConcurrency)
    && (p.stage.Leasing? ==> p.stage.count <= p.permits && p.stage.count <= batchSize)
    && (p.stage.Dispatching? ==> 0 < p.stage.left <= p.permits && p.stage.left <= batchSize)
  }

  function Fresh(maxConcurrency: nat): Pool {
    Pool(maxConcurrency, 0, true, {}, Looking)
  }

  /** Every step of every interleaving of the scheduler and its workers keeps the books. */
  lemma InvKept(p: Pool, e: Event, maxConcurrency: nat, batchSize: nat)
    requires Inv(p, maxConcurrency, batchSize) && Enabled(p, e)
    ensures Inv(Next(p, e, maxConcurrency, batchSize), maxConcurrency, batchSize)
  {
    match e
    case Finish(id) => assert |p.running - {id}| == |p.running| - 1;
    case _ =>
  }

  ghost predicate IsRun(p: Pool, es: seq<Event>, maxConcurrency: nat, batchSize: nat)
    decreases |es|
  {
    || es == []
    || (Enabled(p, es[0]) && IsRun(Next(p, es[0], maxConcurrency, batchSize), es[1..], maxConcurrency, batchSize))
  }

  ghost function Final(p: Pool, es: seq<Event>, maxConcurrency: nat, batchSize: nat): Pool
    requires IsRun(p, es, maxConcurrency, batchSize)
    decreases |es|
  {
    if es == [] then p else Final(Next(p, es[0], maxConcurrency, batchSize), es[1..], maxConcurrency, batchSize)
  }

  lemma {:induction false} InvOnRuns(p: Pool, es: seq<Event>, maxConcurrency: nat, batchSize: nat)
    requires Inv(p, maxConcurrency, batchSize) && IsRun(p, es, maxConcurrency, batchSize)
    ensures Inv(Final(p, es, maxConcurrency, batchSize), maxConcurrency, batchSize)
    decreases |es|
  {
    if es != [] {
      InvKept(p, es[0], maxConcurrency, batchSize);
      InvOnRuns(Next(p, es[0], maxConcurrency, batchSize), es[1..], maxConcurrency, batchSize);
    }
  }

  /**
   In every interleaving: permits and active workers add up to the limit, the slot event is set exactly when
   there is room, a batch is never larger than the batch size or the room there is, no dispatch ever waits for a
   permit, and a scheduler waiting for a slot is woken exactly when there is one, by a worker that is still running
   until then.
   */
  lemma PoolConserves(maxConcurrency: nat, batchSize: nat, es: seq<Event>)
    requires maxConcurrency > 0 && IsRun(Fresh(maxConcurrency), es, maxConcurrency, batchSize)
    ensures var p := Final(Fresh(maxConcurrency), es, maxConcurrency, batchSize);
      && p.permits + p.active == maxConcurrency && p.active == |p.running| <= maxConcurrency
      && (p.slotSet <==> p.active < maxConcurrency)
      && (p.stage.Leasing? ==> p.stage.count <= batchSize && p.stage.count <= maxConcurrency - p.active)
      && (p.stage.Dispatching? ==> p.permits > 0 && p.stage.left <= batchSize)
      && (p.stage.Waiting? ==> (p.slotSet ==> p.permits > 0) && (!p.slotSet ==> p.running != {}))
  {
    InvOnRuns(Fresh(maxConcurrency), es, maxConcurrency, batchSize);
  }

  /** The pool object; each method is the code between two awaits. */
  class WorkerPool {
    const maxConcurrency: nat
    var permits: int
    var activeCount: int
    var slotAvailable: bool
    ghost var running: set<Id>

    ghost predicate Valid()
      reads this
    {
      && permits + activeCount == maxConcurrency && 0 <= permits
      && activeCount == |running|
      && (slotAvailable <==> activeCount < maxConcurrency)
    }

    constructor (maxConcurrency: nat)
      requires maxConcurrency > 0
      ensures Valid() && running == {} && this.maxConcurrency == maxConcurrency
    {
      this.maxConcurrency := maxConcurrency;
      permits := maxConcurrency;
      activeCount := 0;
      slotAvailable := true;
      running := {};
    }

    /** `dispatch` once the semaphore has let it through. */
    method Dispatch(ghost id: Id)
      requires Valid() && permits > 0 && id !in running
      modifies this
      ensures Valid() && running == old(running) + {id}
    {
      permits := permits - 1;
      activeCount := activeCount + 1;
      if activeCount >= maxConcurrency {
        slotAvailable := false;
      }
      running := running + {id};
    }

    /** The end of `_run_worker`. */
    method EndWorker(ghost id: Id)
      requires Valid() && id in running
      modifies this
      ensures Valid() && running == old(running) - {id}
    {
      permits := permits + 1;
      activeCount := activeCount - 1;
      slotAvailable := true;
      running := running - {id};
    }

    method HasCapacity() returns (b: bool)
      requires Valid()
      ensures b <==> |running| < maxConcurrency
      ensures b <==> slotAvailable
    {
      b := activeCount < maxConcurrency;
    }
  }
}

/** The gateway all fetches go through: bounded admission, bounded concurrency, and waits after a 429. */
module RateLimiters {
  import opened Wrappers
  import opened Backoff

  const MAX_QUEUE: nat := 1000
  const MAX_429: nat := 10

  type Id = nat

  /**
   Where an admitted `execute` call stands between awaits: waiting on the cleared event, past the event (a waiter
   woken by `set` passes even if the event is cleared again before it resumes), waiting for a permit, holding one,
   or waiting out its own 429.
   */
  datatype Phase = AtGate | PastGate | AtSemaphore | Calling | Sleeping

  /** `failures` is the local 429 counter; the rest is history. */
  datatype Caller = Caller(phase: Phase, failures: nat, calls: nat, sleeps: nat, slept: real, headerFree: bool)

  datatype Exit = Returned | Raised | Exhausted

  datatype Report = Report(exit: Exit, calls: nat, sleeps: nat, slept: real, headerFree: bool)

  datatype Reply = Fine | Broken | TooMany(header: Header)

  datatype Limiter = Limiter(pending: int, permits: int, gateOpen: bool, callers: map<Id, Caller>, reports: seq<Report>)

  datatype Event =
    | Arrive(id: Id)
    | PassGate(id: Id)
    | Acquire(id: Id)
    | Answer(id: Id, reply: Reply)
    | Wake(id: Id)

  predicate At(m: Limiter, id: Id, phase: Phase) {
    id in m.callers && m.callers[id].phase == phase
  }

  predicate Enabled(m: Limiter, e: Event) {
    match e
    case Arrive(id) => id !in m.callers
    case PassGate(id) => At(m, id, PastGate)
    case Acquire(id) => At(m, id, AtSemaphore) && m.permits > 0
    case Answer(id, _) => At(m, id, Calling)
    case Wake(id) => At(m, id, Sleeping)
  }

  function Leave(m: Limiter, id: Id, exit: Exit): Limiter
    requires id in m.callers
  {
    var c := m.callers[id];
    m.(pending := m.pending - 1, callers := m.callers - {id},
       reports := m.reports + [Report(exit, c.calls, c.sleeps, c.slept, c.headerFree)])
  }

  /** Setting the event wakes everybody who waits on it. */
  function Woken(callers: map<Id, Caller>): (woken: map<Id, Caller>)
    ensures woken.Keys == callers.Keys
  {
    map id | id in callers :: if callers[id].phase.AtGate? then callers[id].(phase := PastGate) else callers[id]
  }

  function Next(m: Limiter, e: Event): Limiter
    requires Enabled(m, e)
  {
    match e
    case Arrive(id) =>
      if m.pending >= MAX_QUEUE then m
      else
        var phase := if m.gateOpen then PastGate else AtGate;
        m.(pending := m.pending + 1, callers := m.callers[id := Caller(phase, 0, 0, 0, 0.0, true)])
    case PassGate(id) => m.(callers := m.callers[id := m.callers[id].(phase := AtSemaphore)])
    case Acquire(id) =>
      m.(permits := m.permits - 1,
         callers := m.callers[id := m.callers[id].(phase := Calling, calls := m.callers[id].calls + 1)])
    case Answer(id, reply) =>
      var released := m.(permits := m.permits + 1);
      match reply {
        case Fine => Leave(released, id, Returned)
        case Broken => Leave(released, id, Raised)
        case TooMany(header) =>
          var c := m.callers[id];
          var failures := c.failures + 1;
          if failures >= MAX_429 then Leave(released, id, Exhausted)
          else released.(gateOpen := false, callers := m.callers[id :=
                 Caller(Sleeping, failures, c.calls, c.sleeps + 1, c.slept + ComputeBackoff(header, failures),
                        c.headerFree && !Usable(header))])
      }
    case Wake(id) => m.(gateOpen := true, callers := Woken(m.callers[id := m.callers[id].(phase := PastGate)]))
  }

  function InPhase(m: Limiter, phase: Phase): set<Id> {
    set id | id in m.callers && m.callers[id].phase == phase
  }

  /** One `execute` call so far: as many calls as 429s, one more while a call is out, and a wait after each 429. */
  predicate CallerOk(c: Caller) {
    && c.failures < MAX_429
    && c.calls == c.failures + (if c.phase.Calling? then 1 else 0)
    && c.sleeps == c.failures
    && c.slept <= 300.0 * c.sleeps as real
    && (c.headerFree ==> c.slept == ExponentialBackoffs(c.sleeps) as real)
  }

  /** One finished `execute` call. */
  predicate ReportOk(r: Report) {
    && 1 <= r.calls <= 10 && r.sleeps == r.calls - 1
    && r.slept <= 2700.0 && (r.headerFree ==> r.slept <= 243.0)
    && (r.exit.Exhausted? ==> r.calls == 10)
  }

  predicate Inv(m: Limiter, maxConcurrency: nat) {
    && m.pending == |m.callers| <= MAX_QUEUE
    && 0 <= m.permits && m.permits + |InPhase(m, Calling)| == maxConcurrency
    && (m.gateOpen || InPhase(m, Sleeping) != {})
    && (m.gateOpen ==> InPhase(m, AtGate) == {})
    && (forall id | id in m.callers :: CallerOk(m.callers[id]))
    && (forall i | 0 <= i < |m.reports| :: ReportOk(m.reports[i]))
  }

  /** The limiter as `__init__` leaves it. */
  function Fresh(maxConcurrency: nat): Limiter {
    Limiter(0, maxConcurrency, true, map[], [])
  }

  lemma SleepBound(c: Caller)
    requires CallerOk(c)
    ensures c.slept <= 2700.0 && (c.headerFree ==> c.slept <= 243.0)
  {
    ExponentialBackoffsClosed(c.sleeps);
    assert 300.0 * c.sleeps as real <= 2700.0;
    if c.headerFree && c.sleeps <= 6 {
      Pow2Grows(c.sleeps, 6);
      assert Pow2(6) == 64;
    }
  }

  /** A caller that goes on after a 429 keeps its books. */
  lemma FailureKeepsBooks(c: Caller, header: Header)
    requires CallerOk(c) && c.phase.Calling? && c.failures + 1 < MAX_429
    ensures CallerOk(Caller(Sleeping, c.failures + 1, c.calls, c.sleeps + 1,
                            c.slept + ComputeBackoff(header, c.failures + 1), c.headerFree && !Usable(header)))
  {
    BackoffBounds(header, c.failures + 1);
  }

  /** Changing one caller changes each phase by at most that caller. */
  lemma PhaseMoves(m: Limiter, m': Limiter, id: Id, phase: Phase)
    requires id in m.callers && m'.callers.Keys == m.callers.Keys
    requires forall j | j in m.callers && j != id :: m'.callers[j] == m.callers[j]
    ensures InPhase(m', phase) ==
            if m'.callers[id].phase == phase then InPhase(m, phase) + {id} else InPhase(m, phase) - {id}
  {
  }

  lemma LeaveKeeps(m: Limiter, id: Id, exit: Exit, maxConcurrency: nat)
    requires Inv(m, maxConcurrency) && At(m, id, Calling)
    requires exit.Exhausted? ==> m.callers[id].calls == 10
    ensures Inv(Leave(m.(permits := m.permits + 1), id, exit), maxConcurrency)
  {
    var m' := Leave(m.(permits := m.permits + 1), id, exit);
    assert InPhase(m', Calling) == InPhase(m, Calling) - {id};
    assert InPhase(m', Sleeping) == InPhase(m, Sleeping);
    assert InPhase(m', AtGate) == InPhase(m, AtGate);
    assert m'.callers.Keys == m.callers.Keys - {id};
    assert |m'.callers| == |m.callers.Keys - {id}|;
    SleepBound(m.callers[id]);
  }

  lemma SamePhases(m: Limiter, m': Limiter, id: Id)
    requires id in m.callers && m'.callers.Keys == m.callers.Keys
    requires forall j | j in m.callers && j != id :: m'.callers[j] == m.callers[j]
    ensures |m'.callers| == |m.callers|
    ensures |InPhase(m', Calling)| == |InPhase(m, Calling)|
              + (if m'.callers[id].phase.Calling? then 1 else 0) - (if m.callers[id].phase.Calling? then 1 else 0)
    ensures m'.callers[id].phase.Sleeping? ==> id in InPhase(m', Sleeping)
    ensures !m.callers[id].phase.Sleeping? ==> InPhase(m, Sleeping) <= InPhase(m', Sleeping)
    ensures !m'.callers[id].phase.AtGate? ==> InPhase(m', AtGate) <= InPhase(m, AtGate)
  {
    PhaseMoves(m, m', id, AtGate);
    PhaseMoves(m, m', id, Calling);
    PhaseMoves(m, m', id, Sleeping);
    assert |m'.callers| == |m'.callers.Keys| && |m.callers| == |m.callers.Keys|;
  }

  /** A step that moves one caller on, keeping its books and the permits, keeps everything. */
  lemma CallerMoves(m: Limiter, m': Limiter, id: Id, maxConcurrency: nat)
    requires Inv(m, maxConcurrency) && id in m.callers && m'.callers.Keys == m.callers.Keys
    requires forall j | j in m.callers && j != id :: m'.callers[j] == m.callers[j]
    requires m'.pending == m.pending && m'.reports == m.reports && CallerOk(m'.callers[id])
    requires m'.permits == m.permits + (if m.callers[id].phase.Calling? then 1 else 0)
                                     - (if m'.callers[id].phase.Calling? then 1 else 0)
    requires 0 <= m'.permits
    requires m'.gateOpen || m'.callers[id].phase.Sleeping? || (!m.gateOpen && !m.callers[id].phase.Sleeping?)
    requires m'.gateOpen ==> m.gateOpen && !m'.callers[id].phase.AtGate?
    ensures Inv(m', maxConcurrency)
  {
    SamePhases(m, m', id);
  }

  lemma ArriveKeeps(m: Limiter, id: Id, maxConcurrency: nat)
    requires Inv(m, maxConcurrency) && id !in m.callers
    ensures Inv(Next(m, Arrive(id)), maxConcurrency)
  {
    var m' := Next(m, Arrive(id));
    if m.pending < MAX_QUEUE {
      assert InPhase(m', Calling) == InPhase(m, Calling);
      assert InPhase(m', Sleeping) == InPhase(m, Sleeping);
      assert m.gateOpen ==> InPhase(m', AtGate) == InPhase(m, AtGate);
      assert m'.callers.Keys == m.callers.Keys + {id};
      assert |m'.callers| == |m.callers.Keys + {id}|;
    }
  }

  lemma PassGateKeeps(m: Limiter, id: Id, maxConcurrency: nat)
    requires Inv(m, maxConcurrency) && Enabled(m, PassGate(id))
    ensures Inv(Next(m, PassGate(id)), maxConcurrency)
  {
    CallerMoves(m, Next(m, PassGate(id)), id, maxConcurrency);
  }

  lemma AcquireKeeps(m: Limiter, id: Id, maxConcurrency: nat)
    requires Inv(m, maxConcurrency) && Enabled(m, Acquire(id))
    ensures Inv(Next(m, Acquire(id)), maxConcurrency)
  {
    CallerMoves(m, Next(m, Acquire(id)), id, maxConcurrency);
  }

  lemma WakeKeeps(m: Limiter, id: Id, maxConcurrency: nat)
    requires Inv(m, maxConcurrency) && Enabled(m, Wake(id))
    ensures Inv(Next(m, Wake(id)), maxConcurrency)
  {
    var m' := Next(m, Wake(id));
    assert m'.callers.Keys == m.callers.Keys;
    assert |m'.callers| == |m'.callers.Keys| && |m.callers| == |m.callers.Keys|;
    assert InPhase(m', Calling) == InPhase(m, Calling);
    assert InPhase(m', AtGate) == {};
  }

  lemma BackoffKeeps(m: Limiter, id: Id, header: Header, maxConcurrency: nat)
    requires Inv(m, maxConcurrency) && At(m, id, Calling) && m.callers[id].failures + 1 < MAX_429
    ensures Inv(Next(m, Answer(id, TooMany(header))), maxConcurrency)
  {
    FailureKeepsBooks(m.callers[id], header);
    CallerMoves(m, Next(m, Answer(id, TooMany(header))), id, maxConcurrency);
  }

  lemma AnswerKeeps(m: Limiter, id: Id, reply: Reply, maxConcurrency: nat)
    requires Inv(m, maxConcurrency) && Enabled(m, Answer(id, reply))
    ensures Inv(Next(m, Answer(id, reply)), maxConcurrency)
  {
    match reply
    case Fine => LeaveKeeps(m, id, Returned, maxConcurrency);
    case Broken => LeaveKeeps(m, id, Raised, maxConcurrency);
    case TooMany(header) =>
      if m.callers[id].failures + 1 >= MAX_429 {
        LeaveKeeps(m, id, Exhausted, maxConcurrency);
      } else {
        BackoffKeeps(m, id, header, maxConcurrency);
      }
  }

  /** Every step of every interleaving keeps the conservation laws. */
  lemma InvKept(m: Limiter, e: Event, maxConcurrency: nat)
    requires Inv(m, maxConcurrency) && Enabled(m, e)
    ensures Inv(Next(m, e), maxConcurrency)
  {
    match e
    case Arrive(id) => ArriveKeeps(m, id, maxConcurrency);
    case PassGate(id) => PassGateKeeps(m, id, maxConcurrency);
    case Acquire(id) => AcquireKeeps(m, id, maxConcurrency);
    case Answer(id, reply) => AnswerKeeps(m, id, reply, maxConcurrency);
    case Wake(id) => WakeKeeps(m, id, maxConcurrency);
  }

  ghost predicate IsRun(m: Limiter, es: seq<Event>)
    decreases |es|
  {
    es == [] || (Enabled(m, es[0]) && IsRun(Next(m, es[0]), es[1..]))
  }

  ghost function Final(m: Limiter, es: seq<Event>): Limiter
    requires IsRun(m, es)
    decreases |es|
  {
    if es == [] then m else Final(Next(m, es[0]), es[1..])
  }

  lemma {:induction false} InvOnRuns(m: Limiter, es: seq<Event>, maxConcurrency: nat)
    requires Inv(m, maxConcurrency) && IsRun(m, es)
    ensures Inv(Final(m, es), maxConcurrency)
    decreases |es|
  {
    if es != [] {
      InvKept(m, es[0], maxConcurrency);
      InvOnRuns(Next(m, es[0]), es[1..], maxConcurrency);
    }
  }

  /**
   In every interleaving: the pending count is the number of admitted calls not yet finished and stays within
   0..1000, free and held permits add up, and a finished call has fetched at most ten times and waited at most
   nine, 243 seconds in all if no header decided and 2700 otherwise.
   */
  lemma LimiterConserves(maxConcurrency: nat, es: seq<Event>)
    requires IsRun(Fresh(maxConcurrency), es)
    ensures var m := Final(Fresh(maxConcurrency), es);
      && m.pending == |m.callers| && 0 <= m.pending <= 1000
      && m.permits + |InPhase(m, Calling)| == maxConcurrency && 0 <= m.permits
      && (forall id | id in m.callers :: m.callers[id].calls <= 10 && m.callers[id].sleeps <= 9)
      && (forall i | 0 <= i < |m.reports| :: ReportOk(m.reports[i]))
  {
    assert InPhase(Fresh(maxConcurrency), Calling) == {};
    InvOnRuns(Fresh(maxConcurrency), es, maxConcurrency);
  }

  /**
   Nobody waits at an open gate, the gate never stays shut with nobody to open it, nor the semaphore empty with
   nobody holding a permit.
   */
  lemma NeverStuck(m: Limiter, maxConcurrency: nat, id: Id) returns (e: Event)
    requires Inv(m, maxConcurrency) && maxConcurrency > 0 && id in m.callers
    ensures Enabled(m, e) && !e.Arrive?
    ensures m.callers[id].phase.AtGate? ==> !m.gateOpen
  {
    match m.callers[id].phase
    case Calling => e := Answer(id, Fine);
    case Sleeping => e := Wake(id);
    case PastGate => e := PassGate(id);
    case AtGate =>
      assert id in InPhase(m, AtGate);
      var sleeper :| sleeper in InPhase(m, Sleeping);
      e := Wake(sleeper);
    case AtSemaphore =>
      if m.permits > 0 {
        e := Acquire(id);
      } else {
        var holder :| holder in InPhase(m, Calling);
        e := Answer(holder, Fine);
      }
  }

  /** The limiter object; each method is the code between two awaits, `model` the callers seen from outside. */
  class RateLimiter {
    var pendingCount: int
    var permits: int
    var gateOpen: bool
    ghost const maxConcurrency: nat
    ghost var model: Limiter

    ghost predicate Valid()
      reads this
    {
      && pendingCount == model.pending && permits == model.permits && gateOpen == model.gateOpen
      && Inv(model, maxConcurrency)
    }

    constructor (maxConcurrency: nat)
      ensures Valid() && model == Fresh(maxConcurrency) && this.maxConcurrency == maxConcurrency
    {
      pendingCount := 0;
      permits := maxConcurrency;
      gateOpen := true;
      this.maxConcurrency := maxConcurrency;
      model := Fresh(maxConcurrency);
      new;
      assert InPhase(model, Calling) == {};
    }

    /** The entry of `execute`; refused with QueueOverflowError when 1000 calls are pending. */
    method Admit(ghost id: Id) returns (admitted: bool)
      requires Valid() && id !in model.callers
      modifies this
      ensures Valid() && model == Next(old(model), Arrive(id))
      ensures admitted <==> old(pendingCount) < 1000
      ensures admitted <==> id in model.callers
    {
      InvKept(model, Arrive(id), maxConcurrency);
      model := Next(model, Arrive(id));
      admitted := pendingCount < MAX_QUEUE;
      if admitted {
        pendingCount := pendingCount + 1;
      }
    }

    /** The end of the wait on the event; the event may have been cleared again since it woke the caller. */
    method PassGate(ghost id: Id)
      requires Valid() && At(model, id, PastGate)
      modifies this
      ensures Valid() && model == Next(old(model), Event.PassGate(id))
    {
      InvKept(model, Event.PassGate(id), maxConcurrency);
      model := Next(model, Event.PassGate(id));
    }

    method AcquireSlot(ghost id: Id)
      requires Valid() && At(model, id, AtSemaphore) && permits > 0
      modifies this
      ensures Valid() && model == Next(old(model), Acquire(id))
      ensures permits == old(permits) - 1 && At(model, id, Calling)
    {
      InvKept(model, Acquire(id), maxConcurrency);
      model := Next(model, Acquire(id));
      permits := permits - 1;
    }

    /** From the answer of `fn` to the next await: the end of `execute`, or a wait with the gate shut. */
    method TakeAnswer(ghost id: Id, reply: Reply, failures: nat) returns (exit: Option<Exit>, delay: real)
      requires Valid() && At(model, id, Calling) && model.callers[id].failures == failures
      modifies this
      ensures Valid() && model == Next(old(model), Answer(id, reply))
      ensures permits == old(permits) + 1 && pendingCount == old(pendingCount) - if exit.Some? then 1 else 0
      ensures exit == match reply
                      case Fine => Some(Returned)
                      case Broken => Some(Raised)
                      case TooMany(_) => if failures == 9 then Some(Exhausted) else None
      ensures exit.None? ==> delay == ComputeBackoff(reply.header, failures + 1)
      ensures exit.Some? ==> gateOpen == old(gateOpen)
      ensures exit.Some? <==> id !in model.callers
      ensures exit.None? ==> !gateOpen && model.callers[id].slept == old(model).callers[id].slept + delay
      ensures exit.Some? ==> model.reports != [] && model.reports[|model.reports| - 1].exit == exit.value
    {
      InvKept(model, Answer(id, reply), maxConcurrency);
      model := Next(model, Answer(id, reply));
      permits := permits + 1;
      delay := 0.0;
      match reply {
        case Fine => exit := Some(Returned);
        case Broken => exit := Some(Raised);
        case TooMany(header) =>
          if failures + 1 >= MAX_429 {
            exit := Some(Exhausted);
          } else {
            exit := None;
            delay := ComputeBackoff(header, failures + 1);
            gateOpen := false;
          }
      }
      if exit.Some? {
        pendingCount := pendingCount - 1;
      }
    }

    method EndBackoff(ghost id: Id)
      requires Valid() && At(model, id, Sleeping)
      modifies this
      ensures Valid() && model == Next(old(model), Wake(id))
      ensures gateOpen && forall j | j in model.callers :: !model.callers[j].phase.AtGate?
    {
      InvKept(model, Wake(id), maxConcurrency);
      model := Next(model, Wake(id));
      gateOpen := true;
    }
  }

  /** How many 429s come first. */
  function LeadingRefusals(replies: seq<Reply>): nat {
    if replies == [] || !replies[0].TooMany? then 0 else 1 + LeadingRefusals(replies[1..])
  }

  lemma {:induction false} LeadingRefusalsMeans(replies: seq<Reply>)
    ensures LeadingRefusals(replies) <= |replies|
    ensures forall i | 0 <= i < LeadingRefusals(replies) :: replies[i].TooMany?
    ensures LeadingRefusals(replies) < |replies| ==> !replies[LeadingRefusals(replies)].TooMany?
  {
    if replies != [] && replies[0].TooMany? {
      LeadingRefusalsMeans(replies[1..]);
    }
  }

  /** The retry loop of one call, given what its successive fetches would answer. */
  method ExecuteWithRetry(replies: seq<Reply>) returns (exit: Exit, calls: nat, delays: seq<real>)
    requires |replies| >= MAX_429
    ensures var n := LeadingRefusals(replies);
      if n >= MAX_429 then exit == Exhausted && calls == 10 && |delays| == 9
      else calls == n + 1 && |delays| == n && exit == if replies[n].Fine? then Returned else Raised
    ensures forall i | 0 <= i < |delays| :: replies[i].TooMany? && delays[i] == ComputeBackoff(replies[i].header, i + 1)
  {
    LeadingRefusalsMeans(replies);
    var failures := 0;
    calls, delays := 0, [];
    while true
      invariant failures < MAX_429 && calls == failures == |delays|
      invariant failures <= LeadingRefusals(replies)
      invariant forall i | 0 <= i < |delays| ::
                  replies[i].TooMany? && delays[i] == ComputeBackoff(replies[i].header, i + 1)
      decreases MAX_429 - failures
    {
      var reply := replies[calls];
      calls := calls + 1;
      match reply {
        case Fine => return Returned, calls, delays;
        case Broken => return Raised, calls, delays;
        case TooMany(header) =>
          failures := failures + 1;
          if failures >= MAX_429 {
            return Exhausted, calls, delays;
          }
          delays := delays + [ComputeBackoff(header, failures)];
      }
    }
  }
}

/** Runs of the crawl that really occur and show what it does not guarantee. */
module CrawlRuns {
  import opened Wrappers
  import opened Frontier
  import opened Selection
  import opened MetadataStores
  import opened LeaseLifetime
  import opened CrawlSystem
  import opened CrawlInvariants
  import opened CrawlTheorems

  // ---- Leasing the seed ----

  lemma ReachedStep(c: Crawl, s: Sys, e: Event, s': Sys)
    requires Reached(c, s) && Step(c, s, e, s')
    ensures Reached(c, s')
  {
    ReachedNext(c, s, e);
  }

  /** Only the seed is stored, and no batch is under way. */
  ghost predicate SeedAlone(c: Crawl, s: Sys) {
    && s.rows.Keys == {c.seed} && s.rows[c.seed].url == c.seedUrl && s.rows[c.seed].depth == 0
    && s.rows[c.seed].redirectCount == 0 && s.acquiring.None?
  }

  /** The lease of the seed under `t`, granted at `now`. */
  function SeedLease(c: Crawl, t: Token, now: Time): LeaseResult {
    LeaseResult(c.seed, c.seedUrl, 0, t, now + c.leaseTtl)
  }

  lemma SeedStored(c: Crawl) returns (s: Sys)
    requires Startable(c)
    ensures Reached(c, s) && SeedAlone(c, s) && s.rows[c.seed].state.Pending? && s.clock == 0 && s.nextToken == 0
    ensures s.workers == map[] && s.missed == {}
  {
    assert IsRun(c, START, []) && Final(c, START, []) == START;
    s := Next(c, START, Seed);
    ReachedNext(c, START, Seed);
  }

  lemma SeedSelected(c: Crawl, s: Sys)
    requires SeedAlone(c, s) && MayAsk(c, s, 1) && Eligible(s.rows[c.seed], s.clock) && s.lastRead <= s.clock
    ensures Enabled(c, s, Select(s.clock, 1, [c.seed]))
    ensures Next(c, s, Select(s.clock, 1, [c.seed]))
         == s.(lastRead := s.clock, acquiring := Some(Acquisition(s.clock, 1, |s.log|, [c.seed], 0, [], 0)))
  {
    assert c.seed in s.rows;
  }

  lemma SeedGranted(c: Crawl, s: Sys, a: Acquisition)
    requires SeedAlone(c, s.(acquiring := None)) && Eligible(s.rows[c.seed], s.clock)
    requires s.acquiring == Some(a) && a.now == s.clock && a.keys == [c.seed] && a.i == 0 && a.granted == []
    ensures Enabled(c, s, TryGrant)
    ensures var s' := Next(c, s, TryGrant);
      && SeedAlone(c, s'.(acquiring := None)) && s'.clock == s.clock && s'.nextToken == s.nextToken + 1
      && s'.workers == s.workers && s'.missed == s.missed
      && LeasedUntil(s'.rows, c.seed, s.nextToken, s.clock + c.leaseTtl, 0)
      && s'.acquiring == Some(a.(i := 1, granted := [SeedLease(c, s.nextToken, s.clock)]))
  {
    TriedBatch(c, s);
    var op := StepOp(c, s, TryGrant).value;
    assert c.seed in s.rows;
    assert Apply(s.rows, op).Keys == s.rows.Keys;
    assert [] + [LeaseOf(s.rows, op.key, op.token, op.expiry)] == [SeedLease(c, s.nextToken, s.clock)];
  }

  lemma LeaseSent(c: Crawl, s: Sys, a: Acquisition, lease: LeaseResult)
    requires s.acquiring == Some(a) && |a.keys| == a.i == 1 && a.granted == [lease] && a.sent == 0
    ensures Enabled(c, s, Dispatch) && Enabled(c, Next(c, s, Dispatch), Dispatch)
    ensures Next(c, Next(c, s, Dispatch), Dispatch)
         == s.(acquiring := None, workers := s.workers[lease.token := Worker(lease, Fetching)])
  {
  }

  lemma SeedSteps(c: Crawl, s: Sys) returns (s1: Sys, s2: Sys, s3: Sys, s4: Sys)
    requires SeedAlone(c, s) && MayAsk(c, s, 1) && Eligible(s.rows[c.seed], s.clock) && s.lastRead <= s.clock
    ensures Step(c, s, Select(s.clock, 1, [c.seed]), s1) && Step(c, s1, TryGrant, s2)
    ensures Step(c, s2, Dispatch, s3) && Step(c, s3, Dispatch, s4)
    ensures SeedAlone(c, s4) && s4.nextToken == s.nextToken + 1 && s4.clock == s.clock && s4.missed == s.missed
    ensures LeasedUntil(s4.rows, c.seed, s.nextToken, s.clock + c.leaseTtl, 0)
    ensures s4.workers == s.workers[s.nextToken := Worker(SeedLease(c, s.nextToken, s.clock), Fetching)]
  {
    SeedSelected(c, s);
    s1 := Next(c, s, Select(s.clock, 1, [c.seed]));
    var a := s1.acquiring.value;
    SeedGranted(c, s1, a);
    s2 := Next(c, s1, TryGrant);
    LeaseSent(c, s2, s2.acquiring.value, SeedLease(c, s.nextToken, s.clock));
    s3 := Next(c, s2, Dispatch);
    s4 := Next(c, s3, Dispatch);
  }

  /** The seed is leased and given to a worker, which starts fetching it. */
  lemma SeedDispatched(c: Crawl, s: Sys) returns (s': Sys)
    requires Reached(c, s) && SeedAlone(c, s) && MayAsk(c, s, 1) && Eligible(s.rows[c.seed], s.clock)
    ensures Reached(c, s') && SeedAlone(c, s')
    ensures s'.nextToken == s.nextToken + 1 && s'.clock == s.clock && s'.missed == s.missed
    ensures LeasedUntil(s'.rows, c.seed, s.nextToken, s.clock + c.leaseTtl, 0)
    ensures s'.workers == s.workers[s.nextToken := Worker(SeedLease(c, s.nextToken, s.clock), Fetching)]
  {
    assert s.lastRead <= s.clock by { InvReached(c, s); }
    var s1, s2, s3, s4 := SeedSteps(c, s);
    ReachedStep(c, s, Select(s.clock, 1, [c.seed]), s1);
    ReachedStep(c, s1, TryGrant, s2);
    ReachedStep(c, s2, Dispatch, s3);
    ReachedStep(c, s3, Dispatch, s4);
    s' := s4;
  }

  /** A configuration the validation admits: at least one slot, at least one lease a batch, a seed to start from. */
  predicate Valid(c: Crawl) {
    c.maxConcurrency > 0 && c.batchSize > 0 && Startable(c)
  }

  lemma IdlePool(c: Crawl, s: Sys)
    requires Valid(c) && s.workers == map[] && s.acquiring.None?
    ensures MayAsk(c, s, 1)
  {
    assert Active(s.workers) == {};
  }

  lemma OneAtWork(c: Crawl, s: Sys, w: Worker)
    requires Valid(c) && c.maxConcurrency >= 2 && s.workers == map[0 := w] && s.acquiring.None?
    ensures MayAsk(c, s, 1)
  {
    assert Active(s.workers) <= {0};
    SubsetSize(Active(s.workers), {0});
  }

  /** The first worker, with the seed just leased to it. */
  ghost predicate FirstAtWork(c: Crawl, s: Sys) {
    && SeedAlone(c, s) && s.nextToken == 1 && s.clock == 0 && s.missed == {}
    && LeasedUntil(s.rows, c.seed, 0, c.leaseTtl, 0)
    && s.workers == map[0 := Worker(SeedLease(c, 0, 0), Fetching)]
  }

  lemma FirstSteps(c: Crawl, s: Sys) returns (s1: Sys, s2: Sys, s3: Sys, s4: Sys)
    requires Valid(c) && SeedAlone(c, s) && s.rows[c.seed].state.Pending? && s.clock == 0 && s.nextToken == 0
    requires s.workers == map[] && s.missed == {} && s.lastRead <= s.clock
    ensures Step(c, s, Select(s.clock, 1, [c.seed]), s1) && Step(c, s1, TryGrant, s2)
    ensures Step(c, s2, Dispatch, s3) && Step(c, s3, Dispatch, s4)
    ensures FirstAtWork(c, s4)
  {
    IdlePool(c, s);
    s1, s2, s3, s4 := SeedSteps(c, s);
  }

  /** The first worker has the seed. */
  lemma FirstWorker(c: Crawl) returns (s: Sys)
    requires Valid(c)
    ensures Reached(c, s) && FirstAtWork(c, s)
  {
    var s0 := SeedStored(c);
    assert s0.lastRead <= s0.clock by { InvReached(c, s0); }
    var s1, s2, s3, s4 := FirstSteps(c, s0);
    ReachedStep(c, s0, Select(s0.clock, 1, [c.seed]), s1);
    ReachedStep(c, s1, TryGrant, s2);
    ReachedStep(c, s2, Dispatch, s3);
    ReachedStep(c, s3, Dispatch, s4);
    s := s4;
  }

  // ---- Two workers on one URL ----

  lemma WakeUpLater(ttl: nat, m: nat)
    ensures WakeUp(0, ttl, m) <= WakeUp(0, ttl, m + 1)
  {
    assert m * ttl <= (m + 1) * ttl;
  }

  lemma BeatStep(c: Crawl, s: Sys, m: nat, expiry: Time)
    requires SeedAlone(c, s) && m < 3 && LeasedUntil(s.rows, c.seed, 0, expiry, m)
    requires 0 in s.workers && s.workers[0].lease.key == c.seed && s.workers[0].lease.token == 0
    ensures Enabled(c, s, Beat(0, s.clock))
    ensures var s' := Next(c, s, Beat(0, s.clock));
      && SeedAlone(c, s') && LeasedUntil(s'.rows, c.seed, 0, s.clock + c.leaseTtl, m + 1)
      && s'.workers == s.workers && s'.nextToken == s.nextToken && s'.clock == s.clock
  {
    var op := StepOp(c, s, Beat(0, s.clock)).value;
    assert Apply(s.rows, op).Keys == s.rows.Keys && c.seed in s.rows;
  }

  /** One beat of the heartbeat of worker 0, on time. */
  lemma Beaten(c: Crawl, s: Sys, m: nat) returns (s': Sys)
    requires Reached(c, s) && SeedAlone(c, s) && m < 3 && s.clock == WakeUp(0, c.leaseTtl, m)
    requires LeasedUntil(s.rows, c.seed, 0, ExpiryAfter(0, c.leaseTtl, m), m)
    requires 0 in s.workers && s.workers[0].lease.key == c.seed && s.workers[0].lease.token == 0
    ensures Reached(c, s') && SeedAlone(c, s') && s'.clock == WakeUp(0, c.leaseTtl, m + 1)
    ensures LeasedUntil(s'.rows, c.seed, 0, ExpiryAfter(0, c.leaseTtl, m + 1), m + 1)
    ensures s'.workers == s.workers && s'.nextToken == s.nextToken
  {
    WakeUpLater(c.leaseTtl, m);
    var s1 := LaterStep(c, s, WakeUp(0, c.leaseTtl, m + 1));
    BeatStep(c, s1, m, ExpiryAfter(0, c.leaseTtl, m));
    s' := Next(c, s1, Beat(0, s1.clock));
    ReachedNext(c, s1, Beat(0, s1.clock));
  }

  /** Time passes. */
  lemma LaterStep(c: Crawl, s: Sys, to: Time) returns (s': Sys)
    requires Reached(c, s) && s.clock <= to
    ensures Reached(c, s') && s' == s.(clock := to)
  {
    s' := Next(c, s, Tick(to));
    ReachedNext(c, s, Tick(to));
  }

  /** All three renewals of the first lease were accepted. */
  lemma RenewedLease(c: Crawl) returns (s: Sys)
    requires Valid(c)
    ensures Reached(c, s) && SeedAlone(c, s) && s.clock == WakeUp(0, c.leaseTtl, 3) && s.nextToken == 1
    ensures LeasedUntil(s.rows, c.seed, 0, ExpiryAfter(0, c.leaseTtl, 3), 3)
    ensures s.workers == map[0 := Worker(SeedLease(c, 0, 0), Fetching)]
  {
    var s0 := FirstWorker(c);
    assert WakeUp(0, c.leaseTtl, 0) == 0;
    var s1 := Beaten(c, s0, 0);
    var s2 := Beaten(c, s1, 1);
    s := Beaten(c, s2, 2);
  }

  /**
   With two slots, two workers can be processing the same URL at the same time, heartbeat and all: after its three
   renewals the lease of a worker that is still busy runs out and the URL is handed to another one.
   */
  lemma TwoWorkersOneUrl(c: Crawl) returns (s: Sys)
    requires Valid(c) && c.maxConcurrency >= 2
    ensures Reached(c, s) && SeedAlone(c, s) && Holds(s.rows[c.seed], 1)
    ensures s.clock == ExpiryAfter(0, c.leaseTtl, 3)
    ensures s.workers == map[0 := Worker(SeedLease(c, 0, 0), Fetching), 1 := Worker(SeedLease(c, 1, s.clock), Fetching)]
  {
    var s1 := RenewedLease(c);
    var s2 := LaterStep(c, s1, ExpiryAfter(0, c.leaseTtl, 3));
    OneAtWork(c, s2, s1.workers[0]);
    s := SeedDispatched(c, s2);
  }

  /** Two workers are at work on the same URL. */
  ghost predicate Shared(s: Sys) {
    exists t, t' :: t in Active(s.workers) && t' in Active(s.workers) && t != t'
                 && s.workers[t].lease.key == s.workers[t'].lease.key
  }

  /** A URL can be in the hands of two workers at once exactly when the pool has more than one slot. */
  lemma SharedIff(c: Crawl)
    requires Valid(c)
    ensures (exists s :: Reached(c, s) && Shared(s)) <==> c.maxConcurrency >= 2
  {
    if c.maxConcurrency >= 2 {
      var s := TwoWorkersOneUrl(c);
      assert 0 in Active(s.workers) && 1 in Active(s.workers);
      assert Shared(s);
    }
    if s :| Reached(c, s) && Shared(s) {
      var t, t' :| t in Active(s.workers) && t' in Active(s.workers) && t != t'
        && s.workers[t].lease.key == s.workers[t'].lease.key;
      SharedOnlyIfLapsed(c, s, t, t');
    }
  }

  // ---- Single steps of a worker ----

  /** Worker `t` is at `pc` now; the table and everything else but the history is as before. */
  ghost predicate Turned(s: Sys, t: Token, pc: Pc, s': Sys) {
    && t in s.workers && s'.workers == s.workers[t := s.workers[t].(pc := pc)]
    && s'.rows == s.rows && s'.pages == s.pages && s'.acquiring == s.acquiring && s'.clock == s.clock
    && s.fetched <= s'.fetched
  }

  lemma FetchStep(c: Crawl, s: Sys, t: Token, outcome: Outcome) returns (s': Sys)
    requires Reached(c, s) && t in s.workers && s.workers[t].pc.Fetching?
    ensures Reached(c, s') && Turned(s, t, AfterFetch(outcome), s') && s'.missed == s.missed
    ensures (s.workers[t].lease.key, outcome) in s'.fetched
  {
    s' := Next(c, s, Fetched(t, outcome));
    ReachedNext(c, s, Fetched(t, outcome));
  }

  /** A move that only reads. */
  lemma ReadStep(c: Crawl, s: Sys, t: Token) returns (s': Sys)
    requires Reached(c, s) && t in s.workers
    requires var pc := s.workers[t].pc; pc.Scanning? || pc.CountingHops? || pc.Vetting?
    ensures Reached(c, s') && Turned(s, t, MovePc(c, s.rows, s.workers[t]), s') && s'.missed == s.missed
  {
    s' := Next(c, s, Move(t, s.clock, NO_CONTENT));
    ReachedNext(c, s, Move(t, s.clock, NO_CONTENT));
  }

  /** A deduplication read that raises. */
  lemma MissStep(c: Crawl, s: Sys, t: Token) returns (s': Sys)
    requires Reached(c, s) && t in s.workers && s.workers[t].pc.Scanning? && TouchesStore(c, s.workers[t])
    ensures var w := s.workers[t];
      Reached(c, s') && Turned(s, t, FaultPc(w.pc), s') && s'.missed == s.missed + {(w.lease.token, w.pc.links[w.pc.i])}
  {
    s' := Next(c, s, Fault(t));
    ReachedNext(c, s, Fault(t));
  }

  /** A worker that still holds the seed commits its page. */
  lemma CommitStep(c: Crawl, s: Sys, t: Token, links: seq<Url>)
    requires SeedAlone(c, s) && t in s.workers && s.workers[t].pc == Completing(Some(links))
    requires s.workers[t].lease.key == c.seed && Holds(s.rows[c.seed], s.workers[t].lease.token)
    ensures var (e, s') := (Move(t, s.clock, NO_CONTENT), Next(c, s, Move(t, s.clock, NO_CONTENT)));
      && Enabled(c, s, e) && SeedAlone(c, s') && s'.rows[c.seed].state.Completed?
      && s'.workers == s.workers[t := s.workers[t].(pc := Reported)] && s'.missed == s.missed
      && c.seed in s'.pages && s'.pages[c.seed] == Visit(s.workers[t].lease.token, links)
  {
    var op := MoveOp(c, s.workers[t], s.clock, NO_CONTENT).value;
    assert Apply(s.rows, op).Keys == s.rows.Keys && c.seed in s.rows;
  }

  /** A worker that holds the seed is done with all links and completes it. */
  lemma PageCompleted(c: Crawl, s: Sys, t: Token, links: seq<Url>) returns (s': Sys)
    requires Reached(c, s) && SeedAlone(c, s) && t in s.workers && s.workers[t].pc == Scanning(links, |links|)
    requires s.workers[t].lease.key == c.seed && Holds(s.rows[c.seed], s.workers[t].lease.token)
    ensures Reached(c, s') && SeedAlone(c, s') && s'.rows[c.seed].state.Completed?
    ensures s'.workers == s.workers[t := s.workers[t].(pc := Reported)] && s'.missed == s.missed
    ensures c.seed in s'.pages && s'.pages[c.seed] == Visit(s.workers[t].lease.token, links)
  {
    var s1 := ReadStep(c, s, t);
    CommitStep(c, s1, t, links);
    s' := Next(c, s1, Move(t, s1.clock, NO_CONTENT));
    ReachedNext(c, s1, Move(t, s1.clock, NO_CONTENT));
  }

  // ---- A lost link ----

  /**
   A wanted link of a completed page can be missing: its deduplication read raised, the filter took that for a
   rejection, and the page was completed without it.
   */
  lemma LinkLost(c: Crawl, u: Url) returns (s: Sys)
    requires Valid(c) && Wanted(c, u, 1) && Target(c, u).value != c.seed
    ensures Reached(c, s) && c.seed in s.rows && s.rows[c.seed].depth == 0 && s.rows[c.seed].state.Completed?
    ensures c.seed in s.pages && u in s.pages[c.seed].links && Target(c, u).value !in s.rows
    ensures s.missed == {(s.pages[c.seed].token, u)}
  {
    var s0 := FirstWorker(c);
    var s1 := FetchStep(c, s0, 0, Page([u]));
    var s2 := MissStep(c, s1, 0);
    s := PageCompleted(c, s2, 0, [u]);
    assert u == s.pages[c.seed].links[0];
  }

  lemma FailStep(c: Crawl, s: Sys)
    requires SeedAlone(c, s) && Holds(s.rows[c.seed], 0)
    requires 0 in s.workers && s.workers[0] == Worker(SeedLease(c, 0, 0), Failing("processing error"))
    ensures var (e, s') := (Move(0, s.clock, NO_CONTENT), Next(c, s, Move(0, s.clock, NO_CONTENT)));
      && Enabled(c, s, e) && SeedAlone(c, s') && s'.rows[c.seed].state.TerminalFailed?
      && s'.workers == s.workers[0 := s.workers[0].(pc := Reported)] && s'.fetched == s.fetched
  {
    var op := MoveOp(c, s.workers[0], s.clock, NO_CONTENT).value;
    assert Apply(s.rows, op).Keys == s.rows.Keys && c.seed in s.rows;
  }

  // ---- A link the filter chokes on ----

  /** The worker of the seed comes to a link the filter chokes on. */
  lemma ChokeReached(c: Crawl, links: seq<Url>) returns (s: Sys)
    requires Valid(c) && links != [] && Chokes(c, links[0])
    ensures Reached(c, s) && SeedAlone(c, s) && Holds(s.rows[c.seed], 0) && (c.seed, Page(links)) in s.fetched
    ensures 0 in s.workers && s.workers[0] == Worker(SeedLease(c, 0, 0), Failing("processing error"))
  {
    var s0 := FirstWorker(c);
    var s1 := FetchStep(c, s0, 0, Page(links));
    s := ReadStep(c, s1, 0);
  }

  /**
   One link the filter chokes on fails its page and loses every link behind it, wanted or not: the crawl is
   complete with nothing but the seed in it, TerminalFailed.
   */
  lemma LinksLostBehind(c: Crawl, p: Url, u: Url) returns (s: Sys)
    requires Valid(c) && Chokes(c, p) && Wanted(c, u, 1) && Target(c, u).value != c.seed
    ensures Reached(c, s) && s.rows.Keys == {c.seed} && s.rows[c.seed].state.TerminalFailed?
    ensures (c.seed, Page([p, u])) in s.fetched && Target(c, u).value !in s.rows
  {
    var s0 := ChokeReached(c, [p, u]);
    FailStep(c, s0);
    s := Next(c, s0, Move(0, s0.clock, NO_CONTENT));
    ReachedNext(c, s0, Move(0, s0.clock, NO_CONTENT));
  }

  // ---- A late insert ----

  /** The second worker of the seed completes it, without a link, while the first is still fetching. */
  lemma SecondCompletes(c: Crawl) returns (s: Sys)
    requires Valid(c) && c.maxConcurrency >= 2
    ensures Reached(c, s) && SeedAlone(c, s) && s.rows[c.seed].state.Completed?
    ensures 0 in s.workers && s.workers[0] == Worker(SeedLease(c, 0, 0), Fetching)
  {
    var s0 := TwoWorkersOneUrl(c);
    var s1 := FetchStep(c, s0, 1, Page([]));
    s := PageCompleted(c, s1, 1, []);
  }

  /**
   Completion alone is not stable: with two slots and a wanted link there is a complete crawl whose first worker,
   its lease long lost, is about to insert a row.
   */
  lemma LateInsertReopens(c: Crawl, u: Url) returns (s: Sys, e: Event)
    requires Valid(c) && c.maxConcurrency >= 2
    requires Wanted(c, u, 1) && Target(c, u).value != c.seed
    ensures Reached(c, s) && s.rows.Keys == {c.seed} && AllTerminal(s.rows)
    ensures Enabled(c, s, e) && Target(c, u).value in Next(c, s, e).rows && !AllTerminal(Next(c, s, e).rows)
  {
    var s0 := SecondCompletes(c);
    var s1 := FetchStep(c, s0, 0, Page([u]));
    s := ReadStep(c, s1, 0);
    e := Move(0, s.clock, NO_CONTENT);
    StoreStep(c, s, u, e);
  }

  lemma StoreStep(c: Crawl, s: Sys, u: Url, e: Event)
    requires e == Move(0, s.clock, NO_CONTENT) && 0 in s.workers && Target(c, u).Some? && Target(c, u).value !in s.rows
    requires s.workers[0].pc == Storing([u], 0, Target(c, u).value)
    ensures Enabled(c, s, e)
    ensures Target(c, u).value in Next(c, s, e).rows && Next(c, s, e).rows[Target(c, u).value].state.Pending?
  {
  }

  // ---- A lost redirect ----

  /** The foreign key refuses the raw URL of the source; the worker gives up on the source. */
  lemma RefusedStep(c: Crawl, s: Sys, u: Url, target: Key)
    requires SeedAlone(c, s) && 0 in s.workers && s.workers[0] == Worker(SeedLease(c, 0, 0), Following(u, 0, target))
    requires target != c.seed && c.seedUrl != c.seed && c.seedUrl != target
    ensures var e := Move(0, s.clock, NO_CONTENT);
      Enabled(c, s, e) && Turned(s, 0, Failing("processing error"), Next(c, s, e))
  {
    RedirectFollowedIff(c, s, Move(0, s.clock, NO_CONTENT));
    InsertApplied(s.rows, MoveOp(c, s.workers[0], s.clock, NO_CONTENT).value);
  }

  /** With hops left the redirect is looked into, and a wanted new target is followed. */
  lemma RedirectPcs(c: Crawl, rows: Store, lease: LeaseResult, u: Url)
    requires lease.key in rows && rows[lease.key].redirectCount == 0 < c.maxRedirects && Vetted(c, rows, u, lease.depth)
    ensures MovePc(c, rows, Worker(lease, CountingHops(u))) == Vetting(u, 0)
    ensures MovePc(c, rows, Worker(lease, Vetting(u, 0))) == Following(u, 0, Target(c, u).value)
  {
  }

  /** The worker of the seed has been told of a redirect and is about to insert its target. */
  lemma RedirectVetted(c: Crawl, u: Url) returns (s: Sys)
    requires Valid(c) && c.maxRedirects > 0 && Wanted(c, u, 0) && Target(c, u).value != c.seed
    ensures Reached(c, s) && SeedAlone(c, s) && Holds(s.rows[c.seed], 0)
    ensures 0 in s.workers && s.workers[0] == Worker(SeedLease(c, 0, 0), Following(u, 0, Target(c, u).value))
  {
    var s0 := FirstWorker(c);
    assert c.seed in s0.rows && Target(c, u).value !in s0.rows;
    RedirectPcs(c, s0.rows, SeedLease(c, 0, 0), u);
    var s1 := FetchStep(c, s0, 0, Moved(u));
    var s2 := ReadStep(c, s1, 0);
    s := ReadStep(c, s2, 0);
  }

  /**
   A seed that redirects is lost when it was not written in its normal form: the target is in scope, and yet the
   insert is refused, the seed ends TerminalFailed, and the crawl is complete with nothing else stored.
   */
  lemma RedirectLost(c: Crawl, u: Url) returns (s: Sys)
    requires Valid(c) && c.maxRedirects > 0 && Wanted(c, u, 0)
    requires c.seedUrl != c.seed && Target(c, u).value != c.seed && c.seedUrl != Target(c, u).value
    ensures Reached(c, s) && s.rows.Keys == {c.seed} && s.rows[c.seed].state.TerminalFailed?
  {
    var target := Target(c, u).value;
    var s0 := RedirectVetted(c, u);
    RefusedStep(c, s0, u, target);
    var s1 := Next(c, s0, Move(0, s0.clock, NO_CONTENT));
    ReachedNext(c, s0, Move(0, s0.clock, NO_CONTENT));
    FailStep(c, s1);
    s := Next(c, s1, Move(0, s1.clock, NO_CONTENT));
    ReachedNext(c, s1, Move(0, s1.clock, NO_CONTENT));
  }
}

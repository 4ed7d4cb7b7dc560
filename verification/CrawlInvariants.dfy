/** What every reachable state of the crawl keeps, each part with the proof that every step keeps it. */
module CrawlInvariants {
  import opened Wrappers
  import opened Frontier
  import opened Filters
  import opened Selection
  import opened MetadataStores
  import opened LeaseHistory
  import opened CrawlSystem

  // ---- The log is the table's history ----

  ghost predicate LogInv(s: Sys) {
    && s.rows == Replay(s.log)
    && FreshTokens(s.log)
    && (forall i | 0 <= i < |s.log| && s.log[i].Grant? :: s.log[i].token < s.nextToken)
  }

  lemma TokensStayFresh(log: seq<Op>, op: Op, nextToken: Token)
    requires FreshTokens(log) && (forall i | 0 <= i < |log| && log[i].Grant? :: log[i].token < nextToken)
    requires op.Grant? ==> op.token == nextToken
    ensures FreshTokens(log + [op])
    ensures forall i | 0 <= i < |log + [op]| && (log + [op])[i].Grant? :: (log + [op])[i].token <= nextToken
  {
  }

  lemma LogGrows(log: seq<Op>, op: Op)
    ensures Replay(log + [op]) == Apply(Replay(log), op)
  {
    assert (log + [op])[..|log|] == log;
  }

  /** A step grants, if anything, under the next token, and then uses it up. */
  lemma StepToken(c: Crawl, s: Sys, e: Event)
    requires Enabled(c, s, e) && StepOp(c, s, e).Some?
    ensures var op := StepOp(c, s, e).value;
      op.Grant? ==> op.token == s.nextToken && Next(c, s, e).nextToken == s.nextToken + 1
    ensures Next(c, s, e).nextToken >= s.nextToken
  {
  }

  lemma LogKept(c: Crawl, s: Sys, e: Event)
    requires Enabled(c, s, e) && LogInv(s)
    ensures LogInv(Next(c, s, e))
  {
    var op := StepOp(c, s, e);
    if op.Some? {
      LogGrows(s.log, op.value);
      StepToken(c, s, e);
      TokensStayFresh(s.log, op.value, s.nextToken);
    }
  }

  // ---- Batches read a clock that does not run backwards ----

  ghost predicate ClockInv(s: Sys) {
    && s.lastRead <= s.clock
    && (s.acquiring.Some? ==> s.acquiring.value.now == s.lastRead)
    && GrantsOrdered(s.log)
    && (forall i | 0 <= i < |s.log| && s.log[i].Grant? :: s.log[i].now <= s.lastRead)
  }

  lemma ReadingsOrdered(log: seq<Op>, op: Op, lastRead: Time)
    requires GrantsOrdered(log) && (forall i | 0 <= i < |log| && log[i].Grant? :: log[i].now <= lastRead)
    requires op.Grant? ==> op.now == lastRead
    ensures GrantsOrdered(log + [op])
    ensures forall i | 0 <= i < |log + [op]| && (log + [op])[i].Grant? :: (log + [op])[i].now <= lastRead
  {
  }

  lemma ClockKept(c: Crawl, s: Sys, e: Event)
    requires Enabled(c, s, e) && ClockInv(s)
    ensures ClockInv(Next(c, s, e))
  {
    var op := StepOp(c, s, e);
    if op.Some? {
      assert op.value.Grant? ==> e.TryGrant? && op.value.now == s.lastRead;
      ReadingsOrdered(s.log, op.value, s.lastRead);
    }
  }

  // ---- Rows only grow, and their identity columns stay ----

  lemma RowStep(c: Crawl, s: Sys, e: Event, k: Key)
    requires Enabled(c, s, e) && k in s.rows
    ensures var s' := Next(c, s, e);
      && k in s'.rows && SameIdentity(s.rows[k], s'.rows[k])
      && s'.rows[k] == if StepOp(c, s, e).Some? then Touch(StepOp(c, s, e).value, k, s.rows[k]) else s.rows[k]
  {
    if StepOp(c, s, e).Some? {
      TouchKeepsIdentity(StepOp(c, s, e).value, k, s.rows[k]);
    }
  }

  /** A new row comes from the insert the step runs. */
  lemma NewRowStep(c: Crawl, s: Sys, e: Event, k: Key)
    requires Enabled(c, s, e) && k in Next(c, s, e).rows && k !in s.rows
    ensures var op := StepOp(c, s, e);
      && op.Some? && Inserts(s.rows, op.value) && k == op.value.key
      && Next(c, s, e).rows[k] == NewRow(op.value.url, op.value.depth, op.value.parent, op.value.redirects)
  {
  }

  // ---- Leases in flight agree with the rows they are for ----

  ghost predicate LeaseFits(s: Sys, lease: LeaseResult) {
    && lease.token < s.nextToken
    && lease.key in s.rows
    && lease.url == s.rows[lease.key].url && lease.depth == s.rows[lease.key].depth
  }

  ghost predicate LeasesInv(s: Sys) {
    && (forall t | t in s.workers :: LeaseFits(s, s.workers[t].lease))
    && (s.acquiring.Some? ==>
          && (forall k | k in s.acquiring.value.keys :: k in s.rows)
          && (forall lease | lease in s.acquiring.value.granted :: LeaseFits(s, lease)))
  }

  lemma LeaseFitsKept(c: Crawl, s: Sys, e: Event, lease: LeaseResult)
    requires Enabled(c, s, e) && LeaseFits(s, lease)
    ensures LeaseFits(Next(c, s, e), lease)
  {
    RowStep(c, s, e, lease.key);
  }

  /** The ways a worker can come out of a step. */
  datatype Fate = Same | New | Fetches | Moves | Faults

  ghost predicate WorkerFate(c: Crawl, s: Sys, e: Event, t: Token, w: Worker, fate: Fate)
    requires Enabled(c, s, e)
  {
    match fate
    case Same => t in s.workers && w == s.workers[t]
    case New => e.Dispatch? && w.pc.Fetching? && s.acquiring.Some? && w.lease in s.acquiring.value.granted
    case Fetches => e.Fetched? && t == e.worker && w == s.workers[t].(pc := AfterFetch(e.outcome))
    case Moves => e.Move? && t == e.worker && w == s.workers[t].(pc := MovePc(c, s.rows, s.workers[t]))
    case Faults => e.Fault? && t == e.worker && w == s.workers[t].(pc := FaultPc(s.workers[t].pc))
  }

  lemma FateOf(c: Crawl, s: Sys, e: Event, t: Token) returns (fate: Fate)
    requires Enabled(c, s, e) && t in Next(c, s, e).workers
    ensures WorkerFate(c, s, e, t, Next(c, s, e).workers[t], fate)
  {
    if t in s.workers && Next(c, s, e).workers[t] == s.workers[t] {
      fate := Same;
    } else if e.Dispatch? {
      fate := New;
    } else if e.Fetched? {
      fate := Fetches;
    } else if e.Move? {
      fate := Moves;
    } else {
      fate := Faults;
    }
  }

  lemma LeasesKept(c: Crawl, s: Sys, e: Event)
    requires Enabled(c, s, e) && LeasesInv(s)
    ensures LeasesInv(Next(c, s, e))
  {
    var s' := Next(c, s, e);
    forall t | t in s'.workers
      ensures LeaseFits(s', s'.workers[t].lease)
    {
      var fate := FateOf(c, s, e, t);
      LeaseFitsKept(c, s, e, s'.workers[t].lease);
    }
    if s'.acquiring.Some? {
      forall lease | lease in s'.acquiring.value.granted
        ensures LeaseFits(s', lease)
      {
        if s.acquiring.Some? && lease in s.acquiring.value.granted {
          LeaseFitsKept(c, s, e, lease);
        } else {
          RowStep(c, s, e, lease.key);
        }
      }
    }
  }

  // ---- Columns fit the state of the row ----

  ghost predicate RowShape(r: Row, nextToken: Token) {
    && (if r.state.InProgress? then r.token.Some? && r.token.value < nextToken && r.expiresAt.Some?
        else r.token.None? && r.expiresAt.None?)
    && (r.state.Retry? ==> r.nextRetryAt.Some?)
  }

  ghost predicate ShapeInv(s: Sys) {
    forall k | k in s.rows :: RowShape(s.rows[k], s.nextToken)
  }

  lemma TouchShape(op: Op, k: Key, r: Row, nextToken: Token, nextToken': Token)
    requires RowShape(r, nextToken) && nextToken <= nextToken'
    requires (op.Grant? ==> op.token < nextToken') && (op.MarkRetry? ==> op.at.Some?)
    ensures RowShape(Touch(op, k, r), nextToken')
  {
  }

  /** The scheduler grants under the next token and always says when to retry. */
  lemma StepOpShape(c: Crawl, s: Sys, e: Event)
    requires Enabled(c, s, e) && StepOp(c, s, e).Some?
    ensures var op := StepOp(c, s, e).value;
      (op.Grant? ==> e.TryGrant? && op.token == s.nextToken) && (op.MarkRetry? ==> op.at.Some?)
  {
  }

  lemma ShapeKept(c: Crawl, s: Sys, e: Event)
    requires Enabled(c, s, e) && ShapeInv(s)
    ensures ShapeInv(Next(c, s, e))
  {
    var op := StepOp(c, s, e);
    var (rows', token') := (Next(c, s, e).rows, Next(c, s, e).nextToken);
    if op.Some? {
      StepOpShape(c, s, e);
      TableShapeKept(s, op.value, token');
    }
  }

  lemma TableShapeKept(s: Sys, op: Op, nextToken': Token)
    requires ShapeInv(s) && s.nextToken <= nextToken'
    requires (op.Grant? ==> op.token < nextToken') && (op.MarkRetry? ==> op.at.Some?)
    ensures forall k | k in Apply(s.rows, op) :: RowShape(Apply(s.rows, op)[k], nextToken')
  {
    forall k | k in Apply(s.rows, op)
      ensures RowShape(Apply(s.rows, op)[k], nextToken')
    {
      if k in s.rows {
        TouchShape(op, k, s.rows[k], s.nextToken, nextToken');
      }
    }
  }

  // ---- Retries ----

  /** A retry count read under a token that is still current is still the count in the row. */
  ghost predicate ReadCurrent(rows: Store, w: Worker)
    requires w.pc.Deciding?
  {
    w.lease.key in rows && Holds(rows[w.lease.key], w.lease.token) ==> w.pc.count == rows[w.lease.key].retryCount
  }

  ghost predicate ReadInv(s: Sys) {
    forall t | t in s.workers && s.workers[t].pc.Deciding? :: ReadCurrent(s.rows, s.workers[t])
  }

  ghost predicate RetryInv(c: Crawl, s: Sys) {
    && ReadInv(s)
    && (forall k | k in s.rows :: s.rows[k].retryCount == TallyOf(s.log, k).retries <= c.maxRetries)
  }

  /** A statement that leaves an old token current leaves the retry count alone. */
  lemma HeldCount(op: Op, k: Key, r: Row, t: Token)
    requires Holds(Touch(op, k, r), t) && !(op.Grant? && op.token == t)
    ensures Holds(r, t) && Touch(op, k, r).retryCount == r.retryCount
  {
  }

  lemma ReadCurrentKept(s: Sys, op: Op, w: Worker)
    requires LeaseFits(s, w.lease) && w.pc.Deciding? && ReadCurrent(s.rows, w)
    requires op.Grant? ==> op.token >= s.nextToken
    ensures ReadCurrent(Apply(s.rows, op), w)
  {
    var k := w.lease.key;
    if Holds(Touch(op, k, s.rows[k]), w.lease.token) {
      HeldCount(op, k, s.rows[k], w.lease.token);
    }
  }

  lemma ReadKept(c: Crawl, s: Sys, e: Event)
    requires Enabled(c, s, e) && LeasesInv(s) && ReadInv(s)
    ensures ReadInv(Next(c, s, e))
  {
    var s' := Next(c, s, e);
    forall t | t in s'.workers && s'.workers[t].pc.Deciding?
      ensures ReadCurrent(s'.rows, s'.workers[t])
    {
      var w := s'.workers[t];
      var fate := FateOf(c, s, e, t);
      if fate.Same? {
        if StepOp(c, s, e).Some? {
          StepOpShape(c, s, e);
          ReadCurrentKept(s, StepOp(c, s, e).value, w);
        }
      } else {
        assert fate.Moves? && s.workers[t].pc.Retrying?;
        assert s'.rows == s.rows;
      }
    }
  }

  lemma RetriesStep(log: seq<Op>, op: Op, k: Key)
    ensures TallyOf(log + [op], k).retries
         == TallyOf(log, k).retries + if op.MarkRetry? && k in Replay(log) && Where(op, k, Replay(log)[k]) then 1 else 0
  {
    assert (log + [op])[..|log|] == log;
  }

  /** Only `mark_retry` writes the count. */
  lemma TouchCount(op: Op, k: Key, r: Row)
    ensures Touch(op, k, r).retryCount == if op.MarkRetry? && Where(op, k, r) then op.count else r.retryCount
  {
  }

  /** The write of `_handle_retry` adds one to the count it finds: its token being current makes its read current. */
  lemma RetryWriteAddsOne(c: Crawl, s: Sys, e: Event, k: Key)
    requires Enabled(c, s, e) && ReadInv(s) && k in s.rows
    requires StepOp(c, s, e).Some? && StepOp(c, s, e).value.MarkRetry? && Where(StepOp(c, s, e).value, k, s.rows[k])
    ensures StepOp(c, s, e).value.count == s.rows[k].retryCount + 1 <= c.maxRetries
  {
    assert e.Move? && s.workers[e.worker].pc.Deciding?;
    assert ReadCurrent(s.rows, s.workers[e.worker]);
  }

  lemma RowRetryKept(c: Crawl, s: Sys, e: Event, k: Key)
    requires Enabled(c, s, e) && LogInv(s) && RetryInv(c, s) && k in s.rows
    ensures k in Next(c, s, e).rows
    ensures Next(c, s, e).rows[k].retryCount == TallyOf(Next(c, s, e).log, k).retries <= c.maxRetries
  {
    RowStep(c, s, e, k);
    var op := StepOp(c, s, e);
    if op.Some? {
      RetriesStep(s.log, op.value, k);
      TouchCount(op.value, k, s.rows[k]);
      if op.value.MarkRetry? && Where(op.value, k, s.rows[k]) {
        RetryWriteAddsOne(c, s, e, k);
      }
    }
  }

  lemma RetryKept(c: Crawl, s: Sys, e: Event)
    requires Enabled(c, s, e) && LogInv(s) && LeasesInv(s) && RetryInv(c, s)
    ensures RetryInv(c, Next(c, s, e))
  {
    ReadKept(c, s, e);
    var s' := Next(c, s, e);
    forall k | k in s'.rows
      ensures s'.rows[k].retryCount == TallyOf(s'.log, k).retries <= c.maxRetries
    {
      if k in s.rows {
        RowRetryKept(c, s, e, k);
      } else {
        NewRowStep(c, s, e, k);
        RetriesStep(s.log, StepOp(c, s, e).value, k);
        LeasesConserved(s.log, k);
      }
    }
  }

  // ---- Links ----

  /**
   The filter did not choke on the link, and if the crawl wants it, its target is stored or the deduplication read
   under lease `t` raised for it.
   */
  ghost predicate Covered(c: Crawl, rows: Store, missed: set<(Token, Url)>, t: Token, u: Url, depth: nat) {
    !Chokes(c, u) && (Wanted(c, u, depth) ==> Target(c, u).value in rows || (t, u) in missed)
  }

  /** What is known of the links of one page. */
  datatype Coverage = Coverage(rows: Store, missed: set<(Token, Url)>)

  ghost predicate Less(a: Coverage, b: Coverage) {
    a.rows.Keys <= b.rows.Keys && a.missed <= b.missed
  }

  function CoverageOf(s: Sys): Coverage {
    Coverage(s.rows, s.missed)
  }

  ghost predicate AllCovered(c: Crawl, v: Coverage, t: Token, links: seq<Url>, n: nat, depth: nat) {
    forall i | 0 <= i < n && i < |links| :: Covered(c, v.rows, v.missed, t, links[i], depth)
  }

  ghost predicate WorkerLinks(c: Crawl, v: Coverage, w: Worker) {
    var (t, depth) := (w.lease.token, w.lease.depth + 1);
    match w.pc
    case Scanning(links, i) => AllCovered(c, v, t, links, i, depth)
    case Storing(links, i, target) =>
      && i < |links| && AllCovered(c, v, t, links, i, depth)
      && Target(c, links[i]) == Some(target) && !Chokes(c, links[i])
    case Completing(Some(links)) => AllCovered(c, v, t, links, |links|, depth)
    case _ => true
  }

  ghost predicate PageCovered(c: Crawl, s: Sys, k: Key)
    requires k in s.pages
  {
    && k in s.rows && s.rows[k].state.Completed?
    && AllCovered(c, CoverageOf(s), s.pages[k].token, s.pages[k].links, |s.pages[k].links|, s.rows[k].depth + 1)
  }

  ghost predicate LinksInv(c: Crawl, s: Sys) {
    && (forall t | t in s.workers :: WorkerLinks(c, CoverageOf(s), s.workers[t]))
    && (forall k | k in s.pages :: PageCovered(c, s, k))
  }

  lemma CoveredKept(c: Crawl, v: Coverage, v': Coverage, t: Token, links: seq<Url>, n: nat, depth: nat)
    requires Less(v, v') && AllCovered(c, v, t, links, n, depth)
    ensures AllCovered(c, v', t, links, n, depth)
  {
    forall i | 0 <= i < n && i < |links|
      ensures Covered(c, v'.rows, v'.missed, t, links[i], depth)
    {
      assert Covered(c, v.rows, v.missed, t, links[i], depth);
    }
  }

  lemma WorkerLinksKept(c: Crawl, v: Coverage, v': Coverage, w: Worker)
    requires Less(v, v') && WorkerLinks(c, v, w)
    ensures WorkerLinks(c, v', w)
  {
    var (t, depth) := (w.lease.token, w.lease.depth + 1);
    match w.pc
    case Scanning(links, i) => CoveredKept(c, v, v', t, links, i, depth);
    case Storing(links, i, _) => CoveredKept(c, v, v', t, links, i, depth);
    case Completing(Some(links)) => CoveredKept(c, v, v', t, links, |links|, depth);
    case _ =>
  }

  lemma OneMoreCovered(c: Crawl, v: Coverage, t: Token, links: seq<Url>, i: nat, depth: nat)
    requires i < |links| && AllCovered(c, v, t, links, i, depth)
    requires Covered(c, v.rows, v.missed, t, links[i], depth)
    ensures AllCovered(c, v, t, links, i + 1, depth)
  {
  }

  /** The worker that moves has dealt with one more link. */
  lemma MoverLinks(c: Crawl, v: Coverage, v': Coverage, w: Worker)
    requires WorkerLinks(c, v, w) && Less(v, v')
    requires w.pc.Storing? ==> w.pc.target in v'.rows
    ensures WorkerLinks(c, v', w.(pc := MovePc(c, v.rows, w)))
  {
    WorkerLinksKept(c, v, v', w);
    match w.pc
    case Scanning(links, i) =>
      if i < |links| && !Chokes(c, links[i]) && !Vetted(c, v.rows, links[i], w.lease.depth + 1) {
        OneMoreCovered(c, v', w.lease.token, links, i, w.lease.depth + 1);
      }
    case Storing(links, i, _) => OneMoreCovered(c, v', w.lease.token, links, i, w.lease.depth + 1);
    case _ =>
  }

  /** A raised deduplication read leaves the link out, and only that link. */
  lemma FaultLinks(c: Crawl, v: Coverage, v': Coverage, w: Worker)
    requires WorkerLinks(c, v, w) && Less(v, v')
    requires w.pc.Scanning? ==> w.pc.i < |w.pc.links| && !Chokes(c, w.pc.links[w.pc.i])
    requires w.pc.Scanning? ==> (w.lease.token, w.pc.links[w.pc.i]) in v'.missed
    ensures WorkerLinks(c, v', w.(pc := FaultPc(w.pc)))
  {
    WorkerLinksKept(c, v, v', w);
    if w.pc.Scanning? {
      OneMoreCovered(c, v', w.lease.token, w.pc.links, w.pc.i, w.lease.depth + 1);
    }
  }

  lemma CoverageGrows(c: Crawl, s: Sys, e: Event)
    requires Enabled(c, s, e)
    ensures Less(CoverageOf(s), CoverageOf(Next(c, s, e)))
  {
  }

  lemma StoredByMove(c: Crawl, s: Sys, e: Event)
    requires Enabled(c, s, e) && e.Move? && WorkerLinks(c, CoverageOf(s), s.workers[e.worker])
    ensures s.workers[e.worker].pc.Storing? ==> s.workers[e.worker].pc.target in Next(c, s, e).rows
  {
  }

  lemma PageRecorded(c: Crawl, s: Sys, e: Event, k: Key)
    requires Enabled(c, s, e) && LeasesInv(s) && k in Next(c, s, e).pages
    requires !(k in s.pages && Next(c, s, e).pages[k] == s.pages[k])
    ensures e.Move? && s.workers[e.worker].pc == Completing(Some(Next(c, s, e).pages[k].links))
    ensures k == s.workers[e.worker].lease.key && k in s.rows
    ensures Next(c, s, e).pages[k].token == s.workers[e.worker].lease.token
    ensures k in Next(c, s, e).rows && Next(c, s, e).rows[k].state.Completed?
  {
  }

  lemma PageKept(c: Crawl, s: Sys, e: Event, k: Key)
    requires Enabled(c, s, e) && LeasesInv(s) && LinksInv(c, s) && k in Next(c, s, e).pages
    ensures PageCovered(c, Next(c, s, e), k)
  {
    var s' := Next(c, s, e);
    var page := s'.pages[k];
    CoverageGrows(c, s, e);
    if k in s.pages && page == s.pages[k] {
      assert PageCovered(c, s, k);
      TerminalStays(c, s, e, k);
    } else {
      PageRecorded(c, s, e, k);
      RowStep(c, s, e, k);
      assert LeaseFits(s, s.workers[e.worker].lease) && WorkerLinks(c, CoverageOf(s), s.workers[e.worker]);
    }
    CoveredKept(c, CoverageOf(s), CoverageOf(s'), page.token, page.links, |page.links|, s.rows[k].depth + 1);
  }

  /** A worker that starts or gets its page has dealt with no link yet. */
  lemma FreshLinks(c: Crawl, v: Coverage, w: Worker, outcome: Outcome)
    ensures w.pc.Fetching? ==> WorkerLinks(c, v, w)
    ensures WorkerLinks(c, v, w.(pc := AfterFetch(outcome)))
  {
  }

  lemma MissedRecorded(c: Crawl, s: Sys, e: Event)
    requires Enabled(c, s, e) && e.Fault? && s.workers[e.worker].pc.Scanning?
    ensures var w := s.workers[e.worker];
      && w.pc.i < |w.pc.links| && !Chokes(c, w.pc.links[w.pc.i])
      && (w.lease.token, w.pc.links[w.pc.i]) in Next(c, s, e).missed
  {
  }

  lemma WorkerLinksStep(c: Crawl, s: Sys, e: Event, t: Token)
    requires Enabled(c, s, e) && t in Next(c, s, e).workers
    requires forall t | t in s.workers :: WorkerLinks(c, CoverageOf(s), s.workers[t])
    ensures WorkerLinks(c, CoverageOf(Next(c, s, e)), Next(c, s, e).workers[t])
  {
    var (v, v') := (CoverageOf(s), CoverageOf(Next(c, s, e)));
    CoverageGrows(c, s, e);
    var fate := FateOf(c, s, e, t);
    match fate
    case Same => WorkerLinksKept(c, v, v', s.workers[t]);
    case Moves =>
      StoredByMove(c, s, e);
      MoverLinks(c, v, v', s.workers[t]);
    case New => FreshLinks(c, v', Next(c, s, e).workers[t], Permanent(""));
    case Fetches => FreshLinks(c, v', s.workers[t], e.outcome);
    case Faults =>
      if s.workers[t].pc.Scanning? {
        MissedRecorded(c, s, e);
      }
      FaultLinks(c, v, v', s.workers[t]);
  }

  lemma LinksKept(c: Crawl, s: Sys, e: Event)
    requires Enabled(c, s, e) && LeasesInv(s) && LinksInv(c, s)
    ensures LinksInv(c, Next(c, s, e))
  {
    var s' := Next(c, s, e);
    forall t | t in s'.workers
      ensures WorkerLinks(c, CoverageOf(s'), s'.workers[t])
    {
      WorkerLinksStep(c, s, e, t);
    }
    forall k | k in s'.pages
      ensures PageCovered(c, s', k)
    {
      PageKept(c, s, e, k);
    }
  }

  lemma TerminalStays(c: Crawl, s: Sys, e: Event, k: Key)
    requires Enabled(c, s, e) && k in s.rows && Terminal(s.rows[k].state)
    ensures k in Next(c, s, e).rows && Next(c, s, e).rows[k] == s.rows[k]
  {
    if StepOp(c, s, e).Some? {
      TerminalUntouched(StepOp(c, s, e).value, k, s.rows[k]);
    }
  }

  // ---- Scope and provenance ----

  /** A worker that held `from` was told of `to`: by a link (weight 1) or by a redirect (weight 0). */
  ghost predicate Discovery(c: Crawl, fetched: set<(Key, Outcome)>, from: Key, to: Key, weight: nat) {
    exists o :: (from, o) in fetched &&
      match o
      case Page(links) => weight == 1 && exists u :: u in links && Target(c, u) == Some(to)
      case Moved(location) => weight == 0 && Target(c, location) == Some(to)
      case _ => false
  }

  /**
   A chain of discoveries from the seed to `k`, with `depth` links in all and `hops` redirects since the last link:
   a link goes one level down and starts counting redirects anew, a redirect stays on its level.
   */
  ghost predicate Leads(c: Crawl, fetched: set<(Key, Outcome)>, path: seq<Key>, k: Key, depth: nat, hops: nat)
    decreases |path|, 0
  {
    if path == [] then k == c.seed && depth == 0 && hops == 0 else
    var (rest, from) := (path[..|path| - 1], path[|path| - 1]);
    || (hops > 0 && Discovery(c, fetched, from, k, 0) && Leads(c, fetched, rest, from, depth, hops - 1))
    || (depth > 0 && hops == 0 && Discovery(c, fetched, from, k, 1) && LeadsAtDepth(c, fetched, rest, from, depth - 1))
  }

  ghost predicate LeadsAtDepth(c: Crawl, fetched: set<(Key, Outcome)>, path: seq<Key>, k: Key, depth: nat)
    decreases |path|, 1
  {
    exists hops :: Leads(c, fetched, path, k, depth, hops)
  }

  ghost predicate Reachable(c: Crawl, fetched: set<(Key, Outcome)>, k: Key, depth: nat, hops: nat) {
    exists path :: Leads(c, fetched, path, k, depth, hops)
  }

  ghost predicate RowScope(c: Crawl, s: Sys, k: Key)
    requires k in s.rows
  {
    var r := s.rows[k];
    && Reachable(c, s.fetched, k, r.depth, r.redirectCount)
    && Target(c, r.url) == Some(k)
    && WithinDepth(c.filter.maxDepth, r.depth)
    && r.redirectCount <= c.maxRedirects
    && (k != c.seed ==> InScope(c.filter, k))
    && (r.parent.Some? ==> r.parent.value in s.rows)
    && (r.parent.Some? <==> r.redirectCount > 0)
  }

  ghost predicate WorkerScope(c: Crawl, s: Sys, w: Worker) {
    var Worker(lease, pc) := w;
    match pc
    case Scanning(links, _) => (lease.key, Page(links)) in s.fetched
    case Storing(links, i, target) =>
      && (lease.key, Page(links)) in s.fetched && i < |links| && Target(c, links[i]) == Some(target)
      && InScope(c.filter, target) && WithinDepth(c.filter.maxDepth, lease.depth + 1)
    case CountingHops(location) => (lease.key, Moved(location)) in s.fetched
    case Vetting(location, hops) =>
      (lease.key, Moved(location)) in s.fetched && hops == HopsOf(s.rows, lease.key) < c.maxRedirects
    case Following(location, hops, target) =>
      && (lease.key, Moved(location)) in s.fetched && hops == HopsOf(s.rows, lease.key) < c.maxRedirects
      && Target(c, location) == Some(target)
      && InScope(c.filter, target) && WithinDepth(c.filter.maxDepth, lease.depth)
    case _ => true
  }

  ghost predicate ScopeInv(c: Crawl, s: Sys) {
    && (forall k | k in s.rows :: RowScope(c, s, k))
    && (forall t | t in s.workers :: WorkerScope(c, s, s.workers[t]))
    && (s.rows.Keys != {} ==> c.seed in s.rows && s.rows[c.seed].depth == 0)
  }

  lemma {:induction false} LeadsKept(c: Crawl, fetched: set<(Key, Outcome)>, fetched': set<(Key, Outcome)>,
                                     path: seq<Key>, k: Key, depth: nat, hops: nat)
    requires fetched <= fetched' && Leads(c, fetched, path, k, depth, hops)
    ensures Leads(c, fetched', path, k, depth, hops)
    decreases |path|
  {
    if path != [] {
      var (rest, from) := (path[..|path| - 1], path[|path| - 1]);
      assert forall w: nat :: Discovery(c, fetched, from, k, w) ==> Discovery(c, fetched', from, k, w);
      if hops > 0 {
        LeadsKept(c, fetched, fetched', rest, from, depth, hops - 1);
      } else {
        var h :| Leads(c, fetched, rest, from, depth - 1, h);
        LeadsKept(c, fetched, fetched', rest, from, depth - 1, h);
      }
    }
  }

  /** A link leads one level down. */
  lemma LinkLeads(c: Crawl, fetched: set<(Key, Outcome)>, from: Key, depth: nat, hops: nat, to: Key)
    requires Discovery(c, fetched, from, to, 1) && Reachable(c, fetched, from, depth, hops)
    ensures Reachable(c, fetched, to, depth + 1, 0)
  {
    var path :| Leads(c, fetched, path, from, depth, hops);
    assert (path + [from])[..|path|] == path;
    assert LeadsAtDepth(c, fetched, path, from, depth);
    assert Leads(c, fetched, path + [from], to, depth + 1, 0);
  }

  /** A redirect leads one hop on. */
  lemma RedirectLeads(c: Crawl, fetched: set<(Key, Outcome)>, from: Key, depth: nat, hops: nat, to: Key)
    requires Discovery(c, fetched, from, to, 0) && Reachable(c, fetched, from, depth, hops)
    ensures Reachable(c, fetched, to, depth, hops + 1)
  {
    var path :| Leads(c, fetched, path, from, depth, hops);
    assert (path + [from])[..|path|] == path;
    assert Leads(c, fetched, path + [from], to, depth, hops + 1);
  }

  lemma OldRowScope(c: Crawl, s: Sys, e: Event, k: Key)
    requires Enabled(c, s, e) && k in s.rows && RowScope(c, s, k)
    ensures k in Next(c, s, e).rows && RowScope(c, Next(c, s, e), k)
  {
    RowStep(c, s, e, k);
    var r := s.rows[k];
    var path :| Leads(c, s.fetched, path, k, r.depth, r.redirectCount);
    LeadsKept(c, s.fetched, Next(c, s, e).fetched, path, k, r.depth, r.redirectCount);
  }

  /** A row inserted by a worker continues the path of the URL that worker holds. */
  lemma InsertedScope(c: Crawl, s: Sys, w: Worker, now: Time, content: Content)
    requires LeaseFits(s, w.lease) && RowScope(c, s, w.lease.key) && WorkerScope(c, s, w)
    requires w.pc.Storing? || w.pc.Following?
    ensures var op := MoveOp(c, w, now, content);
      && op.Some? && op.value.Insert? && op.value.redirects <= c.maxRedirects
      && Reachable(c, s.fetched, op.value.key, op.value.depth, op.value.redirects)
      && Target(c, op.value.url) == Some(op.value.key) && (op.value.parent.Some? <==> op.value.redirects > 0)
      && WithinDepth(c.filter.maxDepth, op.value.depth) && InScope(c.filter, op.value.key)
  {
    var Worker(lease, pc) := w;
    var hops := s.rows[lease.key].redirectCount;
    if pc.Storing? {
      assert pc.links[pc.i] in pc.links;
      assert Discovery(c, s.fetched, lease.key, pc.target, 1);
      LinkLeads(c, s.fetched, lease.key, lease.depth, hops, pc.target);
    } else {
      assert Discovery(c, s.fetched, lease.key, pc.target, 0);
      RedirectLeads(c, s.fetched, lease.key, lease.depth, hops, pc.target);
    }
  }

  lemma InsertedRow(c: Crawl, s: Sys, op: Op, k: Key)
    requires op.Insert? && k in s.rows && s.rows[k] == NewRow(op.url, op.depth, op.parent, op.redirects)
    requires Reachable(c, s.fetched, k, op.depth, op.redirects) && op.redirects <= c.maxRedirects
    requires Target(c, op.url) == Some(k) && (op.parent.Some? <==> op.redirects > 0)
    requires WithinDepth(c.filter.maxDepth, op.depth) && (k != c.seed ==> InScope(c.filter, k))
    requires op.parent.Some? ==> op.parent.value in s.rows
    ensures RowScope(c, s, k)
  {
  }

  lemma SeedRow(c: Crawl, s: Sys)
    requires Startable(c) && c.seed in s.rows && s.rows[c.seed] == NewRow(c.seedUrl, 0, None, 0)
    ensures RowScope(c, s, c.seed)
  {
    assert Leads(c, s.fetched, [], c.seed, 0, 0);
  }

  lemma NewRowScope(c: Crawl, s: Sys, e: Event, k: Key)
    requires Enabled(c, s, e) && LeasesInv(s) && ScopeInv(c, s)
    requires k in Next(c, s, e).rows && k !in s.rows
    ensures RowScope(c, Next(c, s, e), k)
    ensures k == c.seed ==> Next(c, s, e).rows[k].depth == 0
  {
    NewRowStep(c, s, e, k);
    if e.Seed? {
      SeedRow(c, Next(c, s, e));
    } else {
      InsertingWorker(c, s, e);
      InsertedScope(c, s, s.workers[e.worker], e.readAt, e.content);
      InsertedRow(c, Next(c, s, e), StepOp(c, s, e).value, k);
    }
  }

  lemma InsertingWorker(c: Crawl, s: Sys, e: Event)
    requires Enabled(c, s, e) && LeasesInv(s) && ScopeInv(c, s) && !e.Seed?
    requires StepOp(c, s, e).Some? && StepOp(c, s, e).value.Insert?
    ensures e.Move? && c.seed in s.rows
    ensures var w := s.workers[e.worker];
      LeaseFits(s, w.lease) && RowScope(c, s, w.lease.key) && WorkerScope(c, s, w) && (w.pc.Storing? || w.pc.Following?)
  {
  }

  lemma MoverScope(c: Crawl, s: Sys, w: Worker)
    requires WorkerScope(c, s, w)
    ensures WorkerScope(c, s, w.(pc := MovePc(c, s.rows, w)))
  {
  }

  lemma FetcherScope(c: Crawl, s: Sys, w: Worker, outcome: Outcome)
    requires (w.lease.key, outcome) in s.fetched
    ensures WorkerScope(c, s, w.(pc := AfterFetch(outcome)))
  {
  }

  lemma FaultScope(c: Crawl, s: Sys, w: Worker)
    requires WorkerScope(c, s, w)
    ensures WorkerScope(c, s, w.(pc := FaultPc(w.pc)))
  {
  }

  lemma WorkerScopeGrows(c: Crawl, s: Sys, s': Sys, w: Worker)
    requires WorkerScope(c, s, w) && s.fetched <= s'.fetched
    requires HopsOf(s'.rows, w.lease.key) == HopsOf(s.rows, w.lease.key)
    ensures WorkerScope(c, s', w)
  {
  }

  /** What a worker relies on outlives a step: its outcome is recorded, and the redirect count of its row stays. */
  lemma ScopeOutlives(c: Crawl, s: Sys, e: Event, w: Worker)
    requires Enabled(c, s, e) && w.lease.key in s.rows && WorkerScope(c, s, w)
    ensures WorkerScope(c, Next(c, s, e), w)
  {
    RowStep(c, s, e, w.lease.key);
    WorkerScopeGrows(c, s, Next(c, s, e), w);
  }

  lemma WorkerScopeKept(c: Crawl, s: Sys, e: Event, t: Token)
    requires Enabled(c, s, e) && LeasesInv(s) && t in Next(c, s, e).workers
    requires forall t | t in s.workers :: WorkerScope(c, s, s.workers[t])
    ensures WorkerScope(c, Next(c, s, e), Next(c, s, e).workers[t])
  {
    var w' := Next(c, s, e).workers[t];
    var fate := FateOf(c, s, e, t);
    match fate
    case Same => ScopeOutlives(c, s, e, w');
    case Moves =>
      MoverScope(c, s, s.workers[t]);
      ScopeOutlives(c, s, e, w');
    case New =>
    case Fetches => FetcherScope(c, Next(c, s, e), s.workers[t], e.outcome);
    case Faults =>
      FaultScope(c, s, s.workers[t]);
      ScopeOutlives(c, s, e, w');
  }

  lemma ScopeKept(c: Crawl, s: Sys, e: Event)
    requires Enabled(c, s, e) && LeasesInv(s) && ScopeInv(c, s)
    ensures ScopeInv(c, Next(c, s, e))
  {
    var s' := Next(c, s, e);
    forall k | k in s'.rows
      ensures RowScope(c, s', k)
    {
      if k in s.rows {
        OldRowScope(c, s, e, k);
      } else {
        NewRowScope(c, s, e, k);
      }
    }
    forall t | t in s'.workers
      ensures WorkerScope(c, s', s'.workers[t])
    {
      WorkerScopeKept(c, s, e, t);
    }
    if c.seed in s.rows {
      RowStep(c, s, e, c.seed);
    } else if s'.rows.Keys != {} {
      var k :| k in s'.rows;
      NewRowStep(c, s, e, k);
    }
  }

  // ---- Batches ----

  /** `a` is what remains of `b` when some elements are left out. */
  ghost predicate Sublist(a: seq<Key>, b: seq<Key>)
    decreases |b|
  {
    || a == []
    || (b != [] && (|| Sublist(a, b[..|b| - 1])
                    || (a[|a| - 1] == b[|b| - 1] && Sublist(a[..|a| - 1], b[..|b| - 1]))))
  }

  /** The lease was granted by an update of its own, on a row that was up for grabs just then. */
  ghost predicate GrantedEligible(log: seq<Op>, lease: LeaseResult, now: Time) {
    exists i: nat :: i < |log| && log[i].Grant? && log[i].token == lease.token && log[i].now == now
      && lease.key in Before(log, i) && log[i].key == lease.key && Eligible(Before(log, i)[lease.key], now)
  }

  ghost predicate BatchOk(log: seq<Op>, a: Acquisition) {
    && a.i <= |a.keys|
    && Sublist(LeaseKeys(a.granted), a.keys[..a.i])
    && (forall lease | lease in a.granted :: GrantedEligible(log, lease, a.now))
  }

  /** The candidates answered the query on the table as it was at the SELECT. */
  ghost predicate Selected(log: seq<Op>, a: Acquisition) {
    a.start <= |log| && IsSelection(Before(log, a.start), a.now, a.size, a.keys)
  }

  ghost predicate BatchInv(s: Sys) {
    s.acquiring.Some? ==> BatchOk(s.log, s.acquiring.value) && Selected(s.log, s.acquiring.value)
  }

  lemma SelectedKept(log: seq<Op>, log': seq<Op>, a: Acquisition, a': Acquisition)
    requires log <= log' && Selected(log, a)
    requires a'.start == a.start && a'.now == a.now && a'.size == a.size && a'.keys == a.keys
    ensures Selected(log', a')
  {
    assert log'[..a.start] == log[..a.start];
  }

  lemma GrantedEligibleKept(log: seq<Op>, log': seq<Op>, lease: LeaseResult, now: Time)
    requires log <= log' && GrantedEligible(log, lease, now)
    ensures GrantedEligible(log', lease, now)
  {
    var i: nat :| i < |log| && log[i].Grant? && log[i].token == lease.token && log[i].now == now
      && lease.key in Before(log, i) && log[i].key == lease.key && Eligible(Before(log, i)[lease.key], now);
    assert log'[..i] == log[..i];
    assert log'[i] == log[i];
  }

  lemma GrantedNow(log: seq<Op>, op: Op, lease: LeaseResult)
    requires op.Grant? && op.token == lease.token && op.key == lease.key && lease.key in Replay(log)
    requires Eligible(Replay(log)[lease.key], op.now)
    ensures GrantedEligible(log + [op], lease, op.now)
  {
    assert (log + [op])[..|log|] == log;
    assert (log + [op])[|log|] == op;
  }

  lemma SublistGrows(granted: seq<LeaseResult>, lease: LeaseResult, keys: seq<Key>, i: nat)
    requires i < |keys| && Sublist(LeaseKeys(granted), keys[..i])
    ensures Sublist(LeaseKeys(granted), keys[..i + 1])
    ensures lease.key == keys[i] ==> Sublist(LeaseKeys(granted + [lease]), keys[..i + 1])
  {
    assert keys[..i + 1][..i] == keys[..i];
    assert LeaseKeys(granted + [lease]) == LeaseKeys(granted) + [lease.key];
    assert LeaseKeys(granted + [lease])[..|granted|] == LeaseKeys(granted);
  }

  lemma BatchOkKept(log: seq<Op>, log': seq<Op>, a: Acquisition)
    requires log <= log' && BatchOk(log, a)
    ensures BatchOk(log', a)
  {
    forall lease | lease in a.granted
      ensures GrantedEligible(log', lease, a.now)
    {
      GrantedEligibleKept(log, log', lease, a.now);
    }
  }

  /** An update of the batch loop that comes too late ... */
  lemma BatchSkips(log: seq<Op>, op: Op, a: Acquisition)
    requires BatchOk(log, a) && a.i < |a.keys|
    ensures BatchOk(log + [op], a.(i := a.i + 1))
  {
    BatchOkKept(log, log + [op], a);
    assert a.keys[..a.i + 1][..a.i] == a.keys[..a.i];
  }

  lemma AllGrantedEligible(log: seq<Op>, granted: seq<LeaseResult>, lease: LeaseResult, now: Time)
    requires forall known | known in granted :: GrantedEligible(log, known, now)
    requires GrantedEligible(log, lease, now)
    ensures forall any | any in granted + [lease] :: GrantedEligible(log, any, now)
  {
    forall any | any in granted + [lease]
      ensures GrantedEligible(log, any, now)
    {
      assert any in granted || any == lease;
    }
  }

  /** ... and one that adds a lease. */
  lemma BatchAdds(log: seq<Op>, op: Op, a: Acquisition, lease: LeaseResult)
    requires BatchOk(log, a) && a.i < |a.keys|
    requires op.Grant? && op.token == lease.token && op.key == lease.key == a.keys[a.i] && op.now == a.now
    requires lease.key in Replay(log) && Eligible(Replay(log)[lease.key], op.now)
    ensures BatchOk(log + [op], a.(i := a.i + 1, granted := a.granted + [lease]))
  {
    BatchSkips(log, op, a);
    GrantedNow(log, op, lease);
    AllGrantedEligible(log + [op], a.granted, lease, a.now);
    SublistGrows(a.granted, lease, a.keys, a.i);
  }

  lemma TriedBatch(c: Crawl, s: Sys)
    requires Enabled(c, s, TryGrant)
    ensures var (a, op) := (s.acquiring.value, StepOp(c, s, TryGrant).value);
      AcquiringAfter(c, s, TryGrant) == Some(
        if Effective(s.rows, op)
        then a.(i := a.i + 1, granted := a.granted + [LeaseOf(s.rows, op.key, op.token, op.expiry)])
        else a.(i := a.i + 1))
  {
  }

  /** One update of the batch loop. */
  lemma TryGrantBatch(c: Crawl, s: Sys)
    requires Enabled(c, s, TryGrant) && LogInv(s) && BatchOk(s.log, s.acquiring.value)
    ensures AcquiringAfter(c, s, TryGrant).Some?
    ensures BatchOk(s.log + [StepOp(c, s, TryGrant).value], AcquiringAfter(c, s, TryGrant).value)
  {
    var a := s.acquiring.value;
    var op := StepOp(c, s, TryGrant).value;
    TriedBatch(c, s);
    if Effective(s.rows, op) {
      BatchAdds(s.log, op, a, LeaseOf(s.rows, op.key, op.token, op.expiry));
    } else {
      BatchSkips(s.log, op, a);
    }
  }

  lemma SelectBatch(c: Crawl, s: Sys, e: Event)
    requires Enabled(c, s, e) && LogInv(s) && e.Select?
    ensures BatchOk(s.log, AcquiringAfter(c, s, e).value) && Selected(s.log, AcquiringAfter(c, s, e).value)
  {
    assert LeaseKeys([]) == [];
    assert s.log[..|s.log|] == s.log;
  }

  /** A batch under way stays the answer to one query, and the statements issued so far stay issued. */
  lemma BatchGoesOn(c: Crawl, s: Sys, e: Event)
    requires Enabled(c, s, e) && !e.Select? && Next(c, s, e).acquiring.Some?
    ensures s.acquiring.Some? && s.log <= Next(c, s, e).log
    ensures var (a, a') := (s.acquiring.value, Next(c, s, e).acquiring.value);
      a'.start == a.start && a'.now == a.now && a'.size == a.size && a'.keys == a.keys
    ensures !e.TryGrant? ==>
      var (a, a') := (s.acquiring.value, Next(c, s, e).acquiring.value); a'.i == a.i && a'.granted == a.granted
  {
  }

  lemma BatchOkSame(log: seq<Op>, a: Acquisition, a': Acquisition)
    requires BatchOk(log, a) && a'.now == a.now && a'.keys == a.keys && a'.i == a.i && a'.granted == a.granted
    ensures BatchOk(log, a')
  {
  }

  lemma BatchKept(c: Crawl, s: Sys, e: Event)
    requires Enabled(c, s, e) && LogInv(s) && BatchInv(s)
    ensures BatchInv(Next(c, s, e))
  {
    var s' := Next(c, s, e);
    if e.Select? {
      SelectBatch(c, s, e);
    } else if s'.acquiring.Some? {
      BatchGoesOn(c, s, e);
      SelectedKept(s.log, s'.log, s.acquiring.value, s'.acquiring.value);
      if e.TryGrant? {
        TryGrantBatch(c, s);
      } else {
        BatchOkKept(s.log, s'.log, s.acquiring.value);
        BatchOkSame(s'.log, s.acquiring.value, s'.acquiring.value);
      }
    }
  }
}

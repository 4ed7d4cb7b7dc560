/** What holds on every run of the crawl from an empty table. */
module CrawlTheorems {
  import opened Wrappers
  import opened Frontier
  import opened Filters
  import opened Selection
  import opened MetadataStores
  import opened LeaseHistory
  import opened CrawlSystem
  import opened CrawlInvariants
  import opened CrawlSlots

  ghost predicate Inv(c: Crawl, s: Sys) {
    && LogInv(s) && ClockInv(s) && LeasesInv(s) && ShapeInv(s)
    && RetryInv(c, s) && LinksInv(c, s) && ScopeInv(c, s) && BatchInv(s)
    && TokensInv(s) && SlotsInv(c, s) && LapseInv(s)
  }

  lemma InvKept(c: Crawl, s: Sys, e: Event)
    requires Inv(c, s) && Enabled(c, s, e)
    ensures Inv(c, Next(c, s, e))
  {
    LogKept(c, s, e);
    ClockKept(c, s, e);
    LeasesKept(c, s, e);
    ShapeKept(c, s, e);
    RetryKept(c, s, e);
    LinksKept(c, s, e);
    ScopeKept(c, s, e);
    BatchKept(c, s, e);
    TokensKept(c, s, e);
    SlotsKept(c, s, e);
    LapseKept(c, s, e);
  }

  lemma InvAtStart(c: Crawl)
    ensures Inv(c, START)
  {
    assert Active(map[]) == {};
  }

  lemma {:induction false} InvOnRuns(c: Crawl, s: Sys, es: seq<Event>)
    requires Inv(c, s) && IsRun(c, s, es)
    ensures Inv(c, Final(c, s, es))
    decreases |es|
  {
    if es != [] {
      InvKept(c, s, es[0]);
      InvOnRuns(c, Next(c, s, es[0]), es[1..]);
    }
  }

  /** The states the crawl can be in. */
  ghost predicate Reached(c: Crawl, s: Sys) {
    exists es :: IsRun(c, START, es) && s == Final(c, START, es)
  }

  lemma InvReached(c: Crawl, s: Sys)
    requires Reached(c, s)
    ensures Inv(c, s)
  {
    var es :| IsRun(c, START, es) && s == Final(c, START, es);
    InvAtStart(c);
    InvOnRuns(c, START, es);
  }

  lemma {:induction false} RunExtends(c: Crawl, s: Sys, es: seq<Event>, e: Event)
    requires IsRun(c, s, es) && Enabled(c, Final(c, s, es), e)
    ensures IsRun(c, s, es + [e]) && Final(c, s, es + [e]) == Next(c, Final(c, s, es), e)
    decreases |es|
  {
    if es == [] {
      assert es + [e] == [e] && [e][1..] == [];
      assert Final(c, Next(c, s, e), []) == Next(c, s, e);
    } else {
      RunExtends(c, Next(c, s, es[0]), es[1..], e);
      assert (es + [e])[1..] == es[1..] + [e];
    }
  }

  lemma RunOfOne(c: Crawl, s: Sys, e: Event)
    requires Enabled(c, s, e)
    ensures IsRun(c, s, [e]) && Final(c, s, [e]) == Next(c, s, e)
  {
    assert [e][1..] == [];
    assert IsRun(c, Next(c, s, e), []) && Final(c, Next(c, s, e), []) == Next(c, s, e);
  }

  lemma RunPrepends(c: Crawl, s: Sys, e: Event, es: seq<Event>)
    requires Enabled(c, s, e) && IsRun(c, Next(c, s, e), es)
    ensures IsRun(c, s, [e] + es) && Final(c, s, [e] + es) == Final(c, Next(c, s, e), es)
  {
    assert ([e] + es)[1..] == es && ([e] + es)[0] == e;
  }

  /** `s'` follows from `s` in one step. */
  ghost predicate Step(c: Crawl, s: Sys, e: Event, s': Sys) {
    Enabled(c, s, e) && s' == Next(c, s, e)
  }

  lemma ReachedNext(c: Crawl, s: Sys, e: Event)
    requires Reached(c, s) && Enabled(c, s, e)
    ensures Reached(c, Next(c, s, e))
  {
    var es :| IsRun(c, START, es) && s == Final(c, START, es);
    RunExtends(c, START, es, e);
  }

  // ---- Leases ----

  /**
   Fencing on crawls: a commit of the log took effect exactly when its token was the newest of its URL and the
   lease was open, and no token took effect twice.
   */
  lemma CommitsFenced(c: Crawl, s: Sys, i: nat, j: nat)
    requires Reached(c, s) && i < |s.log| && j < |s.log| && i != j
    requires IsCommit(s.log[i]) && IsCommit(s.log[j])
    ensures Hits(s.log, i, s.log[i].key) <==> LeaseOpen(s.log[..i], s.log[i].key, s.log[i].token)
    ensures s.log[i].token == s.log[j].token ==> !(Hits(s.log, i, s.log[i].key) && Hits(s.log, j, s.log[j].key))
  {
    InvReached(c, s);
    CommitIffLeaseOpen(s.log, i);
    if s.log[i].token == s.log[j].token && Hits(s.log, i, s.log[i].key) && Hits(s.log, j, s.log[j].key) {
      if i < j { TokenCommitsOnce(s.log, i, j); } else { TokenCommitsOnce(s.log, j, i); }
    }
  }

  /** The retry count of a URL is the number of retries that took effect, and never passes the limit. */
  lemma RetriesAccounted(c: Crawl, s: Sys, k: Key)
    requires Reached(c, s) && k in s.rows
    ensures s.rows[k].retryCount == TallyOf(s.log, k).retries <= c.maxRetries
  {
    InvReached(c, s);
  }

  /** Every lease granted for `k` was answered by one retry, lapse or verdict, or is the one now open. */
  lemma LeasesAccounted(c: Crawl, s: Sys, k: Key)
    requires Reached(c, s)
    ensures var h := TallyOf(s.log, k); h.grants == h.retries + h.lapses + h.verdicts + Leased(s.rows, k)
    ensures TallyOf(s.log, k).retries <= c.maxRetries && TallyOf(s.log, k).verdicts <= 1
  {
    InvReached(c, s);
    LeasesConserved(s.log, k);
  }

  /** The whole crawl hands out a bounded number of leases, however its tasks interleave, fail or crash. */
  lemma CrawlGrantsBounded(c: Crawl, s: Sys, u: set<Key>)
    requires Reached(c, s) && s.rows.Keys <= u
    ensures TotalGrants(s.log) <= |u| * (c.maxRetries + 1) + TotalLapses(s.log)
  {
    assert Replay(s.log) == s.rows by { InvReached(c, s); }
    forall k | k in u
      ensures TallyOf(s.log, k).retries <= c.maxRetries
    {
      LeasesAccounted(c, s, k);
    }
    GrantsBounded(s.log, u, c.maxRetries);
  }

  /**
   Two workers at work on the same URL: one of their leases has lapsed, and there is more than one slot.
   `CrawlRuns.SharedIff` shows that it does happen.
   */
  lemma SharedOnlyIfLapsed(c: Crawl, s: Sys, t: Token, t': Token)
    requires Reached(c, s) && t != t' && t in Active(s.workers) && t' in Active(s.workers)
    requires s.workers[t].lease.key == s.workers[t'].lease.key
    ensures TallyOf(s.log, s.workers[t].lease.key).lapses > 0
    ensures c.maxConcurrency >= 2
  {
    InvReached(c, s);
    OneHolds(s, t, t');
    TwoSlots(c, s, t, t');
  }

  lemma OneHolds(s: Sys, t: Token, t': Token)
    requires TokensInv(s) && LapseInv(s) && t != t' && t in Active(s.workers) && t' in Active(s.workers)
    requires s.workers[t].lease.key == s.workers[t'].lease.key
    ensures TallyOf(s.log, s.workers[t].lease.key).lapses > 0
  {
    assert HeldOrLapsed(s.rows, s.log, s.workers[t].lease) && HeldOrLapsed(s.rows, s.log, s.workers[t'].lease);
  }

  lemma TwoSlots(c: Crawl, s: Sys, t: Token, t': Token)
    requires SlotsInv(c, s) && t != t' && t in Active(s.workers) && t' in Active(s.workers)
    ensures c.maxConcurrency >= 2
  {
    assert {t, t'} <= Active(s.workers);
    SubsetSize({t, t'}, Active(s.workers));
  }

  // ---- Links and scope ----

  /**
   A completed page has lost no link but those whose own deduplication read raised: every other one its processor
   reported and the crawl wants is a stored row.  Nor did the filter choke on any of its links.
   */
  lemma NoLostLinks(c: Crawl, s: Sys, k: Key, u: Url)
    requires Reached(c, s) && k in s.pages && u in s.pages[k].links
    ensures k in s.rows && s.rows[k].state.Completed? && !Chokes(c, u)
    ensures Wanted(c, u, s.rows[k].depth + 1) && Target(c, u).value !in s.rows ==> (s.pages[k].token, u) in s.missed
  {
    InvReached(c, s);
    var page := s.pages[k];
    var i :| 0 <= i < |page.links| && page.links[i] == u;
    assert PageCovered(c, s, k);
    assert Covered(c, s.rows, s.missed, page.token, page.links[i], s.rows[k].depth + 1);
  }

  /**
   Every stored URL was really discovered from the seed: its depth is the number of links on the way and its
   redirect count the number of redirects since the last of them; its raw URL normalises to its key; only
   redirect targets have a parent; and all of it lies within the configured scope.
   */
  lemma RowsInScope(c: Crawl, s: Sys, k: Key)
    requires Reached(c, s) && k in s.rows
    ensures Reachable(c, s.fetched, k, s.rows[k].depth, s.rows[k].redirectCount)
    ensures Target(c, s.rows[k].url) == Some(k)
    ensures c.filter.maxDepth.Some? ==> s.rows[k].depth <= c.filter.maxDepth.value
    ensures s.rows[k].redirectCount <= c.maxRedirects
    ensures k != c.seed ==> InScope(c.filter, k)
    ensures s.rows[k].parent.Some? ==> s.rows[k].parent.value in s.rows
    ensures s.rows[k].parent.Some? <==> s.rows[k].redirectCount > 0
  {
    InvReached(c, s);
    assert RowScope(c, s, k);
  }

  /** The last `hops` steps of the path are redirects; before them comes a link, or the seed. */
  ghost predicate EndsInRedirects(c: Crawl, fetched: set<(Key, Outcome)>, path: seq<Key>, k: Key, hops: nat)
    decreases hops
  {
    if path == [] then hops == 0 && k == c.seed
    else if hops == 0 then Discovery(c, fetched, path[|path| - 1], k, 1)
    else && Discovery(c, fetched, path[|path| - 1], k, 0)
         && EndsInRedirects(c, fetched, path[..|path| - 1], path[|path| - 1], hops - 1)
  }

  lemma {:induction false} LeadsEnds(c: Crawl, fetched: set<(Key, Outcome)>, path: seq<Key>, k: Key, depth: nat,
                                     hops: nat)
    requires Leads(c, fetched, path, k, depth, hops)
    ensures EndsInRedirects(c, fetched, path, k, hops)
    decreases |path|
  {
    if path != [] && hops > 0 {
      LeadsEnds(c, fetched, path[..|path| - 1], path[|path| - 1], depth, hops - 1);
    }
  }

  /** No stored URL is more than `max_redirects` redirects in a row away from a link or the seed. */
  lemma RedirectsInARow(c: Crawl, s: Sys, k: Key) returns (path: seq<Key>)
    requires Reached(c, s) && k in s.rows
    ensures EndsInRedirects(c, s.fetched, path, k, s.rows[k].redirectCount)
    ensures s.rows[k].redirectCount <= c.maxRedirects
  {
    RowsInScope(c, s, k);
    path :| Leads(c, s.fetched, path, k, s.rows[k].depth, s.rows[k].redirectCount);
    LeadsEnds(c, s.fetched, path, k, s.rows[k].depth, s.rows[k].redirectCount);
  }

  /**
   A redirect target gets into the table exactly when it is there already or the raw URL of its source happens
   to be a stored key; otherwise the foreign key refuses it and the source is reported as failed.
   */
  lemma RedirectFollowedIff(c: Crawl, s: Sys, e: Event)
    requires Enabled(c, s, e) && e.Move? && s.workers[e.worker].pc.Following?
    ensures var Worker(lease, pc) := s.workers[e.worker];
      var s' := Next(c, s, e);
      && (pc.target in s'.rows <==> pc.target in s.rows || lease.url in s.rows || lease.url == pc.target)
      && (s'.workers[e.worker].pc == if pc.target in s'.rows then Completing(None) else Failing("processing error"))
  {
  }

  // ---- Batches ----

  /**
   The candidates of a batch are an answer to the query on the table as it was at the SELECT, and the leases are
   candidates in query order, each granted by its own update on a row that was still up for grabs, whatever ran
   between the query and the updates.
   */
  lemma BatchUnderInterference(c: Crawl, s: Sys)
    requires Reached(c, s) && s.acquiring.Some?
    ensures var a := s.acquiring.value;
      && a.start <= |s.log| && IsSelection(Before(s.log, a.start), a.now, a.size, a.keys)
      && |a.keys| <= c.batchSize && Sublist(LeaseKeys(a.granted), a.keys)
      && forall lease | lease in a.granted :: GrantedEligible(s.log, lease, a.now)
  {
    InvReached(c, s);
    var a := s.acquiring.value;
    SublistExtends(LeaseKeys(a.granted), a.keys, a.i);
  }

  lemma {:induction false} SublistExtends(a: seq<Key>, b: seq<Key>, i: nat)
    requires i <= |b| && Sublist(a, b[..i])
    ensures Sublist(a, b)
    decreases |b| - i
  {
    if i < |b| {
      assert b[..i + 1][..i] == b[..i];
      SublistExtends(a, b, i + 1);
    } else {
      assert b[..i] == b;
    }
  }

  // ---- Progress ----

  /** From this instant on the row can be leased. */
  function ReadyAt(r: Row): Time {
    match r.state
    case Retry => if r.nextRetryAt.Some? then r.nextRetryAt.value else 0
    case InProgress => if r.expiresAt.Some? then r.expiresAt.value else 0
    case _ => 0
  }

  /** A pending row can be leased at any time, any other non-terminal one from its instant on and not before. */
  lemma ReadyIsEligible(c: Crawl, s: Sys, k: Key, now: Time)
    requires Reached(c, s) && k in s.rows && !Terminal(s.rows[k].state)
    ensures Eligible(s.rows[k], now) <==> s.rows[k].state.Pending? || now >= ReadyAt(s.rows[k])
  {
    InvReached(c, s);
    assert RowShape(s.rows[k], s.nextToken);
  }

  /** A batch started at `now`. */
  lemma FirstCandidates(c: Crawl, s: Sys, now: Time, size: nat, keys: seq<Key>) returns (s1: Sys, s2: Sys)
    requires MayAsk(c, s, size) && now >= s.clock >= s.lastRead && IsSelection(s.rows, now, size, keys)
    ensures Step(c, s, Tick(now), s1) && Step(c, s1, Select(now, size, keys), s2)
    ensures s2 == s.(clock := now, lastRead := now, acquiring := Some(Acquisition(now, size, |s.log|, keys, 0, [], 0)))
  {
    s1 := Next(c, s, Tick(now));
    s2 := Next(c, s1, Select(now, size, keys));
  }

  /**
   No URL is left behind: as long as some row is not terminal, a batch started late enough is not empty,
   whichever answer the query gives, and its first update grants a lease.  The scheduler asks as soon as a slot is
   free, and when none is, some worker is still at work.
   */
  lemma Progress(c: Crawl, s: Sys, k: Key, now: Time, size: nat, keys: seq<Key>)
    returns (s1: Sys, s2: Sys, s3: Sys)
    requires Reached(c, s)
    requires k in s.rows && !Terminal(s.rows[k].state)
    requires now >= s.clock && now >= ReadyAt(s.rows[k]) && size > 0
    requires IsSelection(s.rows, now, size, keys)
    ensures keys != []
    ensures MayAsk(c, s, size) ==>
      && Step(c, s, Tick(now), s1) && Step(c, s1, Select(now, size, keys), s2) && Step(c, s2, TryGrant, s3)
      && s3.acquiring.Some? && |s3.acquiring.value.granted| == 1
      && keys[0] in s3.rows && Holds(s3.rows[keys[0]], s.nextToken)
    ensures FreeSlots(c, s) <= 0 < c.maxConcurrency ==> Active(s.workers) != {}
  {
    ReadyIsEligible(c, s, k, now);
    SelectionNonempty(s.rows, now, size, keys, k);
    s1, s2, s3 := s, s, s;
    if MayAsk(c, s, size) {
      assert s.lastRead <= s.clock by { InvReached(c, s); }
      s1, s2 := FirstCandidates(c, s, now, size, keys);
      s3 := Next(c, s2, TryGrant);
      GrantTakes(c, s2);
    }
  }

  lemma GrantTakes(c: Crawl, s: Sys)
    requires Enabled(c, s, TryGrant) && s.acquiring.value.i == 0 && s.acquiring.value.granted == []
    requires var a := s.acquiring.value; a.keys[0] in s.rows && Eligible(s.rows[a.keys[0]], a.now)
    ensures var s' := Next(c, s, TryGrant);
      && s'.acquiring.Some? && |s'.acquiring.value.granted| == 1
      && s.acquiring.value.keys[0] in s'.rows && Holds(s'.rows[s.acquiring.value.keys[0]], s.nextToken)
  {
    TriedBatch(c, s);
  }
}

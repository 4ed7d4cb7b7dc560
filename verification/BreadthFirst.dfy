/**
 The crawl with one worker, no retries, no lapses and no redirects: the scheduler leases one URL at a time,
 shallowest first, and each URL's page depends on the URL alone.
 */
module BreadthFirst {
  import opened Wrappers
  import opened Frontier
  import opened Filters
  import opened Selection
  import opened MetadataStores
  import opened CrawlSystem
  import opened Tasks

  datatype PageResult = Linked(links: seq<Url>) | Gone(why: string)

  datatype Site = Site(crawl: Crawl, page: Key -> PageResult)

  /** The page of `k` has a link, in scope, to `k'`, and none before it that makes the filter choke. */
  ghost predicate LinksTo(site: Site, k: Key, k': Key) {
    site.page(k).Linked? && InScope(site.crawl.filter, k')
    && exists u :: Heard(site.crawl, site.page(k).links, u) && Target(site.crawl, u) == Some(k')
  }

  /** How a visited page ends: a link the filter chokes on fails it. */
  ghost function EndState(site: Site, k: Key): CrawlState {
    match site.page(k)
    case Gone(_) => TerminalFailed
    case Linked(links) => if exists u :: u in links && Chokes(site.crawl, u) then TerminalFailed else Completed
  }

  /** A walk from the seed along links; its length is one less than its number of pages. */
  ghost predicate Walk(site: Site, p: seq<Key>, k: Key) {
    && p != [] && p[0] == site.crawl.seed && p[|p| - 1] == k
    && forall i | 0 <= i < |p| - 1 :: LinksTo(site, p[i], p[i + 1])
  }

  ghost predicate HasWalk(site: Site, k: Key, length: nat) {
    exists p :: Walk(site, p, k) && |p| == length + 1
  }

  /** `n` is the shortest link distance of `k` from the seed. */
  ghost predicate Distance(site: Site, k: Key, n: nat) {
    HasWalk(site, k, n) && forall m: nat | HasWalk(site, k, m) :: n <= m
  }

  ghost predicate Within(site: Site, depth: nat) {
    WithinDepth(site.crawl.filter.maxDepth, depth)
  }

  /** Between rounds every row is waiting or done. */
  ghost predicate NoneInFlight(s: Store) {
    forall k | k in s :: s[k].state.Pending? || Terminal(s[k].state)
  }

  ghost predicate Searching(site: Site, s: Store) {
    && site.crawl.seed in s && s[site.crawl.seed].depth == 0
    && NoneInFlight(s)
    && (forall k | k in s :: HasWalk(site, k, s[k].depth) && Within(site, s[k].depth))
    && (forall k | k in s && Terminal(s[k].state) :: s[k].state == EndState(site, k))
    // a finished page has had its links stored
    && (forall k, k' | k in s && Terminal(s[k].state) && LinksTo(site, k, k') && Within(site, s[k].depth + 1) ::
          k' in s && s[k'].depth <= s[k].depth + 1)
    // nothing is more than one level deeper than anything still waiting
    && (forall w, v | w in s && v in s && s[w].state.Pending? :: s[v].depth <= s[w].depth + 1)
  }

  /** Every walk either ends at a stored page no deeper than itself, or has a shallower page still waiting. */
  lemma {:induction false} WalkMeetsFrontier(site: Site, s: Store, p: seq<Key>, k: Key)
    requires Searching(site, s) && Walk(site, p, k) && Within(site, |p| - 1)
    ensures (k in s && s[k].depth <= |p| - 1) || (exists w :: w in s && s[w].state.Pending? && s[w].depth < |p| - 1)
    decreases |p|
  {
    if |p| > 1 {
      var q := p[..|p| - 1];
      var from := q[|q| - 1];
      WalkMeetsFrontier(site, s, q, from);
      assert LinksTo(site, p[|p| - 2], p[|p| - 1]);
    }
  }

  /** At every moment of the search each stored depth is the shortest link distance of its URL. */
  lemma DepthIsDistance(site: Site, s: Store, k: Key)
    requires Searching(site, s) && k in s
    ensures Distance(site, k, s[k].depth)
  {
    forall m: nat | HasWalk(site, k, m)
      ensures s[k].depth <= m
    {
      if m < s[k].depth {
        var p :| Walk(site, p, k) && |p| == m + 1;
        WalkMeetsFrontier(site, s, p, k);
      }
    }
  }

  /** When the search is over, the stored URLs are exactly those within reach of the seed. */
  lemma CompleteIsReachable(site: Site, s: Store, k: Key)
    requires Searching(site, s) && AllTerminal(s)
    ensures k in s <==> exists n: nat :: Within(site, n) && HasWalk(site, k, n)
  {
    if n: nat :| Within(site, n) && HasWalk(site, k, n) {
      var p :| Walk(site, p, k) && |p| == n + 1;
      WalkMeetsFrontier(site, s, p, k);
    }
  }

  /** One page was processed: its wanted links are stored one level down, and it is terminal. */
  ghost predicate Visited(site: Site, s: Store, k: Key, s': Store) {
    && k in s && s.Keys <= s'.Keys
    && (forall j | j in s && j != k :: s'[j] == s[j])
    && s'[k].state == EndState(site, k) && s'[k].depth == s[k].depth
    && (forall j | j in s' && j !in s ::
          s'[j].state.Pending? && s'[j].depth == s[k].depth + 1 && LinksTo(site, k, j) && Within(site, s[k].depth + 1))
    && (forall j | LinksTo(site, k, j) && Within(site, s[k].depth + 1) :: j in s')
  }

  lemma WalkOn(site: Site, from: Key, to: Key, n: nat)
    requires HasWalk(site, from, n) && LinksTo(site, from, to)
    ensures HasWalk(site, to, n + 1)
  {
    var p :| Walk(site, p, from) && |p| == n + 1;
    assert Walk(site, p + [to], to);
  }

  lemma VisitedWalks(site: Site, s: Store, k: Key, s': Store, j: Key)
    requires Searching(site, s) && Visited(site, s, k, s') && j in s'
    ensures HasWalk(site, j, s'[j].depth) && Within(site, s'[j].depth)
  {
    if j !in s {
      WalkOn(site, k, j, s[k].depth);
    }
  }

  lemma VisitedLinks(site: Site, s: Store, k: Key, s': Store, j: Key, j': Key)
    requires Searching(site, s) && Visited(site, s, k, s') && s[k].state.Pending?
    requires forall w | w in s && s[w].state.Pending? :: s[k].depth <= s[w].depth
    requires j in s' && Terminal(s'[j].state) && LinksTo(site, j, j') && Within(site, s'[j].depth + 1)
    ensures j' in s' && s'[j'].depth <= s'[j].depth + 1
  {
    if j == k && j' in s {
      assert s[j'].depth <= s[k].depth + 1;
    }
  }

  lemma VisitedLevels(site: Site, s: Store, k: Key, s': Store, w: Key, v: Key)
    requires Searching(site, s) && Visited(site, s, k, s') && s[k].state.Pending?
    requires forall w | w in s && s[w].state.Pending? :: s[k].depth <= s[w].depth
    requires w in s' && v in s' && s'[w].state.Pending?
    ensures s'[v].depth <= s'[w].depth + 1
  {
    if v in s {
      assert s[v].depth <= s[k].depth + 1;
    }
  }

  /** Visiting a shallowest waiting page keeps the search going. */
  lemma VisitKeeps(site: Site, s: Store, k: Key, s': Store)
    requires Searching(site, s) && Visited(site, s, k, s') && s[k].state.Pending?
    requires forall w | w in s && s[w].state.Pending? :: s[k].depth <= s[w].depth
    ensures Searching(site, s')
  {
    forall j | j in s'
      ensures HasWalk(site, j, s'[j].depth) && Within(site, s'[j].depth)
    {
      VisitedWalks(site, s, k, s', j);
    }
    forall j, j' | j in s' && Terminal(s'[j].state) && LinksTo(site, j, j') && Within(site, s'[j].depth + 1)
      ensures j' in s' && s'[j'].depth <= s'[j].depth + 1
    {
      VisitedLinks(site, s, k, s', j, j');
    }
    forall w, v | w in s' && v in s' && s'[w].state.Pending?
      ensures s'[v].depth <= s'[w].depth + 1
    {
      VisitedLevels(site, s, k, s', w, v);
    }
  }

  /** The keys not done yet, out of all there can be. */
  ghost function Waiting(s: Store, universe: set<Key>): set<Key> {
    set k | k in universe && !(k in s && Terminal(s[k].state))
  }

  /** One round of the crawl: what the worker does with the leased URL amounts to visiting it. */
  method VisitPage(site: Site, store: MetadataStore, lease: LeaseResult, ghost before: Store, ghost now: Time)
    requires lease.key in before && before[lease.key].state.Pending? && lease.depth == before[lease.key].depth
    requires store.rows == Apply(before, Grant(lease.key, lease.token, now, lease.expiry))
    modifies store`rows
    ensures Visited(site, before, lease.key, store.rows)
  {
    ghost var leased := store.rows;
    match site.page(lease.key) {
      case Linked(links) =>
        ghost var stored := EnqueueAll(site.crawl, leased, links, lease.depth + 1);
        var raised := HandlePage(site.crawl, store, lease, links, NO_CONTENT);
        if raised {
          var done := store.MarkTerminalFailed(lease.key, lease.token, Some("processing error"));
        }
        PageVisited(site, before, leased, stored, store.rows, lease, now, links, raised);
      case Gone(why) =>
        var done := store.MarkTerminalFailed(lease.key, lease.token, Some(why));
    }
  }

  /** A stored discovery comes from a link of the page. */
  lemma DiscoveryIsLink(site: Site, k: Key, links: seq<Url>, depth: nat, j: Key, r: Row)
    requires site.page(k) == Linked(links)
    requires DiscoveredRow(site.crawl, links[..Sound(site.crawl, links)], depth, j, r)
    ensures r.state.Pending? && r.depth == depth && LinksTo(site, k, j) && Within(site, depth)
  {
  }

  lemma LinkIsWanted(site: Site, k: Key, links: seq<Url>, depth: nat, j: Key) returns (u: Url)
    requires site.page(k) == Linked(links) && LinksTo(site, k, j) && Within(site, depth)
    ensures Heard(site.crawl, links, u) && Wanted(site.crawl, u, depth) && Target(site.crawl, u).value == j
  {
    u :| Heard(site.crawl, links, u) && Target(site.crawl, u) == Some(j);
  }

  /** The write that ends the page: failed with the report of a choked filter, else completed. */
  function Verdict(k: Key, token: Token, raised: bool): Op {
    if raised then MarkTerminal(k, token, Some("processing error")) else Complete(k, token, NO_CONTENT)
  }

  /** The page holds its own lease when it ends: the links enqueued in between leave its row alone. */
  lemma EndedRow(leased: Store, stored: Store, after: Store, k: Key, token: Token, raised: bool)
    requires k in leased && Holds(leased[k], token) && k in stored && stored[k] == leased[k]
    requires after == Apply(stored, Verdict(k, token, raised))
    ensures after.Keys == stored.Keys && after[k].depth == leased[k].depth
    ensures after[k].state == if raised then TerminalFailed else Completed
    ensures forall j | j in stored && j != k :: after[j] == stored[j]
  {
  }

  lemma LeasedRow(before: Store, leased: Store, lease: LeaseResult, now: Time)
    requires lease.key in before && before[lease.key].state.Pending?
    requires leased == Apply(before, Grant(lease.key, lease.token, now, lease.expiry))
    ensures leased.Keys == before.Keys && Holds(leased[lease.key], lease.token)
    ensures leased[lease.key].depth == before[lease.key].depth
    ensures forall j | j in before && j != lease.key :: leased[j] == before[j]
  {
  }

  lemma PageVisited(site: Site, before: Store, leased: Store, stored: Store, after: Store, lease: LeaseResult,
                    now: Time, links: seq<Url>, raised: bool)
    requires lease.key in before && before[lease.key].state.Pending? && lease.depth == before[lease.key].depth
    requires leased == Apply(before, Grant(lease.key, lease.token, now, lease.expiry))
    requires site.page(lease.key) == Linked(links)
    requires stored == EnqueueAll(site.crawl, leased, links, lease.depth + 1)
    requires raised <==> exists u :: u in links && Chokes(site.crawl, u)
    requires after == Apply(stored, Verdict(lease.key, lease.token, raised))
    ensures Visited(site, before, lease.key, after)
  {
    var (k, depth) := (lease.key, lease.depth + 1);
    LeasedRow(before, leased, lease, now);
    EnqueueAllStores(site.crawl, leased, links, depth);
    EndedRow(leased, stored, after, k, lease.token, raised);
    forall j | j in after && j !in before
      ensures after[j].state.Pending? && after[j].depth == depth && LinksTo(site, k, j) && Within(site, depth)
    {
      DiscoveryIsLink(site, k, links, depth, j, stored[j]);
    }
    forall j | LinksTo(site, k, j) && Within(site, depth)
      ensures j in after
    {
      var u := LinkIsWanted(site, k, links, depth, j);
    }
  }

  /** A batch of one on a table without retries or lapses: a shallowest waiting page, unless none is waiting. */
  lemma BatchOfOne(s: Store, now: Time, keys: seq<Key>)
    requires NoneInFlight(s) && IsSelection(s, now, 1, keys)
    ensures if keys == [] then AllTerminal(s)
            else && |keys| == 1 && keys[0] in s && s[keys[0]].state.Pending?
                 && forall w | w in s && s[w].state.Pending? :: s[keys[0]].depth <= s[w].depth
  {
    if keys == [] {
      assert forall k | k in s :: s[k].state.Pending? ==> Eligible(s[k], now);
    } else {
      var k := keys[0];
      assert Eligible(s[k], now) && s[k].state.Pending?;
      forall w | w in s && s[w].state.Pending?
        ensures s[k].depth <= s[w].depth
      {
        assert Eligible(s[w], now);
        assert w !in keys ==> RanksFirst(s[k], s[w]);
      }
    }
  }

  /** `lease` was granted for a shallowest waiting page of `s`, and nothing else changed. */
  ghost predicate LeasesShallowest(s: Store, lease: LeaseResult, now: Time, s': Store) {
    && lease.key in s && s[lease.key].state.Pending? && lease.depth == s[lease.key].depth
    && s' == Apply(s, Grant(lease.key, lease.token, now, lease.expiry))
    && forall w | w in s && s[w].state.Pending? :: s[lease.key].depth <= s[w].depth
  }

  lemma BatchLeasesShallowest(s: Store, now: Time, keys: seq<Key>, token: Token, expiry: Time)
    requires NoneInFlight(s) && IsSelection(s, now, 1, keys) && keys != []
    ensures |LeasesOf(s, keys, |keys|, token, expiry)| == 1
    ensures LeasesShallowest(s, LeasesOf(s, keys, |keys|, token, expiry)[0], now,
                             GrantFirst(s, keys, |keys|, token, now, expiry))
  {
    BatchOfOne(s, now, keys);
    assert LeasesOf(s, keys, |keys|, token, expiry)[0] == LeaseOf(s, keys[0], token, expiry);
    assert GrantFirst(s, keys, 0, token, now, expiry) == s;
    assert GrantFirst(s, keys, 1, token, now, expiry) == Apply(s, Grant(keys[0], token, now, expiry));
  }

  /** What comes of a batch of at most one lease. */
  ghost predicate BatchOutcome(s: Store, leases: seq<LeaseResult>, now: Time, s': Store) {
    if leases == [] then s' == s && AllTerminal(s) else |leases| == 1 && LeasesShallowest(s, leases[0], now, s')
  }

  lemma OutcomeOf(s: Store, now: Time, keys: seq<Key>, token: Token, expiry: Time)
    requires NoneInFlight(s) && IsSelection(s, now, 1, keys)
    ensures BatchOutcome(s, LeasesOf(s, keys, |keys|, token, expiry), now,
                         GrantFirst(s, keys, |keys|, token, now, expiry))
  {
    if keys == [] {
      BatchOfOne(s, now, keys);
    } else {
      BatchLeasesShallowest(s, now, keys, token, expiry);
    }
  }

  method LeaseShallowest(store: MetadataStore, batchSize: nat, ttl: nat, now: Time) returns (leases: seq<LeaseResult>)
    requires batchSize > 0 && NoneInFlight(store.rows)
    modifies store
    ensures BatchOutcome(old(store.rows), leases, now, store.rows)
  {
    ghost var before, first := store.rows, store.nextToken;
    var leaseCount := if 1 <= batchSize then 1 else batchSize;
    ghost var keys;
    leases, keys := store.AcquireLeaseBatch(leaseCount, ttl, now);
    OutcomeOf(before, now, keys, first, now + ttl);
  }

  /** One round of `Scheduler.run`: a batch of at most one lease, its worker, or the end of the crawl. */
  method Round(site: Site, store: MetadataStore, batchSize: nat, now: Time) returns (finished: bool)
    requires batchSize > 0 && Searching(site, store.rows)
    modifies store
    ensures finished ==> store.rows == old(store.rows) && AllTerminal(store.rows)
    ensures !finished ==> exists k :: k in old(store.rows) && old(store.rows)[k].state.Pending?
                                     && Visited(site, old(store.rows), k, store.rows)
    ensures Searching(site, store.rows)
  {
    ghost var before := store.rows;
    var leases := LeaseShallowest(store, batchSize, site.crawl.leaseTtl, now);
    if leases == [] {
      finished := store.IsCrawlComplete();
      // with a row still waiting the batch would not have been empty, so the polling sleep is never reached
      assert finished;
    } else {
      finished := false;
      VisitPage(site, store, leases[0], before, now);
      VisitKeeps(site, before, leases[0].key, store.rows);
    }
  }

  /** Links found within the depth limit do not lead out of `universe`. */
  ghost predicate ClosedWithin(site: Site, universe: set<Key>) {
    forall k, k', n: nat | k in universe && HasWalk(site, k, n) && Within(site, n + 1) && LinksTo(site, k, k') ::
      k' in universe
  }

  lemma VisitShrinks(site: Site, s: Store, k: Key, s': Store, universe: set<Key>)
    requires Searching(site, s) && Visited(site, s, k, s') && s[k].state.Pending? && s.Keys <= universe
    requires ClosedWithin(site, universe)
    ensures s'.Keys <= universe && Waiting(s', universe) < Waiting(s, universe)
  {
    assert k in Waiting(s, universe) && k !in Waiting(s', universe);
  }

  /**
   `Scheduler.run` with `max_concurrency` 1 on a site of finitely many pages: it ends, every URL is recorded at
   its shortest link distance, and what is recorded is exactly what lies within reach.
   */
  method RunAlone(site: Site, batchSize: nat, clock: nat -> Time, ghost universe: set<Key>)
    returns (store: MetadataStore)
    requires batchSize > 0
    requires site.crawl.seed in universe
    requires ClosedWithin(site, universe)
    ensures AllTerminal(store.rows)
    ensures forall k | k in store.rows :: store.rows[k].state == EndState(site, k)
    ensures forall k | k in store.rows :: Distance(site, k, store.rows[k].depth)
    ensures forall k :: k in store.rows <==> exists n: nat :: Within(site, n) && HasWalk(site, k, n)
  {
    store := new MetadataStore();
    var accepted := store.Enqueue(site.crawl.seed, site.crawl.seedUrl, 0, None, 0);
    assert Walk(site, [site.crawl.seed], site.crawl.seed);
    assert HasWalk(site, site.crawl.seed, 0);
    var round, finished := 0, false;
    while !finished
      invariant fresh(store)
      invariant Searching(site, store.rows) && store.rows.Keys <= universe
      invariant finished ==> AllTerminal(store.rows)
      decreases !finished, Waiting(store.rows, universe)
    {
      ghost var before := store.rows;
      finished := Round(site, store, batchSize, clock(round));
      if !finished {
        ghost var k :| k in before && before[k].state.Pending? && Visited(site, before, k, store.rows);
        VisitShrinks(site, before, k, store.rows, universe);
      }
      round := round + 1;
    }
    forall k | k in store.rows
      ensures Distance(site, k, store.rows[k].depth)
    {
      DepthIsDistance(site, store.rows, k);
    }
    forall k
      ensures k in store.rows <==> exists n: nat :: Within(site, n) && HasWalk(site, k, n)
    {
      CompleteIsReachable(site, store.rows, k);
    }
  }

  // ---- With a depth limit there is always such a universe ----

  /** The keys a page links to. */
  ghost function LinkedFrom(site: Site, k: Key): set<Key> {
    match site.page(k)
    case Gone(_) => {}
    case Linked(links) => set u | u in links && Target(site.crawl, u).Some? :: Target(site.crawl, u).value
  }

  ghost function LinkedFromAll(site: Site, keys: set<Key>): set<Key> {
    set k, k' | k in keys && k' in LinkedFrom(site, k) :: k'
  }

  /** Everything at most `n` links away from the seed. */
  ghost function Level(site: Site, n: nat): set<Key> {
    if n == 0 then {site.crawl.seed} else Level(site, n - 1) + LinkedFromAll(site, Level(site, n - 1))
  }

  lemma {:induction false} LevelsGrow(site: Site, m: nat, n: nat)
    requires m <= n
    ensures Level(site, m) <= Level(site, n)
    decreases n - m
  {
    if m < n {
      LevelsGrow(site, m, n - 1);
    }
  }

  lemma {:induction false} WalkInLevel(site: Site, p: seq<Key>, k: Key)
    requires Walk(site, p, k)
    ensures k in Level(site, |p| - 1)
    decreases |p|
  {
    if |p| > 1 {
      var q := p[..|p| - 1];
      WalkInLevel(site, q, q[|q| - 1]);
      assert LinksTo(site, p[|p| - 2], p[|p| - 1]);
      assert k in LinkedFrom(site, q[|q| - 1]);
    }
  }

  /** All that can be reached within a depth limit is finite, however large the site. */
  lemma UniverseWithin(site: Site) returns (universe: set<Key>)
    requires site.crawl.filter.maxDepth.Some?
    ensures site.crawl.seed in universe && ClosedWithin(site, universe)
  {
    var limit := site.crawl.filter.maxDepth.value;
    universe := Level(site, limit);
    LevelsGrow(site, 0, limit);
    forall k, k', n: nat | k in universe && HasWalk(site, k, n) && Within(site, n + 1) && LinksTo(site, k, k')
      ensures k' in universe
    {
      WalkOn(site, k, k', n);
      var p :| Walk(site, p, k') && |p| == n + 2;
      WalkInLevel(site, p, k');
      LevelsGrow(site, n + 1, limit);
    }
  }

  /** With `max_depth` set nothing has to be assumed of the site. */
  method RunWithinDepth(site: Site, batchSize: nat, clock: nat -> Time) returns (store: MetadataStore)
    requires batchSize > 0 && site.crawl.filter.maxDepth.Some?
    ensures AllTerminal(store.rows)
    ensures forall k | k in store.rows :: store.rows[k].state == EndState(site, k)
    ensures forall k | k in store.rows :: Distance(site, k, store.rows[k].depth)
    ensures forall k :: k in store.rows <==> exists n: nat :: Within(site, n) && HasWalk(site, k, n)
  {
    ghost var universe := UniverseWithin(site);
    store := RunAlone(site, batchSize, clock, universe);
  }
}

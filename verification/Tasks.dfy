/** The worker's and the scheduler's own code, run to the end with no other task in between. */
module Tasks {
  import opened Wrappers
  import opened Frontier
  import opened Filters
  import opened MetadataStores
  import opened Backoff
  import opened CrawlSystem

  /** The effect of one discovered URL. */
  ghost function EnqueueOne(c: Crawl, s: Store, u: Url, depth: nat): Store {
    if Vetted(c, s, u, depth) then Apply(s, Insert(Target(c, u).value, u, depth, None, 0)) else s
  }

  /** The effect of a list of them, in order, when the filter can parse them all. */
  ghost function EnqueueList(c: Crawl, s: Store, links: seq<Url>, depth: nat): Store {
    if links == [] then s else EnqueueOne(c, EnqueueList(c, s, links[..|links| - 1], depth), links[|links| - 1], depth)
  }

  /** The first link from `i` on that the filter chokes on, or the end of the list. */
  function SoundFrom(c: Crawl, links: seq<Url>, i: nat): (n: nat)
    requires i <= |links|
    ensures i <= n <= |links| && (forall j | i <= j < n :: !Chokes(c, links[j]))
    ensures n < |links| ==> Chokes(c, links[n])
    decreases |links| - i
  {
    if i == |links| || Chokes(c, links[i]) then i else SoundFrom(c, links, i + 1)
  }

  /** How many links are dealt with before one the filter chokes on. */
  function Sound(c: Crawl, links: seq<Url>): (n: nat)
    ensures n <= |links|
  {
    SoundFrom(c, links, 0)
  }

  /** The link is dealt with: none before it makes the filter choke. */
  ghost predicate Heard(c: Crawl, links: seq<Url>, u: Url) {
    u in links[..Sound(c, links)]
  }

  /** The effect of the links of a page. */
  ghost function EnqueueAll(c: Crawl, s: Store, links: seq<Url>, depth: nat): Store {
    EnqueueList(c, s, links[..Sound(c, links)], depth)
  }

  /** What a stored discovery looks like. */
  ghost predicate DiscoveredRow(c: Crawl, links: seq<Url>, depth: nat, k: Key, r: Row) {
    exists u :: u in links && Target(c, u) == Some(k) && Wanted(c, u, depth) && r == NewRow(u, depth, None, 0)
  }

  lemma {:induction false} EnqueueListStores(c: Crawl, s: Store, links: seq<Url>, depth: nat)
    ensures var s' := EnqueueList(c, s, links, depth);
      && s.Keys <= s'.Keys
      && (forall k | k in s :: s'[k] == s[k])
      && (forall k | k in s' && k !in s :: DiscoveredRow(c, links, depth, k, s'[k]))
      && (forall u | u in links && Wanted(c, u, depth) :: Target(c, u).value in s')
    decreases |links|
  {
    if links != [] {
      var n := |links| - 1;
      var (prev, u) := (links[..n], links[n]);
      EnqueueListStores(c, s, prev, depth);
      var mid := EnqueueList(c, s, prev, depth);
      var s' := EnqueueList(c, s, links, depth);
      assert links == prev + [u];
      EnqueueOneStores(c, mid, u, depth);
      forall k | k in s' && k !in s
        ensures DiscoveredRow(c, links, depth, k, s'[k])
      {
        if k in mid {
          var u' :| u' in prev && Target(c, u') == Some(k) && Wanted(c, u', depth)
                 && mid[k] == NewRow(u', depth, None, 0);
          assert u' in links;
        } else {
          assert u in links;
        }
      }
    }
  }

  /**
   Old rows are untouched; each new one comes from a wanted link that is dealt with, and none of those is missing:
   the links behind the first one the filter chokes on are lost, and no others.
   */
  lemma EnqueueAllStores(c: Crawl, s: Store, links: seq<Url>, depth: nat)
    ensures var s' := EnqueueAll(c, s, links, depth);
      && s.Keys <= s'.Keys
      && (forall k | k in s :: s'[k] == s[k])
      && (forall k | k in s' && k !in s :: DiscoveredRow(c, links[..Sound(c, links)], depth, k, s'[k]))
      && (forall u | Heard(c, links, u) && Wanted(c, u, depth) :: Target(c, u).value in s')
  {
    EnqueueListStores(c, s, links[..Sound(c, links)], depth);
  }

  lemma EnqueueOneStores(c: Crawl, s: Store, u: Url, depth: nat)
    ensures var s' := EnqueueOne(c, s, u, depth);
      && s.Keys <= s'.Keys
      && (forall k | k in s :: s'[k] == s[k])
      && (forall k | k in s' && k !in s ::
            Target(c, u) == Some(k) && Wanted(c, u, depth) && s'[k] == NewRow(u, depth, None, 0))
      && (Wanted(c, u, depth) ==> Target(c, u).value in s')
  {
  }

  lemma SoundStops(c: Crawl, links: seq<Url>, n: nat)
    requires n <= |links| && (forall j | 0 <= j < n :: !Chokes(c, links[j])) && (n < |links| ==> Chokes(c, links[n]))
    ensures Sound(c, links) == n
  {
  }

  /** `Worker._enqueue_discovered_urls`; `raised` when the filter choked on a link. */
  method EnqueueDiscoveredUrls(c: Crawl, store: MetadataStore, links: seq<Url>, depth: nat) returns (raised: bool)
    modifies store`rows
    ensures store.rows == EnqueueAll(c, old(store.rows), links, depth)
    ensures raised <==> exists u :: u in links && Chokes(c, u)
  {
    ghost var before := store.rows;
    for i := 0 to |links|
      invariant store.rows == EnqueueList(c, before, links[..i], depth)
      invariant forall j | 0 <= j < i :: !Chokes(c, links[j])
    {
      assert links[..i + 1][..i] == links[..i];
      ghost var mid := store.rows;
      var target := Target(c, links[i]);
      if target.Some? {
        var found := store.Exists(target.value);
        var passed := PassesFilter(c.filter, target.value, depth, Some(found));
        if passed == None {
          SoundStops(c, links, i);
          return true;
        }
        if passed.value {
          var accepted := store.Enqueue(target.value, links[i], depth, None, 0);
        }
      }
      assert store.rows == EnqueueOne(c, mid, links[i], depth);
    }
    assert links[..|links|] == links;
    SoundStops(c, links, |links|);
    return false;
  }

  /** The end of `Worker._handle_200`: the links first, the commit after them; no commit when the filter raised. */
  method HandlePage(c: Crawl, store: MetadataStore, lease: LeaseResult, links: seq<Url>, content: Content)
    returns (raised: bool)
    modifies store`rows
    ensures raised <==> exists u :: u in links && Chokes(c, u)
    ensures var stored := EnqueueAll(c, old(store.rows), links, lease.depth + 1);
      store.rows == if raised then stored else Apply(stored, Complete(lease.key, lease.token, content))
  {
    raised := false;
    if links != [] {
      raised := EnqueueDiscoveredUrls(c, store, links, lease.depth + 1);
      if raised {
        return;
      }
    }
    var done := store.MarkCompleted(lease.key, lease.token, content);
  }

  /** What the worker reports: completed, or terminal_failed for a redirect loop, a filter or a store that raised. */
  datatype RedirectReport = Followed | LoopDetected | ProcessingError

  /** The insert of a redirect target; its parent is the raw URL of the lease, not its key. */
  function TargetInsert(c: Crawl, lease: LeaseResult, location: Url, hops: nat): Op
    requires Target(c, location).Some?
  {
    Insert(Target(c, location).value, location, lease.depth, Some(lease.url), hops + 1)
  }

  /** The filter chokes on the target, or its insert raises. */
  ghost predicate TargetRefused(c: Crawl, s: Store, lease: LeaseResult, location: Url, hops: nat) {
    || Chokes(c, location)
    || (Vetted(c, s, location, lease.depth) && Refused(s, TargetInsert(c, lease, location, hops)))
  }

  ghost function WithTarget(c: Crawl, s: Store, lease: LeaseResult, location: Url, hops: nat): Store {
    if Vetted(c, s, location, lease.depth) then Apply(s, TargetInsert(c, lease, location, hops)) else s
  }

  method EnqueueTarget(c: Crawl, store: MetadataStore, lease: LeaseResult, location: Url, hops: nat)
    returns (accepted: bool)
    modifies store`rows
    ensures accepted == !TargetRefused(c, old(store.rows), lease, location, hops)
    ensures store.rows == WithTarget(c, old(store.rows), lease, location, hops)
    ensures !accepted ==> store.rows == old(store.rows)
    ensures forall k | k in store.rows && k !in old(store.rows) :: Target(c, location) == Some(k)
              && store.rows[k] == Row(location, Pending, None, None, 0, 0, hops + 1, None, lease.depth, Some(lease.url),
                                      NO_CONTENT, None)
  {
    accepted := true;
    var target := Target(c, location);
    if target.Some? {
      ghost var before := store.rows;
      var found := store.Exists(target.value);
      var passed := PassesFilter(c.filter, target.value, lease.depth, Some(found));
      if passed == None {
        return false;
      }
      if passed.value {
        accepted := store.Enqueue(target.value, location, lease.depth, Some(lease.url), hops + 1);
        InsertApplied(before, TargetInsert(c, lease, location, hops));
      }
    }
  }

  /** `Worker._handle_redirect` with a location. */
  method HandleRedirect(c: Crawl, store: MetadataStore, lease: LeaseResult, location: Url)
    returns (report: RedirectReport)
    modifies store`rows
    ensures var (before, hops) := (old(store.rows), HopsOf(old(store.rows), lease.key));
      && (report.LoopDetected? <==> hops >= c.maxRedirects)
      && (report.ProcessingError? <==> hops < c.maxRedirects && TargetRefused(c, before, lease, location, hops))
      && store.rows == if !report.Followed? then before
                       else Apply(WithTarget(c, before, lease, location, hops),
                                  Complete(lease.key, lease.token, NO_CONTENT))
    ensures forall k | k in store.rows && k !in old(store.rows) :: Target(c, location) == Some(k)
              && var r := store.rows[k];
                 && r.state.Pending? && r.url == location && r.depth == lease.depth && r.parent == Some(lease.url)
                 && r.redirectCount == 1 + if lease.key in old(store.rows) then old(store.rows)[lease.key].redirectCount
                                           else 0
    ensures report.Followed? && lease.key in old(store.rows) ==>
              (&& lease.key in store.rows
               && var (r, r') := (old(store.rows)[lease.key], store.rows[lease.key]);
                  r' == if r.state.InProgress? && r.token == Some(lease.token)
                        then r.(state := Completed, content := NO_CONTENT, token := None, expiresAt := None) else r)
  {
    var hops := store.GetRedirectCount(lease.key);
    if hops >= c.maxRedirects {
      return LoopDetected;
    }
    var accepted := EnqueueTarget(c, store, lease, location, hops);
    if !accepted {
      return ProcessingError;
    }
    var done := store.MarkCompleted(lease.key, lease.token, NO_CONTENT);
    report := Followed;
  }

  /**
   `Scheduler._handle_retry`: under an open lease the row fails when all its retries are used up, and otherwise is due
   again after the wait of its next retry; under any other nothing changes.  The write is that of the interleaved
   worker in its two moves, reads included.
   */
  method HandleRetry(c: Crawl, store: MetadataStore, lease: LeaseResult, why: string, now: Time)
    modifies store`rows
    ensures var w := Worker(lease, Deciding(why, RetryCountOf(old(store.rows), lease.key), false));
      store.rows == Apply(old(store.rows), MoveOp(c, w, now, NO_CONTENT).value)
    ensures var (before, k) := (old(store.rows), lease.key);
      if k !in before || !before[k].state.InProgress? || before[k].token != Some(lease.token) then store.rows == before
      else
        var r := before[k].(token := None, expiresAt := None, reason := Some(why));
        store.rows == before[k :=
          if r.retryCount >= c.maxRetries then r.(state := Failed)
          else r.(state := Retry, retryCount := r.retryCount + 1,
                  nextRetryAt := Some(now + 1000 * Wait(r.retryCount + 1)))]
  {
    var count := store.GetRetryCount(lease.key);
    var next := count + 1;
    if next > c.maxRetries {
      var done := store.MarkFailedRow(lease.key, Some(lease.token), Some(why));
    } else {
      var delay := RetryDelay(next);
      RetryDelayIsWait(next);
      var done := store.MarkRetryAt(lease.key, lease.token, next, Some(now + delay * 1000), Some(why));
    }
  }
}

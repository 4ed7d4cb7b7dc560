# Verified model of the crawler

A Dafny model of the concurrent web crawler: the lease protocol on its crawl frontier, the URL normaliser that
decides which URLs count as the same, and the rate limiter and worker pool that bound its concurrency. Run
`dafny verify dfyconfig.toml` to check it.

## How it is laid out

The frontier:

- `Frontier.dfy`: a row of `url_records`, and every SQL statement that writes it, split into its WHERE clause
  (`Where`) and its SET list (`Set`); `Apply` runs one statement on the table.
- `Selection.dfy`: the candidate query of `acquire_lease_batch` and the loop of updates after it.
- `MetadataStore.dfy`: the store as a class whose table is updated in place.
- `LeaseHistory.dfy`: facts about every sequence of statements, whoever issues them: fencing, conservation, bounds.
- `LeaseLifetime.dfy`: renewals and the heartbeat.
- `Filters.dfy`, `Backoff.dfy`: the filter pipeline, and the delay formulas.
- `CrawlSystem.dfy`: the crawl as a step system. A step is the work of one task between two awaits, so the SELECT
  of a batch and each of its UPDATEs are separate steps, workers outlive their leases, any store access may raise,
  any task may vanish, and the process may crash and start again on the same table. An error goes where the code
  sends it: one in the deduplication read is swallowed by the filter, which rejects the URL; any other one ends in
  a failure report or a retry. A link whose normal form the filter cannot parse fails its page. A batch is asked
  for only when the pool has a free slot.
- `CrawlInvariants.dfy`, `CrawlSlots.dfy`, `CrawlTheorems.dfy`: what every reachable state keeps, and what follows
  for every run.
- `CrawlRetries.dfy`: the instants written for retries, and that nothing is handed out before its time.
- `Undisturbed.dfy`: the worker of the step system, left undisturbed, does what its code in `Tasks.dfy` does.
- `CrawlRuns.dfy`: runs that occur and show what the crawl does not guarantee.
- `CrawlStability.dfy`, `CrawlProgress.dfy`: exactly when a complete crawl is over, and that until then a lease is
  within reach.
- `Tasks.dfy`, `BreadthFirst.dfy`: the worker's and scheduler's own code as methods on the store, and the
  single-worker crawl shown to be a breadth-first search.

The URL normaliser:

- `Text.dfy`, `PercentEncoding.dfy`, `Query.dfy`, `UrlParts.dfy`: octet strings, triplet rewriting, the query
  step, and the part of `urlparse`/`urlunparse` in use.
- `Normalizer.dfy`: the mutable context, the eight steps and the pipeline loop.
- `Idempotence.dfy`: exactly when normalising twice is normalising once, and when two URLs get one normal form.
- `Brackets.dfy`: what becomes of a host in brackets, and idempotence for every http URL, bracketed ones included.
- `WrittenUrls.dfy`, `UrlExamples.dfy`: the normal form of a URL told from its parts as they are written, what makes
  no difference to it, what is rejected, and particular URLs.
- `Wiring.dfy`: the crawl with this normaliser and parser plugged in.

Bounded concurrency: `RateLimiter.dfy` and `WorkerPool.dfy`, each a step machine beside a class whose methods are
the code between two awaits.

## Where code and documentation disagree

The model follows the code.

- The overview of the repository promises at-most-once processing (README.md:9). The code gives at-most-once
  commit per lease and at most one verdict per URL (`CommitsFenced`, `LeasesAccounted`). Processing itself is not
  at most once: two workers can be at work on one URL exactly when the pool has more than one slot (`SharedIff`),
  and then only after a lease of that URL lapsed (`SharedOnlyIfLapsed`). `TwoWorkersOneUrl` is such a run, with all
  three heartbeat renewals accepted; `HandedOutAgainIff` says exactly when a URL is handed out again.
- A completed page can have lost a wanted link: the filter takes an error of the deduplication read for a rejection
  (src/crawler/pipeline/pipelines.py:67-76), and the page is completed without the link. `LinkLost` is such a run;
  `NoLostLinks` shows that links are lost in no other way.
- One link can cost a page all links behind it: `URLFilter.passes` parses the normal form outside the pipeline's
  error handling (src/crawler/url_filter.py:39), and the normal form of `http://[v1.a[b]/` cannot be parsed
  (`BracketSurvives`). The error fails the page (src/crawler/worker.py:108-109). `LinksLostBehind` is such a run for
  any such link; `ChokesIff` says exactly which links these are. `RunAlone` counts only links in front of one.
- src/crawler/url_normalizer.py:7 claims that normalising is idempotent. `TwoSlashesNotIdempotent` is a
  counterexample; `NormalizeIdempotentIff` gives the exact condition on the parsed path (`StablePath`) for
  authorities without brackets, and `HttpIdempotentIff` that on host and path (`StableHost`) for every http URL. The
  normaliser prints a bracketed host without its brackets, so an address does not survive (`AddressRejected`).
- src/crawler/worker.py:207 stores the raw URL of the source as parent of a redirect target, while the foreign key
  refers to normalised keys. Unless the raw URL happens to be a stored key the insert is refused and the source is
  reported as failed (`RedirectFollowedIff`); `RedirectLost` is a crawl that ends this way at its seed.
- src/crawler/crawler.py:134 takes the authority of the seed, port and user information included, for its domain,
  while the domain filter compares host names. `SeedPassesDomainCheckIff` says for which seeds the two agree,
  `PortSeedFailsDomainCheck` shows one for which they do not, and with such a domain a crawl stores its seed and
  nothing else (`OnlySeedStored`).
- `_is_crawl_complete` alone is not a stable condition: a worker that lost its lease can still insert a row
  (`LateInsertReopens`). `CompleteChangesIff` says exactly which complete crawls some continuation still changes.

## Model

| member | source | states |
|---|---|---|
| LeaseHistory.HeldIffOpen | src/crawler/metadata_store.py:355-388 | In every sequence of statements a row holds a token exactly when the sequence granted it for that URL and has not ended a lease of that URL since. |
| LeaseHistory.CommitIffLeaseOpen | src/crawler/metadata_store.py:491-686 | A token-bearing commit takes effect if and only if its token is the newest granted for the URL and that lease is still open, whatever ran in between. |
| LeaseHistory.RenewalIffLeaseOpen | src/crawler/metadata_store.py:413-430 | A renewal takes effect if and only if its lease is open and has been renewed fewer than three times. |
| LeaseHistory.TokenCommitsOnce | src/crawler/metadata_store.py:355-376 | With fresh tokens no token commits twice, not even for two URLs. |
| LeaseHistory.TerminalNeverLeft | src/crawler/metadata_store.py:491-675 | Once terminal, a row is never written again by any statement. |
| LeaseHistory.FinishedOnce | src/crawler/metadata_store.py:491-675 | Each URL enters a terminal state at most once. |
| LeaseHistory.RowsPersist | src/crawler/metadata_store.py:287-294 | Rows are never deleted and url, depth, parent and redirect count never change after the first insert. |
| LeaseHistory.RetryNotEarly | src/crawler/metadata_store.py:368-373 | A grant that hits a row in Retry reads a time at or after the instant in the row. |
| LeaseHistory.NoGrantBefore | src/crawler/metadata_store.py:361-376 | While a URL waits for an instant, no grant of it to come, the next or any later one, reads an earlier time, as long as batches read a clock that does not run backwards. |
| LeaseHistory.LeasesConserved | src/crawler/metadata_store.py:326-458 | For every URL: grants = retries + lapses + verdicts + 1 if leased now, with at most one verdict or open lease, and a verdict leaves the row terminal. |
| LeaseHistory.HandedOutAgainIff | src/crawler/metadata_store.py:361-376 | A URL is handed out again exactly when an earlier lease of it was retried or lapsed. |
| LeaseHistory.GrantsAreSum | src/crawler/metadata_store.py:355-388 | The grants of a run are the sum of the grants of its URLs. |
| LeaseHistory.LapsesAreSum | src/crawler/metadata_store.py:441-458 | The lapses of a run, sweeps that end many leases included, are the sum of the lapses of its URLs. |
| LeaseHistory.GrantsBounded | src/crawler/scheduler.py:310-335 | Over a finite set of URLs with bounded retries a run grants at most one lease per URL and attempt, plus one per lapse. |
| LeaseLifetime.RenewalsCounted | src/crawler/metadata_store.py:416-427 | In every run the renewal column is the number of renewals since the last grant or expiry and never passes three. |
| LeaseLifetime.LeaseSurvives | src/crawler/metadata_store.py:441-455 | Before its expiry a lease is left untouched by every statement that is not its own commit or renewal. |
| LeaseLifetime.WakesBeforeExpiry | src/crawler/worker.py:238-244 | A heartbeat sleeping half the time-to-live wakes before the lease runs out exactly when that time is not degenerate. |
| LeaseLifetime.HeartbeatRenews | src/crawler/worker.py:236-250 | All three renewals are accepted and each moves the expiry on, whatever the rest of the program does in between. |
| LeaseLifetime.HeartbeatKeepsLease | src/crawler/worker.py:236-250 | After the three renewals the lease stands until exactly 5/2 of the time-to-live after the grant: a fourth renewal is refused, and the row is up for grabs from that instant on and not before. |
| LeaseLifetime.LeaseHeartbeat | src/crawler/worker.py:236-250 | The undisturbed loop uses up the renewals that are left and leaves the last expiry in the row; without the lease it changes nothing. |
| Selection.SelectionSize | src/crawler/metadata_store.py:326-349 | The query returns min(batch size, number of eligible rows) candidates. |
| Selection.RankMeans | src/crawler/metadata_store.py:328-345 | Of rows up for grabs, due retries come first, then expired leases, then pending rows, whatever their depths; within each kind the shallower one. |
| Selection.SelectionMeans | src/crawler/metadata_store.py:326-347 | A candidate is pending, or waits for an instant that has come; and it ranks no worse than the candidates behind it and the rows left out. |
| Selection.SelectionsAgree | src/crawler/metadata_store.py:344-345 | Any two answers to the query have the same tier and depth position by position; only ties are open. |
| Selection.GrantFirstLeases | src/crawler/metadata_store.py:355-376 | Undisturbed, each update of the loop leases its own candidate under its own token, with the expiry of the batch and no renewals yet. |
| Selection.GrantFirstSkips | src/crawler/metadata_store.py:368-373 | The loop leaves every other row as it was. |
| Selection.UndisturbedRow | src/crawler/metadata_store.py:359-379 | Undisturbed, each candidate is still eligible when its update runs. |
| MetadataStores.MetadataStore.Enqueue | src/crawler/metadata_store.py:287-295 | The first writer wins; a new key is stored as a pending row with the given url, depth, parent and redirect count; one with an unknown parent is refused by the foreign key and nothing changes. |
| MetadataStores.MetadataStore.SelectCandidates | src/crawler/metadata_store.py:326-349 | Distinct keys, no more than the limit, each pending or with an instant (next retry, lease expiry) that has come; due retries before expired leases before pending rows, each by depth; and no better-ranked such row left out. |
| MetadataStores.MetadataStore.LeaseOne | src/crawler/metadata_store.py:356-379 | The compare-and-set: exactly when the row is pending, or a retry or a lease whose instant has come, it is in progress afterwards under the fresh token with the new expiry; otherwise nothing changes. |
| MetadataStores.MetadataStore.AcquireLeaseBatch | src/crawler/metadata_store.py:319-391 | Undisturbed it leases exactly the top-ranked rows, in order, under distinct new tokens, and returns their url, depth and expiry; none of them was a retry or a lease whose instant had not come. |
| MetadataStores.MetadataStore.RenewLease | src/crawler/metadata_store.py:413-430 | Accepted exactly under the current token and with fewer than three renewals; then expiry and count move, and nothing else does. |
| MetadataStores.MetadataStore.ExpireLeases | src/crawler/metadata_store.py:441-458 | Every expired row, and no other, is back to Pending with cleared lease fields; the answer is their number. |
| MetadataStores.MetadataStore.MarkCompleted | src/crawler/metadata_store.py:491-516 | Accepted exactly under the current token; then the row holds the content reported and no lease, otherwise nothing changes. |
| MetadataStores.MetadataStore.MarkRetryAt | src/crawler/metadata_store.py:544-572 | Accepted exactly under the current token; then count, instant and reason are those given and the lease is gone, otherwise nothing changes. |
| MetadataStores.MetadataStore.MarkTerminalFailed | src/crawler/metadata_store.py:595-620 | Accepted exactly under the current token; then the row is terminal with the reason given, otherwise nothing changes. |
| MetadataStores.MetadataStore.MarkFailedRow | src/crawler/metadata_store.py:644-686 | With a token it closes an open lease, without one only a row in Retry, keeping the old reason when none is given. |
| MetadataStores.MetadataStore.Exists | src/crawler/metadata_store.py:701-706 | True exactly for stored keys. |
| MetadataStores.MetadataStore.GetRetryCount | src/crawler/metadata_store.py:802-809 | The stored count, or 0 for an unknown key. |
| MetadataStores.MetadataStore.GetRedirectCount | src/crawler/metadata_store.py:784-791 | The stored count, or 0 for an unknown key. |
| MetadataStores.MetadataStore.GetStateCounts | src/crawler/metadata_store.py:753-757 | The size of each state's set of rows; states without a row are absent. |
| MetadataStores.MetadataStore.IsCrawlComplete | src/crawler/scheduler.py:180-186 | True exactly when every row is terminal. |
| CrawlInvariants.RetryWriteAddsOne | src/crawler/scheduler.py:307-335 | When the retry write matches its row, the count it writes is one more than the count in the row, although the count was read in an earlier step. |
| CrawlInvariants.ClockKept | src/crawler/metadata_store.py:319-320 | Every step keeps the readings of successive batches in order and none of them ahead of the clock. |
| CrawlInvariants.RetryKept | src/crawler/scheduler.py:296-335 | Every step keeps the retry accounting and the currency of reads made under a token still held. |
| CrawlInvariants.LinksKept | src/crawler/worker.py:156-171 | Every step keeps: the filter choked on no link a worker has passed, and each is stored if wanted, or its deduplication read raised; and so for completed pages. |
| CrawlInvariants.ScopeKept | src/crawler/worker.py:186-230 | Every step keeps, for every row: a discovery path with as many links as its depth and as many redirects since the last link as its redirect count, its raw URL normalising to its key, and the bounds on all of these. |
| CrawlInvariants.BatchKept | src/crawler/metadata_store.py:349-391 | Every step keeps the candidates an answer to the query at the SELECT and the partial batch an ordered sublist of them, each granted while eligible. |
| CrawlSlots.TokensKept | src/crawler/metadata_store.py:355-388 | Every step keeps the tokens of workers and undispatched leases apart. |
| CrawlSlots.SlotsKept | src/crawler/scheduler.py:122-145 | Every step keeps active workers plus what the batch can still dispatch within max_concurrency. |
| CrawlSlots.LapseKept | src/crawler/scheduler.py:208-229 | Every step keeps: a worker still at work holds its URL, or some lease of that URL has lapsed. |
| CrawlSystem.VettedIsPasses | src/crawler/url_filter.py:37-50 | What the crawl takes for the filter's yes is that the URL can be parsed and the six steps pass; a raised deduplication read is a no. |
| CrawlTheorems.InvOnRuns | src/crawler/scheduler.py:100-147 | All invariants hold along every run from a state that has them. |
| CrawlTheorems.CommitsFenced | src/crawler/metadata_store.py:491-686 | On every run of the crawl: a commit took effect if and only if its lease was open, and no token took effect twice. |
| CrawlTheorems.SharedOnlyIfLapsed | src/crawler/worker_pool.py:38-62 | On every run two workers at work on the same URL mean that a lease of it lapsed and that the pool has two slots. |
| CrawlRuns.TwoWorkersOneUrl | src/crawler/metadata_store.py:368-373 | With two slots there is a run in which, after three accepted renewals, the lease runs out at 5/2 of its time-to-live and a second worker fetches the URL beside the first. |
| CrawlRuns.SharedIff | src/crawler/scheduler.py:122-145 | Some run puts a URL into the hands of two workers at once exactly when max_concurrency is at least two. |
| CrawlTheorems.RetriesAccounted | src/crawler/scheduler.py:296-335 | On every run a row's retry count is its number of effective retries and at most max_retries. |
| CrawlRetries.RetryInstant | src/crawler/scheduler.py:296-335 | On every run a row gets into Retry only by a report under its lease read at some t, with a count one higher and due at t plus 1000 ms times the wait of that retry: 1, then doubled each time up to 300. |
| CrawlRetries.RetryVerdict | src/crawler/scheduler.py:307-335 | On every run a retry report under an open lease leaves the row Failed when its count is max_retries and in Retry otherwise, with the reason reported. |
| CrawlRetries.NoRetryEarly | src/crawler/metadata_store.py:368-373 | On the clock of every run a retry is handed out only once its instant has come. |
| CrawlRetries.NoLapseEarly | src/crawler/metadata_store.py:441-455 | On the clock of every run a lease is taken from its worker, by a sweep or another grant, only once it has run out. |
| CrawlRetries.NotBefore | src/crawler/metadata_store.py:361-376 | From a reached state in which a URL waits for an instant, no continuation grants it with an earlier reading. |
| CrawlRetries.RetryWaitsOut | src/crawler/scheduler.py:324-335 | After a retry report read at t, no grant of the URL on any continuation, the next or any later one, has a reading before the wait of that retry is over. |
| CrawlTheorems.LeasesAccounted | src/crawler/scheduler.py:310-335 | On every run each grant is answered by one retry, lapse or verdict, or is the lease now open. |
| CrawlTheorems.CrawlGrantsBounded | src/crawler/scheduler.py:310-335 | On every run over URLs in u, grants <= u * (max_retries + 1) + lapses, however tasks interleave, fail or crash. |
| CrawlTheorems.NoLostLinks | src/crawler/worker.py:156-171 | On every run, crashes and errors included, the filter choked on no link of a page completed through the 200 path, and each wanted one is a stored row unless its own deduplication read raised. |
| CrawlRuns.LinkLost | src/crawler/pipeline/pipelines.py:67-77 | For every wanted link there is a run in which its deduplication read raises and the page is completed without it. |
| CrawlRuns.LinksLostBehind | src/crawler/url_filter.py:37-50 | A link the filter cannot parse, in front of a wanted one, leads to a complete crawl that stored only the seed, TerminalFailed. |
| CrawlTheorems.RowsInScope | src/crawler/worker.py:186-230 | On every run each row has a real discovery path from the seed with as many links as its depth and as many redirects since the last link as its redirect count; the depth is within max_depth, the redirect count within max_redirects and positive exactly for rows with a parent; its raw URL normalises to its key, and every key but the seed is in scope. |
| CrawlTheorems.RedirectsInARow | src/crawler/worker.py:194-208 | On every run each stored URL is as many redirects in a row behind a link or the seed as its redirect count says, and that is at most max_redirects. |
| CrawlTheorems.RedirectFollowedIff | src/crawler/worker.py:200-209 | A redirect target gets stored exactly when it is there already or the raw URL of its source is a stored key or the target itself; otherwise the worker reports failure. |
| CrawlRuns.RedirectLost | src/crawler/worker.py:203-209 | A seed not written in its normal form that redirects to a wanted target ends TerminalFailed with nothing else stored. |
| CrawlTheorems.BatchUnderInterference | src/crawler/metadata_store.py:326-391 | Under any interference the candidates are an answer to the query on the table at the SELECT, no more than batch_size of them, and the batch is an ordered sublist of them, each leased by its own update on a row then eligible. |
| CrawlTheorems.ReadyIsEligible | src/crawler/metadata_store.py:326-342 | On every run a pending row is eligible at any time, and a row in Retry or in progress from the instant in it on and not before. |
| CrawlTheorems.Progress | src/crawler/scheduler.py:122-147 | With a non-terminal row left, a batch started late enough is not empty, and once a slot allows asking its first update grants a lease, whichever answer the query gives; without a free slot some worker is at work. |
| CrawlProgress.LeaseComes | src/crawler/scheduler.py:122-147 | From every reached state with a non-terminal row, and a slot left over by the batch under way, some continuation grants a lease. |
| CrawlStability.QuietForever | src/crawler/scheduler.py:180-186 | Once the crawl is complete and nobody can insert a key that is not stored, no continuation changes a row. |
| CrawlStability.CompleteChangesIff | src/crawler/scheduler.py:180-186 | Some continuation of a complete crawl changes the table exactly when a live worker or an undispatched lease can still insert a key that is in scope, within depth and not stored, with no link before it that fails the page, or the seed is missing. |
| CrawlRuns.LateInsertReopens | src/crawler/worker.py:225-230 | With two slots and a wanted link there is a run to a complete crawl whose next step, by a worker that lost its lease, adds a pending row. |
| Tasks.EnqueueAllStores | src/crawler/worker.py:225-230 | Old rows are untouched, every new row comes from a wanted link in front of the first one the filter cannot parse, and no such link is missing. |
| Tasks.EnqueueDiscoveredUrls | src/crawler/worker.py:225-230 | The loop enqueues the links in order up to the first one the filter cannot parse, and raises exactly when there is one. |
| Tasks.HandlePage | src/crawler/worker.py:156-171 | The links are stored before the commit, and there is no commit when the filter raised. |
| Tasks.EnqueueTarget | src/crawler/worker.py:201-209 | The target is inserted exactly when the filter passes it, as a pending row with the location as its url, at the depth of the lease, below its raw url and one redirect further; it fails exactly when the filter cannot parse the target or the foreign key refuses the raw parent URL. |
| Tasks.HandleRedirect | src/crawler/worker.py:194-219 | When the redirect is followed, refused as a loop, or fails in the filter or the store, and what the table is then: a row it adds counts one redirect more than its source, and a source followed under an open lease is Completed without content. |
| Tasks.HandleRetry | src/crawler/scheduler.py:296-335 | Under an open lease the row is Failed exactly when its retries are used up, and otherwise in Retry with a count one higher, due now plus the wait of that retry; under any other lease nothing changes. It is the write of the interleaved worker. |
| Undisturbed.MovesIsStep | src/crawler/worker.py:73-230 | A move of a worker considered alone is a step of the crawl. |
| Undisturbed.WorkerUndisturbed | src/crawler/worker.py:73-230 | Whatever a fetch comes to, the moves of an undisturbed worker lead to its report and leave the table its sequential code leaves: links stored up to one the filter cannot parse and then the commit, the redirect target and then the commit, the failure with its reason, or the retry with its instant. |
| Undisturbed.ReadErrorRejects | src/crawler/pipeline/pipelines.py:67-77 | An error of the deduplication read leads where an answer that the URL is stored leads. |
| Undisturbed.ErrorReported | src/crawler/worker.py:108-109 | Any other store error while a page or a redirect is handled ends, once reported, with the URL terminally failed for a processing error. |
| Undisturbed.ReportErrorRetried | src/crawler/scheduler.py:208-235 | A store error while a report is handled ends with the URL in Retry or Failed as if the report had been a retry, and one in that retry ends the worker. |
| BreadthFirst.WalkMeetsFrontier | src/crawler/scheduler.py:129-147 | Every walk from the seed ends at a stored page no deeper than the walk is long, or a shallower page is still waiting. |
| BreadthFirst.DepthIsDistance | src/crawler/metadata_store.py:287-347 | At every moment of the single-worker search each stored depth is the shortest distance from the seed, over links with none before them that fails the page. |
| BreadthFirst.CompleteIsReachable | src/crawler/scheduler.py:135-137 | When it is complete, the stored keys are exactly those within max_depth links of the seed. |
| BreadthFirst.VisitKeeps | src/crawler/worker.py:156-171 | Visiting a shallowest waiting page keeps the search invariant. |
| BreadthFirst.BatchOfOne | src/crawler/metadata_store.py:344-345 | A batch of one is a shallowest waiting page, and is empty only when every row is terminal. |
| BreadthFirst.LeaseShallowest | src/crawler/scheduler.py:129-133 | The batch the scheduler asks for leases a shallowest waiting page and nothing else. |
| BreadthFirst.VisitPage | src/crawler/worker.py:73-109 | What the worker does with the leased URL stores its wanted links one level down, up to one the filter cannot parse, and ends the URL Completed exactly when there is none. |
| BreadthFirst.Round | src/crawler/scheduler.py:129-147 | One round visits a page or ends a complete crawl, and keeps the search invariant. |
| BreadthFirst.RunAlone | src/crawler/scheduler.py:100-147 | The crawl ends; every URL is recorded at its shortest distance, exactly the URLs within reach are recorded, and each ends Completed or TerminalFailed as its page decides. |
| BreadthFirst.UniverseWithin | src/crawler/pipeline/filter_steps.py:35-43 | With max_depth set, all that links within the limit can lead to is finite, however large the site. |
| BreadthFirst.RunWithinDepth | src/crawler/scheduler.py:100-147 | With max_depth set the same holds of the crawl with nothing assumed of the site. |
| Filters.ExcludePasses | src/crawler/pipeline/filter_steps.py:51-55 | The exclude loop passes exactly when no pattern matches or raises. |
| Filters.IncludePasses | src/crawler/pipeline/filter_steps.py:63-66 | The include step passes exactly when some pattern matches and none before it raises. |
| Filters.PassesMeans | src/crawler/pipeline/filter_steps.py:17-86 | Parsed and passed by the six steps means: in scope, shallow enough, and the store answered that it has no such row. |
| Filters.Execute | src/crawler/pipeline/pipelines.py:62-77 | The short-circuit loop passes exactly when every step passes; a step that raises, the deduplication read included, rejects. |
| Filters.PassesFilter | src/crawler/url_filter.py:37-50 | It raises exactly when the URL cannot be parsed, and passes it exactly when it is in scope, shallow enough and the deduplication read answers that it is not stored. |
| Backoff.RetryDelaysClosed | src/crawler/scheduler.py:352-364 | The delays of n retries sum to 2^n - 1 up to nine and to 511 + 300(n - 9) after. |
| Backoff.RetryDelayIsWait | src/crawler/scheduler.py:352-364 | The formula is one second for the first retry and doubles with each further one up to 300. |
| Backoff.BackoffBounds | src/crawler/rate_limiter.py:116-142 | Every wait after a 429 lies in [1, 300], and in [1, 60] when the header does not decide; a header from 1 to 300 is waited out in full, and one above, infinity included, for 300. |
| Backoff.UsableBackoffs | src/crawler/rate_limiter.py:128-136 | Headers that decide keep their order, infinity last, whatever the number of 429s before. |
| Backoff.HeaderFreeBackoffs | src/crawler/rate_limiter.py:138-142 | Without a header the wait starts at one second and doubles up to a minute. |
| Backoff.BackoffMonotone | src/crawler/rate_limiter.py:138-142 | Without a header no wait is shorter than an earlier one. |
| Backoff.ExponentialBackoffsClosed | src/crawler/rate_limiter.py:138-142 | Header-free waits sum to 2^k - 1 up to six and to 63 + 60(k - 6) after. |
| RateLimiters.InvKept | src/crawler/rate_limiter.py:51-150 | Every step of every interleaving keeps the conservation laws. |
| RateLimiters.LimiterConserves | src/crawler/rate_limiter.py:51-114 | In every interleaving the pending count is the number of unfinished calls and within 0..1000, free and held permits add up, and each call fetches at most 10 times and waits at most 9 times, 243 s without deciding headers and 2700 s at most. |
| RateLimiters.NeverStuck | src/crawler/rate_limiter.py:79-114 | While a call is pending some step is possible: nobody waits at an open gate, the gate is shut only while a sleeper will open it, and permits run out only while a call holds one. |
| RateLimiters.RateLimiter.Admit | src/crawler/rate_limiter.py:61-67 | A call is admitted exactly below 1000 pending ones. |
| RateLimiters.RateLimiter.PassGate | src/crawler/rate_limiter.py:81 | A caller woken by the event passes, even if the event was cleared again, and is the only change. |
| RateLimiters.RateLimiter.AcquireSlot | src/crawler/rate_limiter.py:84 | One permit moves to the caller. |
| RateLimiters.RateLimiter.TakeAnswer | src/crawler/rate_limiter.py:85-114 | The permit goes back; the call ends with the result, the error or, at the tenth 429, exhausted; otherwise the gate shuts and the caller waits for the computed delay. |
| RateLimiters.RateLimiter.EndBackoff | src/crawler/rate_limiter.py:149-150 | The gate opens and everybody waiting at it is woken, even if another caller is still waiting out its own delay. |
| RateLimiters.ExecuteWithRetry | src/crawler/rate_limiter.py:75-114 | One call fetches once more than there are 429s first, waits as computed after each, and gives up at the tenth. |
| WorkerPools.InvKept | src/crawler/worker_pool.py:38-72 | Every step of scheduler and workers keeps the books. |
| WorkerPools.PoolConserves | src/crawler/worker_pool.py:38-72 | In every interleaving permits + active = limit, the slot event is set exactly when there is room, a batch is no larger than the batch size and the room, no dispatch finds the semaphore empty, and a waiting scheduler is woken. |
| WorkerPools.WorkerPool.Dispatch | src/crawler/worker_pool.py:44-52 | One more worker runs, and the event is cleared when the pool is full. |
| WorkerPools.WorkerPool.EndWorker | src/crawler/worker_pool.py:58-62 | One worker fewer runs, and the event is set. |
| WorkerPools.WorkerPool.HasCapacity | src/crawler/worker_pool.py:64-66 | True exactly when fewer workers run than allowed, which is when the event is set. |
| PercentEncoding.DecodeAbsorbsUppercase | src/crawler/pipeline/normalization_steps.py:29-48 | For every string, malformed ones included, decoding after uppercasing is decoding. |
| PercentEncoding.DecodeIdempotentIff | src/crawler/pipeline/normalization_steps.py:34-48 | Decoding twice is decoding once exactly when no stray percent sign is followed by digits that decoding turns into a triplet. |
| PercentEncoding.DecodeCanonical | src/crawler/pipeline/normalization_steps.py:34-48 | On well-formed strings decoding is idempotent, keeps the decoded bytes, and maps two strings alike exactly when they differ only in hex case and in whether unreserved characters are encoded. |
| Query.UnquoteQuote | src/crawler/pipeline/normalization_steps.py:120-122 | Unquoting undoes quoting. |
| Query.ParsePrintQuery | src/crawler/pipeline/normalization_steps.py:120-122 | Parsing a printed list of pairs gives the list back, blank names and values included. |
| Query.ParseJoin | src/crawler/pipeline/normalization_steps.py:120 | A query joined of two holds the pairs of both, in order. |
| Query.FieldCount | src/crawler/pipeline/normalization_steps.py:120 | A query holds exactly one pair for each non-empty field between ampersands. |
| Query.NamedValue | src/crawler/pipeline/normalization_steps.py:120 | A field is read as what stands before and after its first equals sign, both unquoted. |
| Query.BlankValue | src/crawler/pipeline/normalization_steps.py:120 | A field without an equals sign is read as its name with an empty value. |
| Query.TextLeMeans | src/crawler/pipeline/normalization_steps.py:121 | Strings are ordered as in a dictionary: a prefix first, otherwise by the first difference. |
| Query.SortedMeans | src/crawler/pipeline/normalization_steps.py:121 | Sorted pairs are in order of their names and, where these are equal, of their values. |
| Query.SortSorts | src/crawler/pipeline/normalization_steps.py:121 | Sorting orders by name, then value, and keeps the multiset of pairs. |
| Query.SortedUnique | src/crawler/pipeline/normalization_steps.py:121 | A list has only one sorted rearrangement. |
| Query.QueryCanonical | src/crawler/pipeline/normalization_steps.py:119-123 | Two queries get the same normal form exactly when they hold the same multiset of pairs; the normal form is its own normal form. |
| Query.RewritingIdleOnQuery | src/crawler/pipeline/normalization_steps.py:131-145 | Both rewriting steps are the identity on every query the sort step produces. |
| UrlParts.ParsePrinted | src/crawler/pipeline/pipelines.py:44-49 | Parsing a rebuilt URL gives back scheme, authority and query, and the path up to the parameters of its last segment. |
| UrlParts.HostReads | src/crawler/pipeline/pipelines.py:46-48 | Host and port read back from a rebuilt authority when the host has no colon. |
| UrlParts.ColonsDoNotReadBack | src/crawler/pipeline/pipelines.py:46-48 | A host with two colons does not: the rebuilt authority has no valid port. |
| UrlParts.PathFromPrint | src/crawler/pipeline/pipelines.py:44-49 | URLs rebuilt from components that differ in the path alone differ. |
| Normalizer.NormalizationContext.Parse | src/crawler/pipeline/normalization_steps.py:61-78 | The parse step sets the components, or rejects the URL and leaves them. |
| Normalizer.NormalizationContext.Execute | src/crawler/pipeline/normalization_steps.py:56-158 | Each step's effect on the whole context. |
| Normalizer.ExecutePipeline | src/crawler/pipeline/pipelines.py:29-49 | The loop is the steps in order, stopped by the first that rejects or raises, then the rebuilt URL. |
| Normalizer.NormalizeIs | src/crawler/pipeline/normalization_steps.py:165-174 | The eight steps come to one rewriting of the parsed components. |
| Normalizer.ShorterPipelineSuffices | src/crawler/pipeline/normalization_steps.py:103-145 | Without the fragment and uppercasing steps the result is the same for every input. |
| WrittenUrls.NormalizeWritten | src/crawler/pipeline/normalization_steps.py:61-158 | For every http or https URL written from its parts, scheme and host in any case: the normal form has both in lower case, no user information, fragment or parameters, the port unless it is the default of the scheme, and path and query in their normal forms. |
| WrittenUrls.FragmentIgnored | src/crawler/pipeline/normalization_steps.py:103-113 | Whatever the URL, malformed ones included, a fragment makes no difference. |
| WrittenUrls.BlanksIgnored | src/crawler/pipeline/normalization_steps.py:66 | Blanks in front, and tabs and line breaks anywhere, make no difference. |
| UrlExamples.DefaultPorts | src/crawler/pipeline/normalization_steps.py:26 | For every host and port: 80 is dropped for http and 443 for https, and any other port is kept. |
| UrlExamples.HttpPortDropped | tests/unit/test_url_normalizer.py:68-70 | http://h:80/ becomes http://h/. |
| UrlExamples.HttpsPortDropped | tests/unit/test_url_normalizer.py:72-74 | https://h:443/ becomes https://h/. |
| UrlExamples.OtherPortKept | tests/unit/test_url_normalizer.py:80-84 | http://h:443/ stays as it is. |
| UrlExamples.BlankParameterKept | src/crawler/pipeline/normalization_steps.py:120-122 | For every host and unreserved parameter name: a parameter without an equals sign is kept, with one. |
| UrlExamples.PageKept | src/crawler/pipeline/normalization_steps.py:120-122 | http://h/?page becomes http://h/?page=. |
| UrlExamples.ParametersSorted | tests/unit/test_url_normalizer.py:118-124 | Two parameters come out ordered by name, then value, whichever came first. |
| UrlExamples.Quoting | src/crawler/pipeline/normalization_steps.py:122 | Unreserved characters are printed as they are, a blank as a plus sign, an ampersand and a slash as triplets. |
| UrlExamples.Unquoting | src/crawler/pipeline/normalization_steps.py:120 | A plus sign is read as a blank, a triplet as its character in either hex case. |
| UrlExamples.Encodings | tests/unit/test_url_normalizer.py:142-178 | In a path %7e and %61 are written out as characters, and %2f becomes %2F. |
| UrlExamples.NoColonRejected | tests/unit/test_url_normalizer.py:22-35 | Every URL without a colon is rejected. |
| UrlExamples.NoHostRejected | tests/unit/test_url_normalizer.py:28-29 | http:/// followed by anything is rejected. |
| UrlExamples.FullNormalization | tests/unit/test_url_normalizer.py:212-219 | HTTP://H:80/P/%61?z=1&a=2#f becomes http://h/P/a?a=2&z=1. |
| Idempotence.PathSettlesIff | src/crawler/pipeline/normalization_steps.py:137-158 | A second pass over parser and steps leaves a normalised path alone exactly when the path is stable. |
| Idempotence.NormalizeTwice | src/crawler/pipeline/pipelines.py:29-49 | The second normalisation of a URL with a bracket-free authority can differ from the first in the path alone. |
| Idempotence.NormalizeIdempotentIff | src/crawler/url_normalizer.py:7 | Normalising twice is normalising once exactly when the parsed path is not several bare slashes, hides no parameters behind trailing slashes and has no armed stray percent sign. |
| Idempotence.TwoSlashesNotIdempotent | src/crawler/url_normalizer.py:7 | The claimed invariant fails for http://h//. |
| Idempotence.SameNormalFormIff | src/crawler/url_normalizer.py:1-7 | Two URLs get the same normal form exactly when scheme, host, port, path and the multiset of query pairs agree in normal form. |
| Idempotence.SamePathIff | src/crawler/pipeline/normalization_steps.py:137-158 | Two well-formed paths get the same normal form exactly when they differ only in trailing slashes, hex case and the encoding of unreserved characters; several bare slashes are kept apart from the root. |
| Idempotence.SameUrlIff | src/crawler/url_normalizer.py:1-7 | On well-formed paths two URLs are taken for one exactly when they differ only in host case, default port, order of query pairs, their paths as above, and what the parse step drops (user information, parameters, fragment). |
| Idempotence.AddressLosesBrackets | src/crawler/pipeline/pipelines.py:44-49 | A normalised URL whose host is an address with two colons is rejected by the second normalisation. |
| Brackets.AddressRejected | src/crawler/pipeline/pipelines.py:44-49 | http://[::1]/ becomes http://::1/, which is rejected. |
| Brackets.BracketSurvives | src/crawler/pipeline/pipelines.py:44-49 | http://[v1.a[b]/ becomes http://v1.a[b/, which cannot be parsed. |
| Brackets.UnparsableIff | src/crawler/pipeline/pipelines.py:44-49 | A normal form cannot be parsed exactly when the host read from the URL holds a bracket. |
| Brackets.HttpIdempotentIff | src/crawler/url_normalizer.py:7 | For every http or https URL: normalising twice is normalising once exactly when the parsed path is stable and the normalised host has no bracket, and no colon unless it reads as a host with a port of its own. |
| Idempotence.SeedPassesDomainCheckIff | src/crawler/pipeline/filter_steps.py:26-32 | The host of a normalised seed equals the seed's authority exactly when that is a bare lower-case host. |
| Idempotence.PortSeedFailsDomainCheck | src/crawler/crawler.py:133-134 | The seed http://h:8080/ fails its own domain check. |
| Brackets.NormalHostIsBare | src/crawler/pipeline/pipelines.py:44-49 | The host name of any normalised URL that can be parsed is lower-case and free of ports and user information. |
| Wiring.ChokesIff | src/crawler/url_filter.py:39 | The filter raises on a discovered link exactly when the host read from it holds a bracket. |
| Wiring.ChokingLink | src/crawler/url_filter.py:39 | It raises on http://[v1.a[b]/, however the crawl is configured. |
| Wiring.OnlySeedStored | src/crawler/pipeline/filter_steps.py:31-32 | With a domain that is not a bare lower-case host name every run stores the seed and nothing else. |

## Left out

- NormalizeIdempotentIff: restricted to http and https URLs whose authority has no brackets; HttpIdempotentIff settles the bracketed ones, and other schemes are not modelled.
- SameNormalFormIff: restricted to http and https URLs whose authority has no brackets.
- SameUrlIff: restricted to the same URLs and to paths in which every percent sign starts a triplet; SameNormalFormIff needs no such condition.
- RunAlone: without max_depth it assumes a finite set of keys closed under in-scope links, as an unlimited crawl of an endless site does not end; with max_depth RunWithinDepth assumes nothing.
- HeartbeatKeepsLease: the heartbeat wakes exactly on time and the time-to-live is above one millisecond; WakesBeforeExpiry says exactly which times are degenerate.
- LimiterConserves: for runs without task cancellation, because a cancelled fetch never gives its permit back (src/crawler/rate_limiter.py:87).
- NoLostLinks: a link counts as wanted when it normalises and passes the scheme, domain, depth and pattern checks.
- OnlySeedStored: for a fixed domain; a resumed crawl takes the authority of the normalised seed instead (src/crawler/scheduler.py:78-82), which is lower-case but keeps its port.
- LeaseComes: when the leases of the batch under way take the last free slots, the next one has to wait for a worker to end.
- EnqueueDiscoveredUrls: on a store that answers; what a raised read or insert does to the loop is in CrawlSystem.dfy.
- SQLite and aiosqlite: each statement is one atomic step on a map with a foreign-key check; transactions, pragmas, indexes and durability are not modelled. A lease result carries the url and depth read at the update instead of at the SELECT, which is the same because these columns never change (RowsPersist).
- The columns lease_owner_id, last_crawl_timestamp and discovered_at, and the metadata tables.
- uuid4: tokens are fresh numbers. Wall clocks: integers in milliseconds that do not run backwards; no task reads a time later than the clock of the run, and each batch reads one no earlier than the batch before it.
- Fetchers, HTTP, content dispatch and content processors: what a fetch and its processing come to is an arbitrary input, so the mapping of status codes and of exceptions to outcomes is not modelled.
- The exact wording of failure reasons and log output.
- Scheduler housekeeping intervals: sweeps may run at any time. The scheduler is the only dispatcher, and after a shutdown the model lets another one take over while old workers finish.
- A store call that raises after its effect took place: a raised call changes nothing here.
- FIFO order at the semaphore and in the queue: the code does not guarantee it globally, and no step assumes it.
- Strings are octet sequences: UTF-8 decoding with replacement, non-ASCII case mapping and NFKC checks are outside the model, and so are the validity check of bracketed hosts (it rejects some URLs the model lets through the parse step) and the parsing of schemes other than http and https.
- Regular expressions: a pattern search is an arbitrary function that may raise.
- Resuming a crawl as a round trip of its configuration: the configuration is fixed within a run; a restart keeps the table.
- The pipeline builder and its YAML configuration, the command line, configuration validation and the analysis script.

/**
 The crawl frontier as data: one row per normalised URL, and the SQL statements the store runs on it.

 Every UPDATE is split the way SQL splits it: `Where` is the statement's WHERE clause on one row and
 `Set` is its SET list.  `Apply` runs a whole statement on the table.
 */
module Frontier {
  import opened Wrappers

  type Url = string    // a URL as discovered
  type Key = string    // a normalised URL, the primary key
  type Token = nat     // a lease token; the store draws a fresh one for every attempted grant
  type Time = int      // milliseconds

  datatype CrawlState = Pending | InProgress | Completed | Retry | Failed | TerminalFailed

  datatype Content = Content(hash: Option<string>, kind: Option<string>, etag: Option<string>)

  const NO_CONTENT := Content(None, None, None)

  const MAX_RENEWALS: nat := 3

  datatype Row = Row(
    url: Url,
    state: CrawlState,
    token: Option<Token>,
    expiresAt: Option<Time>,
    renewals: nat,
    retryCount: nat,
    redirectCount: nat,
    nextRetryAt: Option<Time>,
    depth: nat,
    parent: Option<Key>,
    content: Content,
    reason: Option<string>)

  type Store = map<Key, Row>

  predicate Terminal(state: CrawlState) {
    state.Completed? || state.Failed? || state.TerminalFailed?
  }

  predicate AllTerminal(s: Store) {
    forall k | k in s :: Terminal(s[k].state)
  }

  /** SQL comparison: a NULL instant is never in the past. */
  predicate Passed(at: Option<Time>, now: Time) {
    at.Some? && at.value <= now
  }

  predicate Expired(r: Row, now: Time) {
    r.state.InProgress? && Passed(r.expiresAt, now)
  }

  /** The rows a worker may be given: the three tiers of the candidate query. */
  predicate Eligible(r: Row, now: Time) {
    || r.state.Pending?
    || (r.state.Retry? && Passed(r.nextRetryAt, now))
    || Expired(r, now)
  }

  /** The guard of every write that carries a token. */
  predicate Holds(r: Row, t: Token) {
    r.state.InProgress? && r.token == Some(t)
  }

  /** The statements that write `url_records`. */
  datatype Op =
    | Insert(key: Key, url: Url, depth: nat, parent: Option<Key>, redirects: nat)
    | Grant(key: Key, token: Token, now: Time, expiry: Time)
    | Renew(key: Key, token: Token, expiry: Time)
    | Expire(now: Time)
    | Complete(key: Key, token: Token, content: Content)
    | MarkRetry(key: Key, token: Token, count: nat, at: Option<Time>, reason: Option<string>)
    | MarkTerminal(key: Key, token: Token, reason: Option<string>)
    | MarkFailed(key: Key, token: Token, reason: Option<string>)
    | FailRetry(key: Key, reason: Option<string>)

  /** The writes that end a lease with a verdict; each one carries the lease token. */
  predicate IsCommit(op: Op) {
    op.Complete? || op.MarkRetry? || op.MarkTerminal? || op.MarkFailed?
  }

  /** The WHERE clause of `op` on the row stored under `k`. */
  predicate Where(op: Op, k: Key, r: Row) {
    match op
    case Insert(_, _, _, _, _) => false
    case Grant(key, _, now, _) => k == key && Eligible(r, now)
    case Renew(key, token, _) => k == key && Holds(r, token) && r.renewals < MAX_RENEWALS
    case Expire(now) => Expired(r, now)
    case Complete(key, token, _) => k == key && Holds(r, token)
    case MarkRetry(key, token, _, _, _) => k == key && Holds(r, token)
    case MarkTerminal(key, token, _) => k == key && Holds(r, token)
    case MarkFailed(key, token, _) => k == key && Holds(r, token)
    case FailRetry(key, _) => k == key && r.state.Retry?
  }

  /** The SET list of `op`. */
  function Set(op: Op, r: Row): Row {
    match op
    case Insert(_, _, _, _, _) => r
    case Grant(_, token, _, expiry) =>
      r.(state := InProgress, token := Some(token), expiresAt := Some(expiry), renewals := 0)
    case Renew(_, _, expiry) => r.(expiresAt := Some(expiry), renewals := r.renewals + 1)
    case Expire(_) => r.(state := Pending, token := None, expiresAt := None, renewals := 0)
    case Complete(_, _, content) =>
      r.(state := Completed, content := content, token := None, expiresAt := None)
    case MarkRetry(_, _, count, at, reason) =>
      r.(state := Retry, retryCount := count, nextRetryAt := at, reason := reason, token := None, expiresAt := None)
    case MarkTerminal(_, _, reason) =>
      r.(state := TerminalFailed, reason := reason, token := None, expiresAt := None)
    case MarkFailed(_, _, reason) =>
      r.(state := Failed, reason := reason, token := None, expiresAt := None)
    case FailRetry(_, reason) =>
      r.(state := Failed, reason := if reason.Some? then reason else r.reason, token := None, expiresAt := None)
  }

  function Touch(op: Op, k: Key, r: Row): Row {
    if Where(op, k, r) then Set(op, r) else r
  }

  function NewRow(url: Url, depth: nat, parent: Option<Key>, redirects: nat): Row {
    Row(url, Pending, None, None, 0, 0, redirects, None, depth, parent, NO_CONTENT, None)
  }

  /** The foreign key on `parent_url`; a row may be its own parent. */
  predicate ParentKnown(s: Store, k: Key, parent: Option<Key>) {
    parent.None? || parent.value in s || parent.value == k
  }

  /** The insert adds a row: the key is new and the foreign key holds. */
  predicate Inserts(s: Store, op: Op) {
    op.Insert? && op.key !in s && ParentKnown(s, op.key, op.parent)
  }

  /** The insert is refused with an error; an existing key is ignored before the foreign key is looked at. */
  predicate Refused(s: Store, op: Op) {
    op.Insert? && op.key !in s && !ParentKnown(s, op.key, op.parent)
  }

  function Apply(s: Store, op: Op): (s': Store)
    ensures s.Keys <= s'.Keys
    ensures forall k | k in s :: s'[k] == Touch(op, k, s[k])
    ensures forall k | k in s' :: k in s || (Inserts(s, op) && k == op.key)
  {
    var updated := map k | k in s :: Touch(op, k, s[k]);
    if Inserts(s, op) then updated[op.key := NewRow(op.url, op.depth, op.parent, op.redirects)] else updated
  }

  /** An insert changes nothing but, at most, its own key. */
  lemma InsertApplied(s: Store, op: Op)
    requires op.Insert?
    ensures Apply(s, op) == if Inserts(s, op) then s[op.key := NewRow(op.url, op.depth, op.parent, op.redirects)] else s
  {
  }

  /** The statement matched its row (`rowcount > 0`). */
  predicate Effective(s: Store, op: Op)
    requires !op.Expire?
  {
    if op.Insert? then Inserts(s, op) else op.key in s && Where(op, op.key, s[op.key])
  }

  /** Columns no statement ever rewrites. */
  predicate SameIdentity(a: Row, b: Row) {
    a.url == b.url && a.depth == b.depth && a.redirectCount == b.redirectCount && a.parent == b.parent
  }

  lemma TouchKeepsIdentity(op: Op, k: Key, r: Row)
    ensures SameIdentity(r, Touch(op, k, r))
  {
  }

  lemma TerminalUntouched(op: Op, k: Key, r: Row)
    requires Terminal(r.state)
    ensures Touch(op, k, r) == r
  {
  }
}

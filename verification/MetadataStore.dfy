/** The store as the program holds it: a table updated in place, one statement at a time. */
module MetadataStores {
  import opened Wrappers
  import opened Frontier
  import opened Selection

  datatype LeaseResult = LeaseResult(key: Key, url: Url, depth: nat, token: Token, expiry: Time)

  function LeaseOf(s: Store, k: Key, token: Token, expiry: Time): LeaseResult
    requires k in s
  {
    LeaseResult(k, s[k].url, s[k].depth, token, expiry)
  }

  function LeaseKeys(leases: seq<LeaseResult>): seq<Key> {
    seq(|leases|, i requires 0 <= i < |leases| => leases[i].key)
  }

  /** The results handed out for the first `n` of `keys`. */
  ghost function LeasesOf(s: Store, keys: seq<Key>, n: nat, firstToken: Token, expiry: Time): (leases: seq<LeaseResult>)
    requires n <= |keys| && forall i | 0 <= i < |keys| :: keys[i] in s
    ensures |leases| == n
  {
    seq(n, i requires 0 <= i < n => LeaseOf(s, keys[i], firstToken + i, expiry))
  }

  /** The loop over the candidates after `i` of them, with nothing running in between. */
  ghost predicate LeasedFirst(s: Store, keys: seq<Key>, i: nat, firstToken: Token, now: Time, expiry: Time, rows: Store,
                              leases: seq<LeaseResult>)
    requires AllEligible(s, keys, now)
  {
    i <= |keys| && rows == GrantFirst(s, keys, i, firstToken, now, expiry)
    && leases == LeasesOf(s, keys, i, firstToken, expiry)
  }

  lemma LeasedMore(s: Store, keys: seq<Key>, i: nat, firstToken: Token, now: Time, expiry: Time, rows: Store,
                   leases: seq<LeaseResult>)
    requires Distinct(keys) && AllEligible(s, keys, now) && i < |keys|
    requires LeasedFirst(s, keys, i, firstToken, now, expiry, rows, leases)
    ensures var op := Grant(keys[i], firstToken + i, now, expiry);
      && Effective(rows, op)
      && LeasedFirst(s, keys, i + 1, firstToken, now, expiry, Apply(rows, op),
                     leases + [LeaseOf(s, keys[i], firstToken + i, expiry)])
  {
    UndisturbedRow(s, keys, i, firstToken, now, expiry);
  }

  lemma LeasesOfKeys(s: Store, keys: seq<Key>, firstToken: Token, expiry: Time)
    requires forall i | 0 <= i < |keys| :: keys[i] in s
    ensures LeaseKeys(LeasesOf(s, keys, |keys|, firstToken, expiry)) == keys
  {
  }

  ghost function InState(s: Store, within: set<Key>, st: CrawlState): set<Key> {
    set k | k in within && k in s && s[k].state == st
  }

  lemma InStateGrows(s: Store, within: set<Key>, k: Key)
    requires k in s && k !in within
    ensures forall st {:trigger InState(s, within + {k}, st)} ::
              InState(s, within + {k}, st) == InState(s, within, st) + if s[k].state == st then {k} else {}
  {
  }

  class MetadataStore {
    var rows: Store
    var nextToken: Token   // the source of fresh tokens, standing for uuid4

    constructor ()
      ensures rows == map[]
    {
      rows := map[];
      nextToken := 0;
    }

    /** INSERT OR IGNORE; `accepted` is false when the foreign key refuses the row with an error. */
    method Enqueue(key: Key, url: Url, depth: nat, parent: Option<Key>, redirects: nat) returns (accepted: bool)
      modifies this`rows
      ensures rows == Apply(old(rows), Insert(key, url, depth, parent, redirects))
      ensures accepted == !Refused(old(rows), Insert(key, url, depth, parent, redirects))
      ensures accepted <==> key in old(rows) || parent.None? || parent.value in old(rows) || parent.value == key
      ensures rows == if !accepted || key in old(rows) then old(rows) else
                      old(rows)[key := Row(url, Pending, None, None, 0, 0, redirects, None, depth, parent, NO_CONTENT,
                                           None)]
    {
      accepted := true;
      if key !in rows {
        if parent.Some? && parent.value != key && parent.value !in rows {
          accepted := false;
        } else {
          rows := rows[key := NewRow(url, depth, parent, redirects)];
        }
      }
      InsertApplied(old(rows), Insert(key, url, depth, parent, redirects));
    }

    /** The first row of `pool` in query order. */
    method PickFirst(pool: set<Key>) returns (best: Key)
      requires pool != {} && pool <= rows.Keys
      ensures best in pool && forall k | k in pool :: RanksFirst(rows[best], rows[k])
    {
      best :| best in pool;
      var rest := pool - {best};
      while rest != {}
        invariant best in pool && rest <= pool
        invariant forall k | k in pool - rest :: RanksFirst(rows[best], rows[k])
        decreases |rest|
      {
        var k :| k in rest;
        if !RanksFirst(rows[best], rows[k]) {
          best := k;
        }
        rest := rest - {k};
      }
    }

    /** The SELECT of `acquire_lease_batch`. */
    method SelectCandidates(now: Time, limit: nat) returns (keys: seq<Key>)
      ensures IsSelection(rows, now, limit, keys)
      ensures forall k | k in keys :: k in rows
                && (|| rows[k].state.Pending?
                    || (rows[k].state.Retry? && rows[k].nextRetryAt.Some? && rows[k].nextRetryAt.value <= now)
                    || (rows[k].state.InProgress? && rows[k].expiresAt.Some? && rows[k].expiresAt.value <= now))
      ensures forall i, j | 0 <= i < j < |keys| ::
                if rows[keys[i]].state == rows[keys[j]].state then rows[keys[i]].depth <= rows[keys[j]].depth
                else rows[keys[i]].state.Retry? || (rows[keys[i]].state.InProgress? && rows[keys[j]].state.Pending?)
    {
      keys := [];
      var pool := EligibleKeys(rows, now);
      while pool != {} && |keys| < limit
        invariant |keys| <= limit && Distinct(keys)
        invariant pool <= EligibleKeys(rows, now)
        invariant forall k | k in EligibleKeys(rows, now) :: k in pool <==> k !in keys
        invariant forall i | 0 <= i < |keys| :: keys[i] in EligibleKeys(rows, now)
        invariant forall i, j | 0 <= i < j < |keys| :: RanksFirst(rows[keys[i]], rows[keys[j]])
        invariant forall i, k | 0 <= i < |keys| && k in pool :: RanksFirst(rows[keys[i]], rows[k])
        decreases |pool|
      {
        var k := PickFirst(pool);
        keys := keys + [k];
        pool := pool - {k};
      }
      SelectedRows(rows, now, limit, keys);
    }

    /** One conditional UPDATE of `acquire_lease_batch`, under a fresh token. */
    method LeaseOne(key: Key, now: Time, expiry: Time) returns (token: Token, leased: bool)
      modifies this
      ensures token == old(nextToken) && nextToken == token + 1
      ensures rows == Apply(old(rows), Grant(key, token, now, expiry))
      ensures leased == Effective(old(rows), Grant(key, token, now, expiry))
      ensures leased <==> (key in old(rows) &&
                           var r := old(rows)[key];
                           || r.state.Pending?
                           || (r.state.Retry? && r.nextRetryAt.Some? && r.nextRetryAt.value <= now)
                           || (r.state.InProgress? && r.expiresAt.Some? && r.expiresAt.value <= now))
      ensures rows == if !leased then old(rows) else
                      old(rows)[key := old(rows)[key].(state := InProgress, token := Some(token),
                                                       expiresAt := Some(expiry), renewals := 0)]
    {
      token := nextToken;
      nextToken := nextToken + 1;
      leased := key in rows && Eligible(rows[key], now);
      if leased {
        rows := rows[key := rows[key].(state := InProgress, token := Some(token), expiresAt := Some(expiry),
                                       renewals := 0)];
      }
      assert rows == Apply(old(rows), Grant(key, token, now, expiry));
    }

    /** The loop of `acquire_lease_batch` over its candidates, with nothing running in between. */
    method LeaseEach(keys: seq<Key>, now: Time, expiry: Time) returns (leases: seq<LeaseResult>)
      requires Distinct(keys) && AllEligible(rows, keys, now)
      modifies this
      ensures leases == LeasesOf(old(rows), keys, |keys|, old(nextToken), expiry)
      ensures nextToken == old(nextToken) + |keys|
      ensures rows == GrantFirst(old(rows), keys, |keys|, old(nextToken), now, expiry)
    {
      var selected := rows;
      ghost var first := nextToken;
      leases := [];
      for i := 0 to |keys|
        invariant nextToken == first + i
        invariant LeasedFirst(selected, keys, i, first, now, expiry, rows, leases)
      {
        LeasedMore(selected, keys, i, first, now, expiry, rows, leases);
        ghost var leasedRows := Apply(rows, Grant(keys[i], first + i, now, expiry));
        var token, leased := LeaseOne(keys[i], now, expiry);
        assert leased && token == first + i && rows == leasedRows;
        if leased {
          leases := leases + [LeaseOf(selected, keys[i], token, expiry)];
        }
      }
    }

    /**
     `acquire_lease_batch` undisturbed: it leases exactly the rows the query ranks first, each under a token of
     its own.
     */
    method AcquireLeaseBatch(batchSize: nat, ttl: nat, now: Time)
      returns (leases: seq<LeaseResult>, ghost keys: seq<Key>)
      modifies this
      ensures IsSelection(old(rows), now, batchSize, keys) && LeaseKeys(leases) == keys
      ensures leases == LeasesOf(old(rows), keys, |keys|, old(nextToken), now + ttl)
      ensures nextToken == old(nextToken) + |keys|
      ensures rows == GrantFirst(old(rows), keys, |keys|, old(nextToken), now, now + ttl)
      ensures forall k | k in keys :: k in old(rows) &&
                var r := old(rows)[k];
                || r.state.Pending?
                || (r.state.Retry? && r.nextRetryAt.Some? && r.nextRetryAt.value <= now)
                || (r.state.InProgress? && r.expiresAt.Some? && r.expiresAt.value <= now)
    {
      var candidates := SelectCandidates(now, batchSize);
      leases := LeaseEach(candidates, now, now + ttl);
      keys := candidates;
      LeasesOfKeys(old(rows), keys, old(nextToken), now + ttl);
    }

    method RenewLease(key: Key, token: Token, extension: nat, now: Time) returns (renewed: bool)
      modifies this`rows
      ensures rows == Apply(old(rows), Renew(key, token, now + extension))
      ensures renewed == Effective(old(rows), Renew(key, token, now + extension))
      ensures renewed <==> key in old(rows) && old(rows)[key].state.InProgress? && old(rows)[key].token == Some(token)
                           && old(rows)[key].renewals < 3
      ensures rows == if !renewed then old(rows) else
                      old(rows)[key := old(rows)[key].(expiresAt := Some(now + extension),
                                                       renewals := old(rows)[key].renewals + 1)]
    {
      renewed := key in rows && rows[key].token == Some(token) && rows[key].state.InProgress? && rows[key].renewals < 3;
      if renewed {
        rows := rows[key := rows[key].(expiresAt := Some(now + extension), renewals := rows[key].renewals + 1)];
      }
      assert rows == Apply(old(rows), Renew(key, token, now + extension));
    }

    method ExpireLeases(now: Time) returns (count: nat)
      modifies this`rows
      ensures rows == Apply(old(rows), Expire(now))
      ensures count == |set k | k in old(rows) && Expired(old(rows)[k], now)|
      ensures rows.Keys == old(rows).Keys
      ensures forall k | k in rows ::
                var r := old(rows)[k];
                rows[k] == if r.state.InProgress? && r.expiresAt.Some? && r.expiresAt.value <= now
                           then r.(state := Pending, token := None, expiresAt := None, renewals := 0) else r
    {
      var due := set k | k in rows && rows[k].state.InProgress? && rows[k].expiresAt.Some?
                         && rows[k].expiresAt.value <= now;
      assert due == set k | k in rows && Expired(rows[k], now);
      count := |due|;
      var rest := due;
      while rest != {}
        invariant rest <= due && rows.Keys == old(rows).Keys
        invariant forall k | k in rows ::
                    rows[k] == if k in rest then old(rows)[k] else Touch(Expire(now), k, old(rows)[k])
        decreases |rest|
      {
        var k :| k in rest;
        rows := rows[k := rows[k].(state := Pending, token := None, expiresAt := None, renewals := 0)];
        rest := rest - {k};
      }
      assert rows == Apply(old(rows), Expire(now));
    }

    method MarkCompleted(key: Key, token: Token, content: Content) returns (done: bool)
      modifies this`rows
      ensures rows == Apply(old(rows), Complete(key, token, content))
      ensures done == Effective(old(rows), Complete(key, token, content))
      ensures done <==> key in old(rows) && old(rows)[key].state.InProgress? && old(rows)[key].token == Some(token)
      ensures rows == if !done then old(rows) else
                      old(rows)[key := old(rows)[key].(state := Completed, content := content, token := None,
                                                       expiresAt := None)]
    {
      done := key in rows && rows[key].token == Some(token) && rows[key].state.InProgress?;
      if done {
        rows := rows[key := rows[key].(state := Completed, content := content, token := None, expiresAt := None)];
      }
      assert rows == Apply(old(rows), Complete(key, token, content));
    }

    method MarkRetryAt(key: Key, token: Token, count: nat, at: Option<Time>, reason: Option<string>)
      returns (done: bool)
      modifies this`rows
      ensures rows == Apply(old(rows), MarkRetry(key, token, count, at, reason))
      ensures done == Effective(old(rows), MarkRetry(key, token, count, at, reason))
      ensures done <==> key in old(rows) && old(rows)[key].state.InProgress? && old(rows)[key].token == Some(token)
      ensures rows == if !done then old(rows) else
                      old(rows)[key := old(rows)[key].(state := Retry, retryCount := count, nextRetryAt := at,
                                                       reason := reason, token := None, expiresAt := None)]
    {
      done := key in rows && rows[key].token == Some(token) && rows[key].state.InProgress?;
      if done {
        rows := rows[key := rows[key].(state := Retry, retryCount := count, nextRetryAt := at, reason := reason,
                                       token := None, expiresAt := None)];
      }
      assert rows == Apply(old(rows), MarkRetry(key, token, count, at, reason));
    }

    method MarkTerminalFailed(key: Key, token: Token, reason: Option<string>) returns (done: bool)
      modifies this`rows
      ensures rows == Apply(old(rows), MarkTerminal(key, token, reason))
      ensures done == Effective(old(rows), MarkTerminal(key, token, reason))
      ensures done <==> key in old(rows) && old(rows)[key].state.InProgress? && old(rows)[key].token == Some(token)
      ensures rows == if !done then old(rows) else
                      old(rows)[key := old(rows)[key].(state := TerminalFailed, reason := reason, token := None,
                                                       expiresAt := None)]
    {
      done := key in rows && rows[key].token == Some(token) && rows[key].state.InProgress?;
      if done {
        rows := rows[key := rows[key].(state := TerminalFailed, reason := reason, token := None, expiresAt := None)];
      }
      assert rows == Apply(old(rows), MarkTerminal(key, token, reason));
    }

    /** With a token it closes an open lease; without one it gives up on a row waiting for a retry. */
    method MarkFailedRow(key: Key, token: Option<Token>, reason: Option<string>) returns (done: bool)
      modifies this`rows
      ensures var op := if token.Some? then MarkFailed(key, token.value, reason) else FailRetry(key, reason);
        rows == Apply(old(rows), op) && done == Effective(old(rows), op)
      ensures done <==> (key in old(rows) &&
                         if token.Some? then old(rows)[key].state.InProgress? && old(rows)[key].token == token
                         else old(rows)[key].state.Retry?)
      ensures rows == if !done then old(rows) else
                      old(rows)[key := old(rows)[key].(
                        state := Failed, token := None, expiresAt := None,
                        reason := if token.None? && reason.None? then old(rows)[key].reason else reason)]
    {
      if token.Some? {
        done := key in rows && rows[key].token == token && rows[key].state.InProgress?;
        if done {
          rows := rows[key := rows[key].(state := Failed, reason := reason, token := None, expiresAt := None)];
        }
        assert rows == Apply(old(rows), MarkFailed(key, token.value, reason));
      } else {
        done := key in rows && rows[key].state.Retry?;
        if done {
          rows := rows[key := rows[key].(state := Failed, reason := if reason.Some? then reason else rows[key].reason,
                                         token := None, expiresAt := None)];
        }
        assert rows == Apply(old(rows), FailRetry(key, reason));
      }
    }

    method Exists(key: Key) returns (found: bool)
      ensures found <==> key in rows
    {
      found := key in rows;
    }

    method GetRetryCount(key: Key) returns (count: nat)
      ensures count == if key in rows then rows[key].retryCount else 0
    {
      count := 0;
      if key in rows {
        count := rows[key].retryCount;
      }
    }

    method GetRedirectCount(key: Key) returns (count: nat)
      ensures count == if key in rows then rows[key].redirectCount else 0
    {
      count := 0;
      if key in rows {
        count := rows[key].redirectCount;
      }
    }

    /** SELECT crawl_state, COUNT(*) ... GROUP BY crawl_state: states without a row are absent. */
    method GetStateCounts() returns (counts: map<CrawlState, nat>)
      ensures forall st :: if st in counts then counts[st] == |InState(rows, rows.Keys, st)| > 0
                                           else InState(rows, rows.Keys, st) == {}
    {
      counts := map[];
      var rest := rows.Keys;
      ghost var seen: set<Key> := {};
      while rest != {}
        invariant rest <= rows.Keys && seen == rows.Keys - rest
        invariant forall st :: if st in counts then counts[st] == |InState(rows, seen, st)| > 0
                                               else InState(rows, seen, st) == {}
        decreases |rest|
      {
        var k :| k in rest;
        var st := rows[k].state;
        InStateGrows(rows, seen, k);
        assert k !in InState(rows, seen, st);
        counts := counts[st := 1 + if st in counts then counts[st] else 0];
        rest := rest - {k};
        seen := seen + {k};
      }
      assert seen == rows.Keys;
    }

    /** `Scheduler._is_crawl_complete`: no row left that could still be handed out. */
    method IsCrawlComplete() returns (complete: bool)
      ensures complete <==> AllTerminal(rows)
    {
      var counts := GetStateCounts();
      var pending := if Pending in counts then counts[Pending] else 0;
      var retry := if Retry in counts then counts[Retry] else 0;
      var inProgress := if InProgress in counts then counts[InProgress] else 0;
      complete := pending == 0 && retry == 0 && inProgress == 0;
      assert forall k | k in rows :: k in InState(rows, rows.Keys, rows[k].state);
    }
  }
}

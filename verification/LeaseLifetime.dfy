/** How long a lease lives: at most three renewals, and what a heartbeat at half the time-to-live buys. */
module LeaseLifetime {
  import opened Wrappers
  import opened Frontier
  import opened LeaseHistory
  import opened MetadataStores

  /** Running a stretch of statements from a given table. */
  ghost function ApplyAll(s: Store, ops: seq<Op>): Store {
    if ops == [] then s else Apply(ApplyAll(s, ops[..|ops| - 1]), ops[|ops| - 1])
  }

  /** Successful renewals of `k` since its last grant or expiry. */
  ghost function RenewalsSinceGrant(ops: seq<Op>, k: Key): nat {
    if ops == [] then 0 else
    var n := |ops| - 1;
    if !Hits(ops, n, k) then RenewalsSinceGrant(ops[..n], k)
    else if ops[n].Renew? then RenewalsSinceGrant(ops[..n], k) + 1
    else if ops[n].Grant? || ops[n].Expire? then 0
    else RenewalsSinceGrant(ops[..n], k)
  }

  /** In every run the renewal column counts the renewals of the current lease and never passes three. */
  lemma {:induction false} RenewalsCounted(ops: seq<Op>, k: Key)
    ensures k in Replay(ops) ==> Replay(ops)[k].renewals == RenewalsSinceGrant(ops, k) <= MAX_RENEWALS
    ensures k !in Replay(ops) ==> RenewalsSinceGrant(ops, k) == 0
    decreases |ops|
  {
    if ops != [] {
      RenewalsCounted(ops[..|ops| - 1], k);
    }
  }

  /**
   A statement some other part of the program may issue while the lease (k, t) is young: its clock reading is
   before `expiry`, and it is neither a commit nor a renewal under the token of that lease.
   */
  ghost predicate Outsider(op: Op, k: Key, t: Token, expiry: Time) {
    match op
    case Grant(_, _, now, _) => now < expiry
    case Expire(now) => now < expiry
    case Renew(key, token, _) => key != k || token != t
    case Complete(key, token, _) => key != k || token != t
    case MarkRetry(key, token, _, _, _) => key != k || token != t
    case MarkTerminal(key, token, _) => key != k || token != t
    case MarkFailed(key, token, _) => key != k || token != t
    case _ => true
  }

  ghost predicate Outsiders(ops: seq<Op>, k: Key, t: Token, expiry: Time) {
    forall i | 0 <= i < |ops| :: Outsider(ops[i], k, t, expiry)
  }

  ghost predicate LeasedUntil(s: Store, k: Key, t: Token, expiry: Time, renewals: nat) {
    k in s && Holds(s[k], t) && s[k].expiresAt == Some(expiry) && s[k].renewals == renewals
  }

  /** However many such statements run, an unexpired lease is left exactly as it was. */
  lemma {:induction false} LeaseSurvives(s: Store, ops: seq<Op>, k: Key, t: Token, expiry: Time, renewals: nat)
    requires LeasedUntil(s, k, t, expiry, renewals) && Outsiders(ops, k, t, expiry)
    ensures LeasedUntil(ApplyAll(s, ops), k, t, expiry, renewals)
    decreases |ops|
  {
    if ops != [] {
      var n := |ops| - 1;
      LeaseSurvives(s, ops[..n], k, t, expiry, renewals);
    }
  }

  /**
   The clock reading, in milliseconds, of the `m`-th wake-up of a heartbeat that sleeps half of `ttl`; the
   grant is at `start` half-milliseconds, so that an odd `ttl` needs no rounding.
   */
  function WakeUp(start: int, ttl: nat, m: nat): Time {
    (start + m * ttl) / 2
  }

  /** When the lease runs out after the `m`-th wake-up. */
  function ExpiryAfter(start: int, ttl: nat, m: nat): Time {
    WakeUp(start, ttl, m) + ttl
  }

  /** The next wake-up comes before the lease runs out exactly when the time-to-live is not degenerate. */
  lemma WakesBeforeExpiry(start: int, ttl: nat, m: nat)
    ensures WakeUp(start, ttl, m + 1) < ExpiryAfter(start, ttl, m)
         <==> ttl > 1 || (ttl == 1 && (start + m * ttl) % 2 == 0)
  {
    assert start + (m + 1) * ttl == (start + m * ttl) + ttl;
  }

  /** The table after `m` rounds: the statements of others, then the renewal of the next wake-up. */
  ghost function Beats(s: Store, others: seq<seq<Op>>, k: Key, t: Token, start: int, ttl: nat, m: nat): Store
    requires m <= |others|
  {
    if m == 0 then s else
    Apply(ApplyAll(Beats(s, others, k, t, start, ttl, m - 1), others[m - 1]), Renew(k, t, ExpiryAfter(start, ttl, m)))
  }

  /** Between wake-ups the rest of the program reads clocks no later than the next wake-up. */
  ghost predicate Timely(others: seq<seq<Op>>, k: Key, t: Token, start: int, ttl: nat) {
    forall m | 0 <= m < |others| :: Outsiders(others[m], k, t, WakeUp(start, ttl, m + 1) + 1)
  }

  /** Each of the three renewals is accepted and moves the expiry on, whatever others do in between. */
  lemma {:induction false} HeartbeatRenews(s: Store, others: seq<seq<Op>>, k: Key, t: Token, start: int, ttl: nat,
                                           m: nat)
    requires ttl > 1 && m <= |others| && m <= MAX_RENEWALS && Timely(others, k, t, start, ttl)
    requires LeasedUntil(s, k, t, ExpiryAfter(start, ttl, 0), 0)
    ensures LeasedUntil(Beats(s, others, k, t, start, ttl, m), k, t, ExpiryAfter(start, ttl, m), m)
    decreases m
  {
    if m > 0 {
      HeartbeatRenews(s, others, k, t, start, ttl, m - 1);
      WakesBeforeExpiry(start, ttl, m - 1);
      OutsidersLater(others[m - 1], k, t, WakeUp(start, ttl, m) + 1, ExpiryAfter(start, ttl, m - 1));
      LeaseSurvives(Beats(s, others, k, t, start, ttl, m - 1), others[m - 1], k, t,
                    ExpiryAfter(start, ttl, m - 1), m - 1);
    }
  }

  lemma OutsidersLater(ops: seq<Op>, k: Key, t: Token, early: Time, late: Time)
    requires Outsiders(ops, k, t, early) && early <= late
    ensures Outsiders(ops, k, t, late)
  {
    forall i | 0 <= i < |ops|
      ensures Outsider(ops[i], k, t, late)
    {
      assert Outsider(ops[i], k, t, early);
    }
  }

  /**
   After its three renewals the heartbeat has kept the lease, which then stands until exactly three half-lives
   plus one full one after the grant: a fourth renewal is refused, no earlier reading of the clock can take the
   row away, and at that reading it is up for grabs.
   */
  lemma HeartbeatKeepsLease(s: Store, others: seq<seq<Op>>, last: seq<Op>, k: Key, t: Token, start: int, ttl: nat)
    requires ttl > 1 && |others| == MAX_RENEWALS && Timely(others, k, t, start, ttl)
    requires LeasedUntil(s, k, t, ExpiryAfter(start, ttl, 0), 0)
    requires Outsiders(last, k, t, ExpiryAfter(start, ttl, 3))
    ensures var s' := ApplyAll(Beats(s, others, k, t, start, ttl, 3), last);
      && LeasedUntil(s', k, t, ExpiryAfter(start, ttl, 3), 3)
      && (forall e :: !Where(Renew(k, t, e), k, s'[k]))
      && (forall now :: Eligible(s'[k], now) <==> now >= ExpiryAfter(start, ttl, 3))
    ensures ttl % 2 == 0 ==> ExpiryAfter(start, ttl, 3) == start / 2 + 5 * ttl / 2
  {
    HeartbeatRenews(s, others, k, t, start, ttl, 3);
    LeaseSurvives(Beats(s, others, k, t, start, ttl, 3), last, k, t, ExpiryAfter(start, ttl, 3), 3);
  }

  /** `Worker._lease_heartbeat`, left to run undisturbed: it stops after three renewals or the first refusal. */
  method LeaseHeartbeat(store: MetadataStore, key: Key, token: Token, start: int, ttl: nat) returns (renewals: nat)
    modifies store`rows
    ensures var before := old(store.rows);
      if key in before && Holds(before[key], token) && before[key].renewals <= MAX_RENEWALS
      then && renewals == MAX_RENEWALS - before[key].renewals
           && store.rows == before[key := before[key].(
                renewals := MAX_RENEWALS,
                expiresAt := if renewals == 0 then before[key].expiresAt else Some(ExpiryAfter(start, ttl, renewals)))]
      else renewals == 0 && store.rows == before
  {
    renewals := 0;
    ghost var before := store.rows;
    ghost var open := key in before && Holds(before[key], token) && before[key].renewals <= MAX_RENEWALS;
    while renewals < 3
      invariant renewals <= 3
      invariant !open ==> renewals == 0 && store.rows == before
      invariant open ==> before[key].renewals + renewals <= MAX_RENEWALS
      invariant open ==> store.rows == before[key := before[key].(
                  renewals := before[key].renewals + renewals,
                  expiresAt := if renewals == 0 then before[key].expiresAt
                               else Some(ExpiryAfter(start, ttl, renewals)))]
    {
      var renewed := store.RenewLease(key, token, ttl, WakeUp(start, ttl, renewals + 1));
      if !renewed {
        break;
      }
      renewals := renewals + 1;
    }
  }
}

/**
 What every sequence of store statements guarantees, whoever issues them and in whatever order: several
 workers, late writes by workers whose lease lapsed, sweeps, and acquisitions cut between their SELECT and
 their UPDATEs are all just sequences of statements.  The facts below read the sequence only, never a counter
 kept by the program.
 */
module LeaseHistory {
  import opened Wrappers
  import opened Frontier

  /** The table after running `ops` on an empty one. */
  ghost function Replay(ops: seq<Op>): Store {
    if ops == [] then map[] else Apply(Replay(ops[..|ops| - 1]), ops[|ops| - 1])
  }

  ghost function Before(ops: seq<Op>, i: nat): Store
    requires i <= |ops|
  {
    Replay(ops[..i])
  }

  /** Statement `i` of the run changes the row of `k`. */
  ghost predicate Hits(ops: seq<Op>, i: nat, k: Key)
    requires i < |ops|
  {
    k in Before(ops, i) && Where(ops[i], k, Before(ops, i)[k])
  }

  ghost predicate GrantsLease(ops: seq<Op>, i: nat, k: Key, t: Token)
    requires i < |ops|
  {
    ops[i].Grant? && ops[i].token == t && Hits(ops, i, k)
  }

  /** Statement `i` ends whatever lease `k` had: a new grant, an expiry or a commit. */
  ghost predicate EndsLease(ops: seq<Op>, i: nat, k: Key)
    requires i < |ops|
  {
    (ops[i].Grant? || ops[i].Expire? || IsCommit(ops[i])) && Hits(ops, i, k)
  }

  /** Statement `i` ends the lease of `k` without a commit: it expired, or a later grant took it over. */
  ghost predicate LapsesLease(ops: seq<Op>, i: nat, k: Key)
    requires i < |ops|
  {
    && Hits(ops, i, k)
    && (ops[i].Expire? || (ops[i].Grant? && Before(ops, i)[k].state.InProgress?))
  }

  /** Read off the run alone: `t` was granted for `k`, and nothing has ended a lease of `k` since. */
  ghost predicate LeaseOpen(ops: seq<Op>, k: Key, t: Token) {
    exists g: nat :: g < |ops| && GrantsLease(ops, g, k, t) && forall j: nat | g < j < |ops| :: !EndsLease(ops, j, k)
  }

  /** Tokens come from `uuid4`: no two attempted grants carry the same one. */
  ghost predicate FreshTokens(ops: seq<Op>) {
    forall i, j | 0 <= i < j < |ops| && ops[i].Grant? && ops[j].Grant? :: ops[i].token != ops[j].token
  }

  // ---- Prefixes ----

  lemma PrefixAgrees(ops: seq<Op>, n: nat, i: nat, k: Key)
    requires i < n <= |ops|
    ensures Before(ops[..n], i) == Before(ops, i)
    ensures Hits(ops[..n], i, k) == Hits(ops, i, k)
  {
    assert ops[..n][..i] == ops[..i];
  }

  lemma StepAfter(ops: seq<Op>, i: nat)
    requires i < |ops|
    ensures Before(ops, i + 1) == Apply(Before(ops, i), ops[i])
  {
    assert ops[..i + 1][..i] == ops[..i];
  }

  // ---- Fencing ----

  /** What one statement does to the question "does the row of `k` hold `t`?". */
  lemma HeldStep(s: Store, op: Op, k: Key, t: Token)
    ensures (k in Apply(s, op) && Holds(Apply(s, op)[k], t))
         <==> (k in s && ((op.Grant? && op.token == t && Where(op, k, s[k]))
                         || (Holds(s[k], t) && !((op.Grant? || op.Expire? || IsCommit(op)) && Where(op, k, s[k])))))
  {
  }

  lemma PrefixAgreesOnLeases(ops: seq<Op>, n: nat, i: nat, k: Key, t: Token)
    requires i < n <= |ops|
    ensures EndsLease(ops[..n], i, k) == EndsLease(ops, i, k)
    ensures GrantsLease(ops[..n], i, k, t) == GrantsLease(ops, i, k, t)
  {
    PrefixAgrees(ops, n, i, k);
  }

  lemma OpenExtends(ops: seq<Op>, k: Key, t: Token)
    requires ops != [] && LeaseOpen(ops[..|ops| - 1], k, t) && !EndsLease(ops, |ops| - 1, k)
    ensures LeaseOpen(ops, k, t)
  {
    var n := |ops| - 1;
    var g: nat :| g < n && GrantsLease(ops[..n], g, k, t) && forall j: nat | g < j < n :: !EndsLease(ops[..n], j, k);
    PrefixAgreesOnLeases(ops, n, g, k, t);
    forall j: nat | g < j < |ops|
      ensures !EndsLease(ops, j, k)
    {
      if j < n {
        PrefixAgreesOnLeases(ops, n, j, k, t);
      }
    }
  }

  lemma OpenShrinks(ops: seq<Op>, k: Key, t: Token)
    requires ops != [] && LeaseOpen(ops, k, t) && !GrantsLease(ops, |ops| - 1, k, t)
    ensures LeaseOpen(ops[..|ops| - 1], k, t) && !EndsLease(ops, |ops| - 1, k)
  {
    var n := |ops| - 1;
    var g: nat :| g < |ops| && GrantsLease(ops, g, k, t) && forall j: nat | g < j < |ops| :: !EndsLease(ops, j, k);
    PrefixAgreesOnLeases(ops, n, g, k, t);
    forall j: nat | g < j < n
      ensures !EndsLease(ops[..n], j, k)
    {
      PrefixAgreesOnLeases(ops, n, j, k, t);
    }
  }

  /** A row holds `t` exactly when the run says the lease of `t` is open. */
  lemma {:induction false} HeldIffOpen(ops: seq<Op>, k: Key, t: Token)
    ensures (k in Replay(ops) && Holds(Replay(ops)[k], t)) <==> LeaseOpen(ops, k, t)
    decreases |ops|
  {
    if ops != [] {
      var n := |ops| - 1;
      HeldIffOpen(ops[..n], k, t);
      HeldStep(Replay(ops[..n]), ops[n], k, t);
      assert GrantsLease(ops, n, k, t) ==> LeaseOpen(ops, k, t);
      if LeaseOpen(ops[..n], k, t) && !EndsLease(ops, n, k) {
        OpenExtends(ops, k, t);
      }
      if LeaseOpen(ops, k, t) && !GrantsLease(ops, n, k, t) {
        OpenShrinks(ops, k, t);
      }
    }
  }

  /**
   A commit takes effect exactly when its token is the newest one granted for that URL and that lease is
   still open, however the statements of other workers fell in between.
   */
  lemma CommitIffLeaseOpen(ops: seq<Op>, i: nat)
    requires i < |ops| && IsCommit(ops[i])
    ensures Hits(ops, i, ops[i].key) <==> LeaseOpen(ops[..i], ops[i].key, ops[i].token)
  {
    HeldIffOpen(ops[..i], ops[i].key, ops[i].token);
  }

  /** A renewal takes effect exactly when the lease is open and has been renewed fewer than three times. */
  lemma RenewalIffLeaseOpen(ops: seq<Op>, i: nat)
    requires i < |ops| && ops[i].Renew?
    ensures Hits(ops, i, ops[i].key)
         <==> (&& LeaseOpen(ops[..i], ops[i].key, ops[i].token)
               && ops[i].key in Before(ops, i) && Before(ops, i)[ops[i].key].renewals < MAX_RENEWALS)
  {
    HeldIffOpen(ops[..i], ops[i].key, ops[i].token);
  }

  /** No token commits twice, not even for two different URLs. */
  lemma TokenCommitsOnce(ops: seq<Op>, i: nat, j: nat)
    requires FreshTokens(ops) && i < j < |ops|
    requires IsCommit(ops[i]) && IsCommit(ops[j]) && ops[i].token == ops[j].token
    requires Hits(ops, i, ops[i].key)
    ensures !Hits(ops, j, ops[j].key)
  {
    var t := ops[i].token;
    if Hits(ops, j, ops[j].key) {
      var (gi, gj) := (GrantBehind(ops, i), GrantBehind(ops, j));
      assert gi == gj;
      assert EndsLease(ops, i, ops[j].key);
      assert false;
    }
  }

  /** The grant whose lease the commit at `i` closes. */
  ghost function GrantBehind(ops: seq<Op>, i: nat): (g: nat)
    requires i < |ops| && IsCommit(ops[i]) && Hits(ops, i, ops[i].key)
    ensures g < i && GrantsLease(ops, g, ops[i].key, ops[i].token)
    ensures forall j: nat | g < j < i :: !EndsLease(ops, j, ops[i].key)
  {
    CommitIffLeaseOpen(ops, i);
    var k, t := ops[i].key, ops[i].token;
    var g: nat :| g < i && GrantsLease(ops[..i], g, k, t) && forall j: nat | g < j < i :: !EndsLease(ops[..i], j, k);
    assert forall j: nat | j < i :: Hits(ops[..i], j, k) == Hits(ops, j, k) by {
      forall j: nat | j < i ensures Hits(ops[..i], j, k) == Hits(ops, j, k) { PrefixAgrees(ops, i, j, k); }
    }
    assert forall j: nat | g < j < i :: !EndsLease(ops, j, k) by {
      forall j: nat | g < j < i ensures !EndsLease(ops, j, k) { assert !EndsLease(ops[..i], j, k); }
    }
    g
  }

  /** Once terminal, a row is never written again: the whole row, not only its state, is what it was. */
  lemma {:induction false} TerminalNeverLeft(ops: seq<Op>, i: nat, j: nat, k: Key)
    requires i <= j <= |ops|
    requires k in Before(ops, i) && Terminal(Before(ops, i)[k].state)
    ensures k in Before(ops, j) && Before(ops, j)[k] == Before(ops, i)[k]
    decreases j - i
  {
    if i < j {
      TerminalNeverLeft(ops, i, j - 1, k);
      StepAfter(ops, j - 1);
      TerminalUntouched(ops[j - 1], k, Before(ops, j - 1)[k]);
    }
  }

  /** Statement `i` moves `k` into a terminal state, with a token or, from Retry, without one. */
  ghost predicate Finishes(ops: seq<Op>, i: nat, k: Key)
    requires i < |ops|
  {
    (ops[i].Complete? || ops[i].MarkTerminal? || ops[i].MarkFailed? || ops[i].FailRetry?) && Hits(ops, i, k)
  }

  lemma FinishIsTerminal(op: Op, k: Key, r: Row)
    requires (op.Complete? || op.MarkTerminal? || op.MarkFailed? || op.FailRetry?) && Where(op, k, r)
    ensures !Terminal(r.state) && Terminal(Touch(op, k, r).state)
  {
  }

  /** Each URL is finished at most once. */
  lemma FinishedOnce(ops: seq<Op>, i: nat, j: nat, k: Key)
    requires i < j < |ops| && Finishes(ops, i, k)
    ensures !Finishes(ops, j, k)
  {
    StepAfter(ops, i);
    FinishIsTerminal(ops[i], k, Before(ops, i)[k]);
    TerminalNeverLeft(ops, i + 1, j, k);
    if Finishes(ops, j, k) {
      FinishIsTerminal(ops[j], k, Before(ops, j)[k]);
    }
  }

  /** Rows are never deleted, and the columns fixed at discovery never change. */
  lemma {:induction false} RowsPersist(ops: seq<Op>, i: nat, j: nat, k: Key)
    requires i <= j <= |ops| && k in Before(ops, i)
    ensures k in Before(ops, j) && SameIdentity(Before(ops, i)[k], Before(ops, j)[k])
    decreases j - i
  {
    if i < j {
      RowsPersist(ops, i, j - 1, k);
      StepAfter(ops, j - 1);
      TouchKeepsIdentity(ops[j - 1], k, Before(ops, j - 1)[k]);
    }
  }

  // ---- Retries are not handed out early ----

  /** A retry is handed out only once the instant written for it has come. */
  lemma RetryNotEarly(ops: seq<Op>, i: nat, k: Key)
    requires i < |ops| && ops[i].Grant? && Hits(ops, i, k) && Before(ops, i)[k].state.Retry?
    ensures Before(ops, i)[k].nextRetryAt.Some? && Before(ops, i)[k].nextRetryAt.value <= ops[i].now
  {
  }

  /** Batches read a clock that does not run backwards. */
  ghost predicate GrantsOrdered(ops: seq<Op>) {
    forall i, j | 0 <= i < j < |ops| && ops[i].Grant? && ops[j].Grant? :: ops[i].now <= ops[j].now
  }

  /** A URL waiting for `t` goes on waiting until a grant that reads `t` or later, or for good. */
  ghost predicate WaitsFor(s: Store, k: Key, t: Time) {
    k in s && ((s[k].state.Retry? && s[k].nextRetryAt == Some(t)) || Terminal(s[k].state))
  }

  lemma WaitStep(s: Store, op: Op, k: Key, t: Time)
    requires WaitsFor(s, k, t)
    ensures WaitsFor(Apply(s, op), k, t) || (op.Grant? && Where(op, k, s[k]) && op.now >= t)
  {
  }

  ghost predicate GrantReads(ops: seq<Op>, i: nat, j: nat, t: Time)
    requires i <= j <= |ops|
  {
    exists g :: i <= g < j && ops[g].Grant? && ops[g].now >= t
  }

  lemma WaitsOn(ops: seq<Op>, i: nat, k: Key, t: Time)
    requires i < |ops| && WaitsFor(Before(ops, i), k, t)
    ensures WaitsFor(Before(ops, i + 1), k, t) || (ops[i].Grant? && ops[i].now >= t)
  {
    StepAfter(ops, i);
    WaitStep(Before(ops, i), ops[i], k, t);
  }

  lemma {:induction false} WaitsUntilGranted(ops: seq<Op>, i: nat, j: nat, k: Key, t: Time)
    requires i <= j <= |ops| && WaitsFor(Before(ops, i), k, t)
    ensures WaitsFor(Before(ops, j), k, t) || GrantReads(ops, i, j, t)
    decreases j - i
  {
    if i < j {
      WaitsUntilGranted(ops, i, j - 1, k, t);
      if WaitsFor(Before(ops, j - 1), k, t) {
        WaitsOn(ops, j - 1, k, t);
      }
    }
  }

  /** While a URL waits for `t`, no grant of it to come, the next or any later one, has an earlier reading. */
  lemma NoGrantBefore(ops: seq<Op>, i: nat, j: nat, k: Key, t: Time)
    requires i <= j < |ops| && k in Before(ops, i)
    requires Before(ops, i)[k].state.Retry? && Before(ops, i)[k].nextRetryAt == Some(t)
    requires ops[j].Grant? && Hits(ops, j, k) && GrantsOrdered(ops)
    ensures ops[j].now >= t
  {
    WaitsUntilGranted(ops, i, j, k, t);
    if WaitsFor(Before(ops, j), k, t) {
      MatchedStates(ops[j], k, Before(ops, j)[k]);
      RetryNotEarly(ops, j, k);
    }
  }

  // ---- Conservation ----

  datatype Tally = Tally(grants: nat, retries: nat, lapses: nat, verdicts: nat)

  ghost function Plus(h: Tally, s: Store, op: Op, k: Key): Tally {
    if k !in s || !Where(op, k, s[k]) then h else
    Tally(h.grants + if op.Grant? then 1 else 0,
          h.retries + if op.MarkRetry? then 1 else 0,
          h.lapses + if op.Expire? || (op.Grant? && s[k].state.InProgress?) then 1 else 0,
          h.verdicts + if op.Complete? || op.MarkTerminal? || op.MarkFailed? then 1 else 0)
  }

  /** How often the run granted, retried, lapsed and finally decided `k`. */
  ghost function TallyOf(ops: seq<Op>, k: Key): Tally {
    if ops == [] then Tally(0, 0, 0, 0) else
    var n := |ops| - 1;
    Plus(TallyOf(ops[..n], k), Before(ops, n), ops[n], k)
  }

  ghost function Leased(s: Store, k: Key): nat {
    if k in s && s[k].state.InProgress? then 1 else 0
  }

  ghost predicate Balanced(h: Tally, s: Store, k: Key) {
    && h.grants == h.retries + h.lapses + h.verdicts + Leased(s, k)
    && h.verdicts + Leased(s, k) <= 1
    && (h.verdicts == 1 ==> k in s && Terminal(s[k].state))
    && (k !in s ==> h == Tally(0, 0, 0, 0))
  }

  /** Where a statement that matches leads from. */
  lemma MatchedStates(op: Op, k: Key, r: Row)
    requires Where(op, k, r)
    ensures !Terminal(r.state)
    ensures IsCommit(op) || op.Expire? || op.Renew? ==> r.state.InProgress?
    ensures op.FailRetry? ==> r.state.Retry?
  {
  }

  /** What the row becomes. */
  lemma TouchedState(op: Op, k: Key, r: Row)
    requires Where(op, k, r)
    ensures Touch(op, k, r).state.InProgress? <==> op.Grant? || op.Renew?
    ensures op.Complete? || op.MarkTerminal? || op.MarkFailed? ==> Terminal(Touch(op, k, r).state)
  {
  }

  lemma BalancedStep(h: Tally, s: Store, op: Op, k: Key)
    requires Balanced(h, s, k)
    ensures Balanced(Plus(h, s, op, k), Apply(s, op), k)
  {
    if k in s && Where(op, k, s[k]) {
      MatchedStates(op, k, s[k]);
      TouchedState(op, k, s[k]);
    }
  }

  /** Every grant is answered by exactly one retry, lapse or verdict, or is the lease now open. */
  lemma {:induction false} LeasesConserved(ops: seq<Op>, k: Key)
    ensures var h := TallyOf(ops, k); h.grants == h.retries + h.lapses + h.verdicts + Leased(Replay(ops), k)
    ensures TallyOf(ops, k).verdicts + Leased(Replay(ops), k) <= 1
    ensures TallyOf(ops, k).verdicts == 1 ==> k in Replay(ops) && Terminal(Replay(ops)[k].state)
    ensures k !in Replay(ops) ==> TallyOf(ops, k) == Tally(0, 0, 0, 0)
    decreases |ops|
  {
    if ops != [] {
      var n := |ops| - 1;
      LeasesConserved(ops[..n], k);
      BalancedStep(TallyOf(ops[..n], k), Replay(ops[..n]), ops[n], k);
    }
  }

  /** A URL is handed out again exactly when an earlier lease of it was retried or lapsed, at the latest now. */
  lemma HandedOutAgainIff(ops: seq<Op>, i: nat, k: Key)
    requires i < |ops| && ops[i].Grant? && Hits(ops, i, k)
    ensures var h := TallyOf(ops[..i], k); h.grants > 0 <==> h.retries + h.lapses > 0 || LapsesLease(ops, i, k)
  {
    LeasesConserved(ops[..i], k);
    MatchedStates(ops[i], k, Before(ops, i)[k]);
  }

  // ---- The bound on the whole crawl ----

  ghost function Sum(f: Key -> nat, u: set<Key>): nat {
    if u == {} then 0 else var k :| k in u; f(k) + Sum(f, u - {k})
  }

  lemma {:induction false} SumPick(f: Key -> nat, u: set<Key>, k: Key)
    requires k in u
    ensures Sum(f, u) == f(k) + Sum(f, u - {k})
    decreases |u|
  {
    var k' :| k' in u && Sum(f, u) == f(k') + Sum(f, u - {k'});
    if k' != k {
      SumPick(f, u - {k'}, k);
      SumPick(f, u - {k}, k');
      assert u - {k'} - {k} == u - {k} - {k'};
    }
  }

  /** Two counts that differ by one exactly on `d` differ in sum by the size of `d`. */
  lemma {:induction false} SumShift(f: Key -> nat, f': Key -> nat, u: set<Key>, d: set<Key>)
    requires d <= u
    requires forall k | k in u :: f'(k) == f(k) + if k in d then 1 else 0
    ensures Sum(f', u) == Sum(f, u) + |d|
    decreases |u|
  {
    if u != {} {
      var k :| k in u;
      SumPick(f, u, k);
      SumPick(f', u, k);
      SumShift(f, f', u - {k}, d - {k});
    }
  }

  lemma OneMore(n: nat, c: nat)
    ensures (n + 1) * c == n * c + c
  {
  }

  lemma {:induction false} SumAtMost(f: Key -> nat, g: Key -> nat, c: nat, u: set<Key>)
    requires forall k | k in u :: f(k) <= c + g(k)
    ensures Sum(f, u) <= |u| * c + Sum(g, u)
    decreases |u|
  {
    if u != {} {
      var k :| k in u;
      SumPick(f, u, k);
      SumPick(g, u, k);
      SumAtMost(f, g, c, u - {k});
      assert |u| == |u - {k}| + 1;
      OneMore(|u - {k}|, c);
    }
  }

  /** All grants of the run. */
  ghost function TotalGrants(ops: seq<Op>): nat {
    if ops == [] then 0 else
    var n := |ops| - 1;
    TotalGrants(ops[..n]) + if ops[n].Grant? && Hits(ops, n, ops[n].key) then 1 else 0
  }

  /** All lapses of the run; one sweep may end many leases. */
  ghost function TotalLapses(ops: seq<Op>): nat {
    if ops == [] then 0 else
    var n := |ops| - 1;
    TotalLapses(ops[..n]) + |set k | k in Before(ops, n) && LapsesLease(ops, n, k)|
  }

  ghost function GrantCounts(ops: seq<Op>): Key -> nat {
    k => TallyOf(ops, k).grants
  }

  ghost function LapseCounts(ops: seq<Op>): Key -> nat {
    k => TallyOf(ops, k).lapses
  }

  lemma {:induction false} GrantsAreSum(ops: seq<Op>, u: set<Key>)
    requires Replay(ops).Keys <= u
    ensures TotalGrants(ops) == Sum(GrantCounts(ops), u)
    decreases |ops|
  {
    if ops == [] {
      ZeroSum(GrantCounts(ops), u);
    } else {
      var n := |ops| - 1;
      GrantsAreSum(ops[..n], u);
      var granted := if ops[n].Grant? && Hits(ops, n, ops[n].key) then {ops[n].key} else {};
      SumShift(GrantCounts(ops[..n]), GrantCounts(ops), u, granted);
    }
  }

  lemma {:induction false} LapsesAreSum(ops: seq<Op>, u: set<Key>)
    requires Replay(ops).Keys <= u
    ensures TotalLapses(ops) == Sum(LapseCounts(ops), u)
    decreases |ops|
  {
    if ops == [] {
      ZeroSum(LapseCounts(ops), u);
    } else {
      var n := |ops| - 1;
      LapsesAreSum(ops[..n], u);
      var lapsed := set k | k in Before(ops, n) && LapsesLease(ops, n, k);
      assert lapsed <= u;
      forall k | k in u
        ensures LapseCounts(ops)(k) == LapseCounts(ops[..n])(k) + if k in lapsed then 1 else 0
      {
        assert TallyOf(ops, k) == Plus(TallyOf(ops[..n], k), Before(ops, n), ops[n], k);
      }
      SumShift(LapseCounts(ops[..n]), LapseCounts(ops), u, lapsed);
    }
  }

  lemma {:induction false} ZeroSum(f: Key -> nat, u: set<Key>)
    requires forall k | k in u :: f(k) == 0
    ensures Sum(f, u) == 0
    decreases |u|
  {
    if u != {} {
      var k :| k in u;
      SumPick(f, u, k);
      ZeroSum(f, u - {k});
    }
  }

  /**
   A crawl whose URLs all lie in `u`, none retried more than `maxRetries` times, hands out at most
   |u| * (maxRetries + 1) leases plus one for every lapse.
   */
  lemma GrantsBounded(ops: seq<Op>, u: set<Key>, maxRetries: nat)
    requires Replay(ops).Keys <= u
    requires forall k | k in u :: TallyOf(ops, k).retries <= maxRetries
    ensures TotalGrants(ops) <= |u| * (maxRetries + 1) + TotalLapses(ops)
  {
    GrantsAreSum(ops, u);
    LapsesAreSum(ops, u);
    forall k | k in u
      ensures TallyOf(ops, k).grants <= maxRetries + 1 + TallyOf(ops, k).lapses
    {
      LeasesConserved(ops, k);
    }
    SumAtMost(GrantCounts(ops), LapseCounts(ops), maxRetries + 1, u);
  }
}

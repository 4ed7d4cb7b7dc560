/** The candidate query: which rows a batch picks, in which order, and how many. */
module Selection {
  import opened Wrappers
  import opened Frontier

  function Tier(r: Row): nat {
    match r.state
    case Retry => 1
    case InProgress => 2
    case _ => 3
  }

  /** ORDER BY priority ASC, crawl_depth ASC. */
  predicate RanksFirst(a: Row, b: Row) {
    Tier(a) < Tier(b) || (Tier(a) == Tier(b) && a.depth <= b.depth)
  }

  /** The order on rows up for grabs: due retries, then expired leases, then pending rows, each kind by depth. */
  lemma RankMeans(a: Row, b: Row, now: Time)
    requires Eligible(a, now) && Eligible(b, now)
    ensures RanksFirst(a, b) <==>
            if a.state == b.state then a.depth <= b.depth
            else a.state.Retry? || (a.state.InProgress? && b.state.Pending?)
  {
  }

  predicate Distinct<T(==)>(xs: seq<T>) {
    forall i, j | 0 <= i < j < |xs| :: xs[i] != xs[j]
  }

  /** `keys` is an answer to the query with LIMIT `n`: ties within a rank may come in any order. */
  ghost predicate IsSelection(s: Store, now: Time, n: nat, keys: seq<Key>) {
    && |keys| <= n
    && Distinct(keys)
    && (forall i | 0 <= i < |keys| :: keys[i] in s && Eligible(s[keys[i]], now))
    && (forall i, j | 0 <= i < j < |keys| :: RanksFirst(s[keys[i]], s[keys[j]]))
    && (forall k | k in s && Eligible(s[k], now) && k !in keys ::
          |keys| == n && forall i | 0 <= i < |keys| :: RanksFirst(s[keys[i]], s[k]))
  }

  function EligibleKeys(s: Store, now: Time): set<Key> {
    set k | k in s && Eligible(s[k], now)
  }

  lemma {:induction false} DistinctSize<T>(xs: seq<T>)
    requires Distinct(xs)
    ensures |set x | x in xs| == |xs|
  {
    if xs != [] {
      var n := |xs| - 1;
      DistinctSize(xs[..n]);
      assert (set x | x in xs) == (set x | x in xs[..n]) + {xs[n]};
    }
  }

  /** What the candidates are, in the order they come, and which rows can be left out. */
  lemma SelectionMeans(s: Store, now: Time, n: nat, keys: seq<Key>, i: nat, k: Key)
    requires IsSelection(s, now, n, keys) && i < |keys| && k in s
    requires k in keys[i + 1..] || (k !in keys && Eligible(s[k], now))
    ensures keys[i] in s
    ensures var r := s[keys[i]];
      || r.state.Pending?
      || (r.state.Retry? && r.nextRetryAt.Some? && r.nextRetryAt.value <= now)
      || (r.state.InProgress? && r.expiresAt.Some? && r.expiresAt.value <= now)
    ensures var (r, r') := (s[keys[i]], s[k]);
      if r.state == r'.state then r.depth <= r'.depth
      else r.state.Retry? || (r.state.InProgress? && r'.state.Pending?)
  {
    if k in keys[i + 1..] {
      var j :| 0 <= j < |keys| - i - 1 && keys[i + 1..][j] == k;
      assert k == keys[i + 1 + j];
    }
    RankMeans(s[keys[i]], s[k], now);
  }

  /** The same of all candidates at once. */
  lemma SelectedRows(s: Store, now: Time, n: nat, keys: seq<Key>)
    requires IsSelection(s, now, n, keys)
    ensures forall k | k in keys :: k in s
              && (|| s[k].state.Pending?
                  || (s[k].state.Retry? && s[k].nextRetryAt.Some? && s[k].nextRetryAt.value <= now)
                  || (s[k].state.InProgress? && s[k].expiresAt.Some? && s[k].expiresAt.value <= now))
    ensures forall i, j | 0 <= i < j < |keys| ::
              if s[keys[i]].state == s[keys[j]].state then s[keys[i]].depth <= s[keys[j]].depth
              else s[keys[i]].state.Retry? || (s[keys[i]].state.InProgress? && s[keys[j]].state.Pending?)
  {
    forall i, j | 0 <= i < j < |keys|
      ensures RanksFirst(s[keys[i]], s[keys[j]]) && Eligible(s[keys[i]], now) && Eligible(s[keys[j]], now)
    {
    }
  }

  /** The batch is as large as it can be. */
  lemma SelectionSize(s: Store, now: Time, n: nat, keys: seq<Key>)
    requires IsSelection(s, now, n, keys)
    ensures |keys| == if |EligibleKeys(s, now)| < n then |EligibleKeys(s, now)| else n
  {
    DistinctSize(keys);
    var picked := set k | k in keys;
    assert picked <= EligibleKeys(s, now);
    SubsetSize(picked, EligibleKeys(s, now));
    if |keys| < n {
      assert EligibleKeys(s, now) <= picked;
      assert picked == EligibleKeys(s, now);
    }
  }

  lemma {:induction false} SubsetSize<T>(a: set<T>, b: set<T>)
    requires a <= b
    ensures |a| <= |b|
    decreases |a|
  {
    if a != {} {
      var x :| x in a;
      SubsetSize(a - {x}, b - {x});
    }
  }

  /** With room for one row and one to pick, something is picked. */
  lemma SelectionNonempty(s: Store, now: Time, n: nat, keys: seq<Key>, k: Key)
    requires IsSelection(s, now, n, keys) && n > 0
    requires k in s && Eligible(s[k], now)
    ensures keys != []
  {
  }

  /** Any two answers to the query rank alike position by position: only ties are left open. */
  lemma SelectionsAgree(s: Store, now: Time, n: nat, a: seq<Key>, b: seq<Key>, i: nat)
    requires IsSelection(s, now, n, a) && IsSelection(s, now, n, b)
    requires i < |a|
    ensures |a| == |b|
    ensures RanksFirst(s[a[i]], s[b[i]]) && RanksFirst(s[b[i]], s[a[i]])
  {
    SelectionSize(s, now, n, a);
    SelectionSize(s, now, n, b);
    RankAtMost(s, now, n, a, b, i);
    RankAtMost(s, now, n, b, a, i);
  }

  /** Of i + 1 different things, one is not among i given ones. */
  lemma NewcomerAmong<T>(xs: seq<T>, ys: seq<T>, i: nat) returns (j: nat)
    requires Distinct(ys) && i <= |xs| && i < |ys|
    ensures j <= i && ys[j] !in xs[..i]
  {
    if forall j | 0 <= j <= i :: ys[j] in xs[..i] {
      var front, back := ys[..i + 1], xs[..i];
      var offered := set y | y in front;
      var taken := set x | x in back;
      DistinctSize(front);
      SubsetSize(offered, taken);
      SetOfSize(back);
      assert false;
    }
    j :| 0 <= j <= i && ys[j] !in xs[..i];
  }

  lemma {:induction false} SetOfSize<T>(xs: seq<T>)
    ensures |set x | x in xs| <= |xs|
  {
    if xs != [] {
      var n := |xs| - 1;
      SetOfSize(xs[..n]);
      assert (set x | x in xs) == (set x | x in xs[..n]) + {xs[n]};
    }
  }

  lemma IndexFrom<T>(xs: seq<T>, i: nat, x: T) returns (m: nat)
    requires i <= |xs| && x in xs && x !in xs[..i]
    ensures i <= m < |xs| && xs[m] == x
  {
    assert xs == xs[..i] + xs[i..];
    var d :| 0 <= d < |xs[i..]| && xs[i..][d] == x;
    m := i + d;
  }

  /** What is not among the first `i` answers ranks no better than answer `i`. */
  lemma RanksBehind(s: Store, now: Time, n: nat, a: seq<Key>, i: nat, k: Key)
    requires IsSelection(s, now, n, a) && i < |a|
    requires k in s && Eligible(s[k], now) && k !in a[..i]
    ensures RanksFirst(s[a[i]], s[k])
  {
    if k in a {
      var m := IndexFrom(a, i, k);
    }
  }

  lemma RankAtMost(s: Store, now: Time, n: nat, a: seq<Key>, b: seq<Key>, i: nat)
    requires IsSelection(s, now, n, a) && IsSelection(s, now, n, b)
    requires i < |a| == |b|
    ensures RanksFirst(s[a[i]], s[b[i]])
  {
    var j := NewcomerAmong(a, b, i);
    RanksBehind(s, now, n, a, i, b[j]);
    assert j < i ==> RanksFirst(s[b[j]], s[b[i]]);
  }

  /** The loop of `acquire_lease_batch` over its first `n` candidates, with no other statement in between. */
  function GrantFirst(s: Store, keys: seq<Key>, n: nat, firstToken: Token, now: Time, expiry: Time): Store
    requires n <= |keys|
  {
    if n == 0 then s
    else Apply(GrantFirst(s, keys, n - 1, firstToken, now, expiry), Grant(keys[n - 1], firstToken + n - 1, now, expiry))
  }

  /** The loop leaves every row it was not given as it found it. */
  lemma {:induction false} GrantFirstSkips(s: Store, keys: seq<Key>, n: nat, firstToken: Token, now: Time,
                                           expiry: Time, k: Key)
    requires n <= |keys| && k in s && k !in keys[..n]
    ensures k in GrantFirst(s, keys, n, firstToken, now, expiry)
    ensures GrantFirst(s, keys, n, firstToken, now, expiry)[k] == s[k]
  {
    if n > 0 {
      assert keys[..n] == keys[..n - 1] + [keys[n - 1]];
      GrantFirstSkips(s, keys, n - 1, firstToken, now, expiry, k);
    }
  }

  predicate AllEligible(s: Store, keys: seq<Key>, now: Time) {
    forall i | 0 <= i < |keys| :: keys[i] in s && Eligible(s[keys[i]], now)
  }

  /** When the loop reaches a candidate, its row is still the one the query saw, so the update succeeds. */
  lemma UndisturbedRow(s: Store, keys: seq<Key>, i: nat, firstToken: Token, now: Time, expiry: Time)
    requires Distinct(keys) && AllEligible(s, keys, now) && i < |keys|
    ensures Effective(GrantFirst(s, keys, i, firstToken, now, expiry), Grant(keys[i], firstToken + i, now, expiry))
  {
    assert keys[i] !in keys[..i];
    GrantFirstSkips(s, keys, i, firstToken, now, expiry, keys[i]);
  }

  /** Undisturbed, every update of the loop succeeds, each under its own token. */
  lemma {:induction false} GrantFirstLeases(s: Store, keys: seq<Key>, n: nat, firstToken: Token, now: Time,
                                            expiry: Time, i: nat)
    requires i < n <= |keys| && Distinct(keys)
    requires keys[i] in s && Eligible(s[keys[i]], now)
    ensures keys[i] in GrantFirst(s, keys, n, firstToken, now, expiry)
    ensures GrantFirst(s, keys, n, firstToken, now, expiry)[keys[i]]
         == s[keys[i]].(state := InProgress, token := Some(firstToken + i), expiresAt := Some(expiry), renewals := 0)
  {
    if i == n - 1 {
      assert keys[i] !in keys[..i];
      GrantFirstSkips(s, keys, i, firstToken, now, expiry, keys[i]);
    } else {
      GrantFirstLeases(s, keys, n - 1, firstToken, now, expiry, i);
    }
  }
}

/** Strings as the URL code sees them: sequences of octets, with the few string operations it uses. */
module Text {
  type Octet = c: char | c as int < 256

  type Text = seq<Octet>

  predicate IsDigit(c: char) {
    '0' <= c <= '9'
  }

  predicate IsLetter(c: char) {
    'a' <= c <= 'z' || 'A' <= c <= 'Z'
  }

  function LowerChar(c: Octet): Octet {
    if 'A' <= c <= 'Z' then (c as int + 32) as char else c
  }

  /** `str.lower` on ASCII. */
  function Lower(s: Text): (r: Text)
    ensures |r| == |s| && forall i {:trigger r[i]} | 0 <= i < |s| :: r[i] == LowerChar(s[i])
  {
    seq(|s|, i requires 0 <= i < |s| => LowerChar(s[i]))
  }

  /** Where `find` would stop when it starts at `i`. */
  function SpanFrom(s: Text, i: nat, stop: set<char>): (n: nat)
    requires i <= |s|
    ensures i <= n <= |s| && (forall j | i <= j < n :: s[j] !in stop) && (n < |s| ==> s[n] in stop)
    decreases |s| - i
  {
    if i == |s| || s[i] in stop then i else SpanFrom(s, i + 1, stop)
  }

  /** The length of the longest prefix free of `stop`. */
  function Span(s: Text, stop: set<char>): (n: nat)
    ensures n <= |s| && (forall i | 0 <= i < n :: s[i] !in stop) && (n < |s| ==> s[n] in stop)
  {
    SpanFrom(s, 0, stop)
  }

  predicate Free(s: Text, stop: set<char>) {
    forall i | 0 <= i < |s| :: s[i] !in stop
  }

  lemma FreeConcat(a: Text, b: Text, stop: set<char>)
    ensures Free(a + b, stop) <==> Free(a, stop) && Free(b, stop)
  {
    if Free(a + b, stop) {
      forall i | 0 <= i < |a| ensures a[i] !in stop { assert (a + b)[i] == a[i]; }
      forall i | 0 <= i < |b| ensures b[i] !in stop { assert (a + b)[|a| + i] == b[i]; }
    }
  }

  lemma FreeLess(s: Text, stop: set<char>, fewer: set<char>)
    requires Free(s, stop) && fewer <= stop
    ensures Free(s, fewer)
  {
  }

  /** A span is determined by where its first stop character is. */
  lemma SpanIs(s: Text, stop: set<char>, n: nat)
    requires n <= |s| && (forall i | 0 <= i < n :: s[i] !in stop) && (n < |s| ==> s[n] in stop)
    ensures Span(s, stop) == n
  {
  }

  lemma SpanConcat(a: Text, b: Text, stop: set<char>)
    requires Free(a, stop) && (b == [] || b[0] in stop)
    ensures Span(a + b, stop) == |a|
  {
    forall i | 0 <= i < |a|
      ensures (a + b)[i] !in stop
    {
      assert (a + b)[i] == a[i];
    }
    SpanIs(a + b, stop, |a|);
  }

  lemma LowerIdempotent(s: Text)
    ensures Lower(Lower(s)) == Lower(s)
  {
  }

  /** Lowering neither adds nor removes a character outside the alphabet. */
  lemma LowerFree(s: Text, stop: set<char>)
    requires Free(s, stop) && forall c | c in stop :: !IsLetter(c)
    ensures Free(Lower(s), stop)
  {
    forall i | 0 <= i < |s|
      ensures Lower(s)[i] !in stop
    {
      assert s[i] !in stop;
    }
  }

  lemma SameEnding(x: Text, y: Text, end: Text)
    ensures x + end == y + end <==> x == y
  {
    if x + end == y + end {
      assert |x| == |y|;
      assert (x + end)[..|x|] == x && (y + end)[..|y|] == y;
    }
  }

  lemma SameFront(front: Text, x: Text, y: Text)
    ensures front + x == front + y <==> x == y
  {
    if front + x == front + y {
      assert (front + x)[|front|..] == x && (front + y)[|front|..] == y;
    }
  }

  // ---- Decimal numbers ----

  function DigitOf(n: nat): Octet
    requires n < 10
  {
    (n + 48) as char
  }

  /** `str(n)`. */
  function PrintNat(n: nat): (s: Text)
    ensures s != [] && forall i | 0 <= i < |s| :: IsDigit(s[i])
  {
    if n < 10 then [DigitOf(n)] else PrintNat(n / 10) + [DigitOf(n % 10)]
  }

  /** `int(s)` on digits. */
  function ParseNat(s: Text): nat
    requires forall i | 0 <= i < |s| :: IsDigit(s[i])
  {
    if s == [] then 0 else
    assert IsDigit(s[|s| - 1]);
    10 * ParseNat(s[..|s| - 1]) + (s[|s| - 1] as int - 48)
  }

  lemma {:induction false} ParsePrint(n: nat)
    ensures ParseNat(PrintNat(n)) == n
  {
    if n >= 10 {
      ParsePrint(n / 10);
      assert PrintNat(n)[..|PrintNat(n)| - 1] == PrintNat(n / 10);
    }
  }
}

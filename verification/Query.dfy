/** The query step: parse into pairs, sort, print (`parse_qsl`, `list.sort` and `urlencode`). */
module Query {
  import opened Text
  import opened PercentEncoding

  datatype Pair = Pair(name: Text, value: Text)

  // ---- Parsing ----

  /** A character in front of the first field. */
  function Onto(c: Octet, fields: seq<Text>): (longer: seq<Text>)
    requires fields != []
    ensures longer != []
  {
    [[c] + fields[0]] + fields[1..]
  }

  /** `str.split` on one character. */
  function Split(s: Text, sep: Octet): (parts: seq<Text>)
    ensures parts != []
  {
    if s == [] then [[]]
    else if s[0] == sep then [[]] + Split(s[1..], sep)
    else Onto(s[0], Split(s[1..], sep))
  }

  function PlusToSpace(s: Text): Text {
    if s == [] then [] else [if s[0] == '+' then ' ' else s[0]] + PlusToSpace(s[1..])
  }

  /** `replace('+', ' ')` and `unquote`. */
  function UnquotePlus(s: Text): Text {
    PercentDecode(PlusToSpace(s))
  }

  /** A field of the query: the name up to the first equals sign, the value after it, both unquoted. */
  function ParseField(field: Text): Pair {
    var i := Span(field, {'='});
    Pair(UnquotePlus(field[..i]), UnquotePlus(if i < |field| then field[i + 1..] else []))
  }

  function ParseFields(fields: seq<Text>): seq<Pair> {
    if fields == [] then []
    else (if fields[0] == [] then [] else [ParseField(fields[0])]) + ParseFields(fields[1..])
  }

  /** `parse_qsl(query, keep_blank_values=True)`. */
  function ParseQuery(q: Text): seq<Pair> {
    ParseFields(Split(q, '&'))
  }

  // ---- Printing ----

  function QuoteChar(c: Octet): Text {
    if Unreserved(c) then [c] else if c == ' ' then ['+'] else ['%', HexDigit(c as int / 16), HexDigit(c as int % 16)]
  }

  /** `quote_plus`. */
  function QuotePlus(s: Text): Text {
    if s == [] then [] else QuoteChar(s[0]) + QuotePlus(s[1..])
  }

  function PrintPair(p: Pair): Text {
    QuotePlus(p.name) + ['='] + QuotePlus(p.value)
  }

  /** `urlencode`. */
  function PrintQuery(pairs: seq<Pair>): Text {
    if pairs == [] then []
    else if |pairs| == 1 then PrintPair(pairs[0])
    else PrintPair(pairs[0]) + ['&'] + PrintQuery(pairs[1..])
  }

  // ---- The round trip ----

  /** Quoting lets out unreserved characters, plus signs and triplets only. */
  lemma {:induction false} QuoteFree(s: Text, stop: set<char>)
    requires forall c | c in stop :: !Unreserved(c) && c != '+' && c != '%'
    ensures Free(QuotePlus(s), stop)
  {
    if s != [] {
      QuoteFree(s[1..], stop);
      QuoteCharFree(s[0], stop);
      FreeConcat(QuoteChar(s[0]), QuotePlus(s[1..]), stop);
    }
  }

  lemma QuoteCharFree(c: Octet, stop: set<char>)
    requires forall c | c in stop :: !Unreserved(c) && c != '+' && c != '%'
    ensures Free(QuoteChar(c), stop)
  {
    assert forall d: char | IsHex(d) :: Unreserved(d);
  }

  lemma PlusStep(c: Octet, t: Text)
    ensures PlusToSpace([c] + t) == [if c == '+' then ' ' else c] + PlusToSpace(t)
  {
    assert ([c] + t)[1..] == t;
  }

  lemma QuoteCharReads(c: Octet, t: Text)
    ensures PercentDecode(PlusToSpace(QuoteChar(c) + t)) == [c] + PercentDecode(PlusToSpace(t))
  {
    if Unreserved(c) || c == ' ' {
      assert (QuoteChar(c) + t)[1..] == t;
    } else {
      var x, y := HexDigit(c as int / 16), HexDigit(c as int % 16);
      var s := QuoteChar(c) + t;
      assert s == ['%'] + ([x] + ([y] + t));
      PlusStep(y, t);
      PlusStep(x, [y] + t);
      PlusStep('%', [x] + ([y] + t));
      assert PlusToSpace(s) == ['%', x, y] + PlusToSpace(t);
      assert PlusToSpace(s)[3..] == PlusToSpace(t);
    }
  }

  /** Unquoting undoes quoting. */
  lemma {:induction false} UnquoteQuote(s: Text)
    ensures UnquotePlus(QuotePlus(s)) == s
  {
    if s != [] {
      UnquoteQuote(s[1..]);
      QuoteCharReads(s[0], QuotePlus(s[1..]));
    }
  }

  lemma FieldReads(a: Text, b: Text)
    requires Free(a, {'='})
    ensures ParseField(a + ['='] + b) == Pair(UnquotePlus(a), UnquotePlus(b))
  {
    var field := a + ['='] + b;
    assert field == a + (['='] + b);
    SpanConcat(a, ['='] + b, {'='});
    assert field[..|a|] == a && field[|a| + 1..] == b;
  }

  lemma FieldRoundTrip(p: Pair)
    ensures PrintPair(p) != [] && ParseField(PrintPair(p)) == p
    ensures Free(PrintPair(p), {'&'})
  {
    var (a, b) := (QuotePlus(p.name), QuotePlus(p.value));
    QuoteFree(p.name, {'='});
    FieldReads(a, b);
    UnquoteQuote(p.name);
    UnquoteQuote(p.value);
    QuoteFree(p.name, {'&'});
    QuoteFree(p.value, {'&'});
    FreeConcat(a, ['='], {'&'});
    FreeConcat(a + ['='], b, {'&'});
  }

  lemma {:induction false} SplitFree(a: Text, sep: Octet)
    requires Free(a, {sep})
    ensures Split(a, sep) == [a]
  {
    if a != [] {
      assert a[0] != sep;
      assert forall i | 0 <= i < |a[1..]| :: a[1..][i] == a[i + 1];
      SplitFree(a[1..], sep);
      assert a == [a[0]] + a[1..];
    }
  }

  lemma SplitCons(c: Octet, s: Text, sep: Octet)
    ensures Split([c] + s, sep) == if c == sep then [[]] + Split(s, sep) else Onto(c, Split(s, sep))
  {
    assert ([c] + s)[1..] == s;
  }

  lemma OntoJoin(c: Octet, a: seq<Text>, b: seq<Text>)
    requires a != []
    ensures Onto(c, a + b) == Onto(c, a) + b
  {
    assert (a + b)[1..] == a[1..] + b;
  }

  lemma {:induction false} SplitJoin(q: Text, r: Text, sep: Octet)
    ensures Split(q + ([sep] + r), sep) == Split(q, sep) + Split(r, sep)
    decreases |q|
  {
    if q == [] {
      assert q + ([sep] + r) == [sep] + r;
      SplitCons(sep, r, sep);
    } else {
      var (c, p) := (q[0], q[1..]);
      SplitJoin(p, r, sep);
      var t := p + ([sep] + r);
      assert q == [c] + p && q + ([sep] + r) == [c] + t;
      SplitCons(c, p, sep);
      SplitCons(c, t, sep);
      if c == sep {
        assert [[]] + (Split(p, sep) + Split(r, sep)) == [[]] + Split(p, sep) + Split(r, sep);
      } else {
        OntoJoin(c, Split(p, sep), Split(r, sep));
      }
    }
  }

  lemma {:induction false} FieldsJoin(a: seq<Text>, b: seq<Text>)
    ensures ParseFields(a + b) == ParseFields(a) + ParseFields(b)
    decreases |a|
  {
    if a == [] {
      assert a + b == b;
    } else {
      assert (a + b)[1..] == a[1..] + b;
      FieldsJoin(a[1..], b);
    }
  }

  /** Two queries joined by an ampersand hold the pairs of both. */
  lemma ParseJoin(q: Text, r: Text)
    ensures ParseQuery(q + (['&'] + r)) == ParseQuery(q) + ParseQuery(r)
  {
    SplitJoin(q, r, '&');
    FieldsJoin(Split(q, '&'), Split(r, '&'));
  }

  lemma OneField(f: Text)
    requires f != [] && Free(f, {'&'})
    ensures ParseQuery(f) == [ParseField(f)]
  {
    SplitFree(f, '&');
    assert ParseFields([f]) == [ParseField(f)] + ParseFields([f][1..]);
  }

  /** A field with an equals sign is read as its two sides, the first sign being the one that counts. */
  lemma NamedValue(a: Text, b: Text)
    requires Free(a, {'&', '='}) && Free(b, {'&'})
    ensures ParseQuery(a + ['='] + b) == [Pair(UnquotePlus(a), UnquotePlus(b))]
  {
    FreeLess(a, {'&', '='}, {'&'});
    FreeLess(a, {'&', '='}, {'='});
    FreeConcat(a, ['='], {'&'});
    FreeConcat(a + ['='], b, {'&'});
    OneField(a + ['='] + b);
    FieldReads(a, b);
  }

  /** A field without one has an empty value: it is read as if the sign stood at its end. */
  lemma BlankValue(f: Text)
    requires f != [] && Free(f, {'&', '='})
    ensures ParseQuery(f) == ParseQuery(f + ['=']) == [Pair(UnquotePlus(f), [])]
  {
    FreeLess(f, {'&', '='}, {'&'});
    FreeLess(f, {'&', '='}, {'='});
    OneField(f);
    SpanConcat(f, [], {'='});
    assert f + [] == f && f[..|f|] == f;
    NamedValue(f, []);
    assert f + ['='] + [] == f + ['='];
  }

  predicate StartsField(q: Text, i: nat)
    requires i < |q|
  {
    q[i] != '&' && (i == 0 || q[i - 1] == '&')
  }

  /** Where the non-empty fields of a query start. */
  function FieldStarts(q: Text): set<nat> {
    set i: nat | i < |q| && StartsField(q, i)
  }

  /** The last field is empty exactly at the start and behind a separator ... */
  lemma {:induction false} LastField(q: Text, sep: Octet)
    ensures Split(q, sep)[|Split(q, sep)| - 1] == [] <==> q == [] || q[|q| - 1] == sep
  {
    if q != [] {
      LastField(q[1..], sep);
      assert q == [q[0]] + q[1..];
      SplitCons(q[0], q[1..], sep);
    }
  }

  function Longer(fields: seq<Text>, c: Octet): seq<Text>
    requires fields != []
  {
    fields[..|fields| - 1] + [fields[|fields| - 1] + [c]]
  }

  lemma LongerOnto(fields: seq<Text>, b: Octet, c: Octet)
    requires fields != []
    ensures Longer([[]] + fields, c) == [[]] + Longer(fields, c)
    ensures Longer(Onto(b, fields), c) == Onto(b, Longer(fields, c))
  {
    if |fields| == 1 {
      assert ([b] + fields[0]) + [c] == [b] + (fields[0] + [c]);
    }
  }

  /** ... and one more character goes to it. */
  lemma {:induction false} SplitMore(q: Text, c: Octet, sep: Octet)
    requires c != sep
    ensures Split(q + [c], sep) == Longer(Split(q, sep), c)
  {
    if q == [] {
      assert q + [c] == [c] + [];
      SplitCons(c, [], sep);
    } else {
      SplitMore(q[1..], c, sep);
      assert q == [q[0]] + q[1..] && q + [c] == [q[0]] + (q[1..] + [c]);
      SplitCons(q[0], q[1..], sep);
      SplitCons(q[0], q[1..] + [c], sep);
      LongerOnto(Split(q[1..], sep), q[0], c);
    }
  }

  lemma FieldsMore(fields: seq<Text>, f: Text)
    ensures |ParseFields(fields + [f])| == |ParseFields(fields)| + if f == [] then 0 else 1
  {
    FieldsJoin(fields, [f]);
    assert ParseFields([f]) == (if f == [] then [] else [ParseField(f)]) + ParseFields([f][1..]);
  }

  lemma FieldCountMore(q: Text, c: Octet)
    ensures |ParseQuery(q + [c])|
         == |ParseQuery(q)| + if c != '&' && (q == [] || q[|q| - 1] == '&') then 1 else 0
  {
    var fields := Split(q, '&');
    var n := |fields| - 1;
    if c == '&' {
      SplitJoin(q, [], '&');
      assert q + (['&'] + []) == q + [c];
      FieldsMore(fields, []);
    } else {
      SplitMore(q, c, '&');
      LastField(q, '&');
      assert fields == fields[..n] + [fields[n]];
      FieldsMore(fields[..n], fields[n]);
      FieldsMore(fields[..n], fields[n] + [c]);
    }
  }

  lemma FieldStartsMore(q: Text, c: Octet)
    ensures |FieldStarts(q + [c])|
         == |FieldStarts(q)| + if c != '&' && (q == [] || q[|q| - 1] == '&') then 1 else 0
  {
    var starts := c != '&' && (q == [] || q[|q| - 1] == '&');
    assert FieldStarts(q + [c]) == FieldStarts(q) + if starts then {|q|} else {};
  }

  /** A query holds one pair for each non-empty field: none is dropped, with or without an equals sign. */
  lemma {:induction false} FieldCount(q: Text)
    ensures |ParseQuery(q)| == |FieldStarts(q)|
  {
    if q == [] {
      assert ParseFields([[]]) == [] + ParseFields([[]][1..]);
    } else {
      var n := |q| - 1;
      assert q == q[..n] + [q[n]];
      FieldCount(q[..n]);
      FieldCountMore(q[..n], q[n]);
      FieldStartsMore(q[..n], q[n]);
    }
  }

  /** Every list of pairs survives printing and parsing, blank names and values included. */
  lemma {:induction false} ParsePrintQuery(pairs: seq<Pair>)
    ensures ParseQuery(PrintQuery(pairs)) == pairs
  {
    if pairs == [] {
      FieldCount([]);
    } else {
      FieldRoundTrip(pairs[0]);
      OneField(PrintPair(pairs[0]));
      if |pairs| > 1 {
        ParsePrintQuery(pairs[1..]);
        ParseJoin(PrintPair(pairs[0]), PrintQuery(pairs[1..]));
        assert PrintQuery(pairs) == PrintPair(pairs[0]) + (['&'] + PrintQuery(pairs[1..]));
      }
    }
  }

  // ---- Sorting ----

  /** Python's order on strings. */
  predicate TextLe(a: Text, b: Text) {
    a == [] || (b != [] && (a[0] < b[0] || (a[0] == b[0] && TextLe(a[1..], b[1..]))))
  }

  /** By name, then by value. */
  predicate PairLe(p: Pair, q: Pair) {
    if p.name == q.name then TextLe(p.value, q.value) else TextLe(p.name, q.name)
  }

  /** The texts agree up to position `i`, where `a` has the smaller character. */
  ghost predicate SmallerAt(a: Text, b: Text, i: nat) {
    i < |a| && i < |b| && a[..i] == b[..i] && a[i] < b[i]
  }

  lemma SmallerCons(a: Text, b: Text, i: nat)
    requires a != [] && b != [] && a[0] == b[0]
    ensures SmallerAt(a, b, i + 1) <==> SmallerAt(a[1..], b[1..], i)
    ensures a <= b <==> a[1..] <= b[1..]
  {
    assert a == [a[0]] + a[1..] && b == [b[0]] + b[1..];
    if i < |a[1..]| && i < |b[1..]| {
      assert a[..i + 1] == [a[0]] + a[1..][..i] && b[..i + 1] == [b[0]] + b[1..][..i];
      assert a[..i + 1][1..] == a[1..][..i] && b[..i + 1][1..] == b[1..][..i];
    }
  }

  /** That is the dictionary order: a prefix comes first, otherwise the first difference decides. */
  lemma {:induction false} TextLeMeans(a: Text, b: Text)
    ensures TextLe(a, b) <==> a <= b || exists i :: SmallerAt(a, b, i)
    decreases |a|
  {
    if a != [] && b != [] {
      if a[0] < b[0] {
        assert SmallerAt(a, b, 0);
      }
      if a[0] == b[0] {
        TextLeMeans(a[1..], b[1..]);
        SmallerCons(a, b, 0);
        if i :| SmallerAt(a[1..], b[1..], i) {
          SmallerCons(a, b, i);
        }
        if i: nat :| SmallerAt(a, b, i) {
          assert i > 0;
          SmallerCons(a, b, i - 1);
        }
      } else {
        assert forall i: nat | i > 0 && SmallerAt(a, b, i) :: a[..i][0] == b[..i][0];
      }
    }
  }

  lemma {:induction false} TextTotal(a: Text, b: Text)
    ensures TextLe(a, b) || TextLe(b, a)
    ensures TextLe(a, b) && TextLe(b, a) ==> a == b
    decreases |a|
  {
    if a != [] && b != [] && a[0] == b[0] {
      TextTotal(a[1..], b[1..]);
      assert a == [a[0]] + a[1..] && b == [b[0]] + b[1..];
    }
  }

  lemma {:induction false} TextTransitive(a: Text, b: Text, c: Text)
    requires TextLe(a, b) && TextLe(b, c)
    ensures TextLe(a, c)
    decreases |a|
  {
    if a != [] && a[0] == b[0] && b[0] == c[0] {
      TextTransitive(a[1..], b[1..], c[1..]);
    }
  }

  lemma PairTotal(p: Pair, q: Pair)
    ensures PairLe(p, q) || PairLe(q, p)
    ensures PairLe(p, q) && PairLe(q, p) ==> p == q
  {
    TextTotal(p.name, q.name);
    TextTotal(p.value, q.value);
  }

  lemma PairTransitive(p: Pair, q: Pair, r: Pair)
    requires PairLe(p, q) && PairLe(q, r)
    ensures PairLe(p, r)
  {
    TextTotal(p.name, q.name);
    TextTotal(q.name, r.name);
    if p.name == q.name == r.name {
      TextTransitive(p.value, q.value, r.value);
    } else {
      TextTransitive(p.name, q.name, r.name);
      TextTotal(p.name, r.name);
    }
  }

  predicate Sorted(pairs: seq<Pair>) {
    forall i, j | 0 <= i < j < |pairs| :: PairLe(pairs[i], pairs[j])
  }

  function Insert(p: Pair, pairs: seq<Pair>): seq<Pair> {
    if pairs == [] || PairLe(p, pairs[0]) then [p] + pairs else [pairs[0]] + Insert(p, pairs[1..])
  }

  /** `list.sort` with the pair itself as key. */
  function Sort(pairs: seq<Pair>): seq<Pair> {
    if pairs == [] then [] else Insert(pairs[0], Sort(pairs[1..]))
  }

  lemma {:induction false} InsertSorted(p: Pair, pairs: seq<Pair>)
    requires Sorted(pairs)
    ensures Sorted(Insert(p, pairs)) && multiset(Insert(p, pairs)) == multiset{p} + multiset(pairs)
  {
    if pairs == [] {
    } else if PairLe(p, pairs[0]) {
      forall j | 0 <= j < |pairs|
        ensures PairLe(p, pairs[j])
      {
        if j > 0 {
          PairTransitive(p, pairs[0], pairs[j]);
        }
      }
    } else {
      InsertSorted(p, pairs[1..]);
      PairTotal(p, pairs[0]);
      var rest := Insert(p, pairs[1..]);
      assert pairs == [pairs[0]] + pairs[1..];
      forall j | 0 <= j < |rest|
        ensures PairLe(pairs[0], rest[j])
      {
        assert rest[j] in multiset(rest);
        if rest[j] != p {
          assert rest[j] in multiset(pairs[1..]);
          var i :| 0 <= i < |pairs[1..]| && pairs[1..][i] == rest[j];
          assert PairLe(pairs[0], pairs[i + 1]);
        }
      }
    }
  }

  lemma {:induction false} SortSorts(pairs: seq<Pair>)
    ensures Sorted(Sort(pairs)) && multiset(Sort(pairs)) == multiset(pairs)
  {
    if pairs != [] {
      SortSorts(pairs[1..]);
      InsertSorted(pairs[0], Sort(pairs[1..]));
      assert pairs == [pairs[0]] + pairs[1..];
    }
  }

  /** Sorted pairs are in order of their names, and where the names are equal in order of their values. */
  lemma SortedMeans(pairs: seq<Pair>, i: nat, j: nat)
    requires Sorted(pairs) && i < j < |pairs|
    ensures TextLe(pairs[i].name, pairs[j].name)
    ensures pairs[i].name == pairs[j].name ==> TextLe(pairs[i].value, pairs[j].value)
  {
    assert PairLe(pairs[i], pairs[j]);
    TextTotal(pairs[i].name, pairs[j].name);
  }

  lemma HeadsAgree(a: seq<Pair>, b: seq<Pair>)
    requires Sorted(a) && Sorted(b) && a != [] && b != [] && a[0] in multiset(b) && b[0] in multiset(a)
    ensures a[0] == b[0]
  {
    var i :| 0 <= i < |b| && b[i] == a[0];
    var j :| 0 <= j < |a| && a[j] == b[0];
    PairTotal(a[0], b[0]);
    PairLeRefl(a[0]);
    assert i > 0 ==> PairLe(b[0], b[i]);
    assert j > 0 ==> PairLe(a[0], a[j]);
  }

  /** A list has one sorted rearrangement only. */
  lemma {:induction false} SortedUnique(a: seq<Pair>, b: seq<Pair>)
    requires Sorted(a) && Sorted(b) && multiset(a) == multiset(b)
    ensures a == b
    decreases |a|
  {
    assert |a| == |multiset(a)| && |b| == |multiset(b)|;
    if a != [] {
      assert a[0] in multiset(a) && b[0] in multiset(b);
      HeadsAgree(a, b);
      assert a == [a[0]] + a[1..] && b == [b[0]] + b[1..];
      assert multiset(a) == multiset{a[0]} + multiset(a[1..]);
      assert multiset(b) == multiset{b[0]} + multiset(b[1..]);
      assert multiset(a[1..]) == multiset(a) - multiset{a[0]} == multiset(b[1..]);
      SortedUnique(a[1..], b[1..]);
    }
  }

  lemma PairLeRefl(p: Pair)
    ensures PairLe(p, p)
  {
    TextTotal(p.value, p.value);
  }

  // ---- The normal form of a query ----

  /** `SortQueryParamsStep`. */
  function NormalQuery(q: Text): Text {
    PrintQuery(Sort(ParseQuery(q)))
  }

  /** Two queries get the same normal form exactly when they hold the same pairs, each equally often. */
  lemma QueryCanonical(q: Text, r: Text)
    ensures NormalQuery(q) == NormalQuery(r) <==> multiset(ParseQuery(q)) == multiset(ParseQuery(r))
    ensures NormalQuery(NormalQuery(q)) == NormalQuery(q)
  {
    var (a, b) := (Sort(ParseQuery(q)), Sort(ParseQuery(r)));
    SortSorts(ParseQuery(q));
    SortSorts(ParseQuery(r));
    ParsePrintQuery(a);
    ParsePrintQuery(b);
    if multiset(ParseQuery(q)) == multiset(ParseQuery(r)) {
      SortedUnique(a, b);
    }
    SortSorts(a);
    SortedUnique(Sort(a), a);
  }

  // ---- The rewriting steps have nothing to do on a printed query ----

  /** Both rewriting steps pass over `s` when `t` follows. */
  ghost predicate InertBefore(s: Text, t: Text) {
    Decode(s + t) == s + Decode(t) && Uppercase(s + t) == s + Uppercase(t)
  }

  /** Both rewriting steps pass over `s`, whatever follows. */
  ghost predicate Inert(s: Text) {
    forall t: Text :: InertBefore(s, t)
  }

  lemma InertChain(a: Text, b: Text, t: Text)
    requires InertBefore(b, t) && InertBefore(a, b + t)
    ensures InertBefore(a + b, t)
  {
    assert (a + b) + t == a + (b + t);
    assert (a + b) + Decode(t) == a + (b + Decode(t));
    assert (a + b) + Uppercase(t) == a + (b + Uppercase(t));
  }

  lemma InertConcat(a: Text, b: Text)
    requires Inert(a) && Inert(b)
    ensures Inert(a + b)
  {
    forall t: Text
      ensures InertBefore(a + b, t)
    {
      assert InertBefore(b, t);
      assert InertBefore(a, b + t);
      InertChain(a, b, t);
    }
  }

  lemma QuoteCharInert(c: Octet)
    ensures Inert(QuoteChar(c))
  {
    forall t: Text
      ensures InertBefore(QuoteChar(c), t)
    {
      var s := QuoteChar(c) + t;
      if Unreserved(c) || c == ' ' {
        assert s[1..] == t;
      } else {
        assert s[3..] == t;
        assert CharOf(s[1], s[2]) == c;
      }
    }
  }

  lemma CharInert(c: Octet)
    requires c != '%'
    ensures Inert([c])
  {
    forall t: Text
      ensures InertBefore([c], t)
    {
      assert ([c] + t)[1..] == t;
    }
  }

  lemma {:induction false} QuoteInert(s: Text)
    ensures Inert(QuotePlus(s))
  {
    if s != [] {
      QuoteInert(s[1..]);
      QuoteCharInert(s[0]);
      InertConcat(QuoteChar(s[0]), QuotePlus(s[1..]));
    } else {
      EmptyInert();
    }
  }

  lemma EmptyInert()
    ensures Inert([])
  {
    forall t: Text
      ensures InertBefore([], t)
    {
      assert [] + t == t;
    }
  }

  lemma {:induction false} PrintInert(pairs: seq<Pair>)
    ensures Inert(PrintQuery(pairs))
  {
    if pairs == [] {
      EmptyInert();
    } else {
      var p := pairs[0];
      QuoteInert(p.name);
      QuoteInert(p.value);
      CharInert('=');
      CharInert('&');
      InertConcat(QuotePlus(p.name), ['=']);
      InertConcat(QuotePlus(p.name) + ['='], QuotePlus(p.value));
      if |pairs| > 1 {
        PrintInert(pairs[1..]);
        InertConcat(PrintPair(p), ['&']);
        InertConcat(PrintPair(p) + ['&'], PrintQuery(pairs[1..]));
      }
    }
  }

  /** Both rewriting steps are the identity on every query the sort step produces. */
  lemma RewritingIdleOnQuery(q: Text)
    ensures Uppercase(NormalQuery(q)) == NormalQuery(q) && Decode(NormalQuery(q)) == NormalQuery(q)
  {
    var n := NormalQuery(q);
    PrintInert(Sort(ParseQuery(q)));
    assert n + [] == n;
    assert InertBefore(n, []);
  }

  /** No printed query contains a delimiter of the other URL parts or a character the parser strips. */
  lemma {:induction false} PrintFree(pairs: seq<Pair>)
    ensures Free(PrintQuery(pairs), {'#', '\t', '\n', '\r'})
  {
    if pairs != [] {
      PairFree(pairs[0], {'#', '\t', '\n', '\r'});
      if |pairs| > 1 {
        PrintFree(pairs[1..]);
        FreeConcat(PrintPair(pairs[0]), ['&'], {'#', '\t', '\n', '\r'});
        FreeConcat(PrintPair(pairs[0]) + ['&'], PrintQuery(pairs[1..]), {'#', '\t', '\n', '\r'});
      }
    }
  }

  lemma PairFree(p: Pair, stop: set<char>)
    requires forall c | c in stop :: !Unreserved(c) && c != '+' && c != '%' && c != '='
    ensures Free(PrintPair(p), stop)
  {
    QuoteFree(p.name, stop);
    QuoteFree(p.value, stop);
    FreeConcat(QuotePlus(p.name), ['='], stop);
    FreeConcat(QuotePlus(p.name) + ['='], QuotePlus(p.value), stop);
  }
}

/**
 The two rewriting steps on percent-encoded triplets (sections 2.1, 2.3, 6.2.2.1 and 6.2.2.2 of RFC 3986).  Both are
 `re.sub` with the triplet pattern: one left-to-right scan that never looks at its own output.
 */
module PercentEncoding {
  import opened Wrappers
  import opened Text

  predicate IsHex(c: char) {
    IsDigit(c) || 'a' <= c <= 'f' || 'A' <= c <= 'F'
  }

  function HexValue(c: Octet): (v: nat)
    requires IsHex(c)
    ensures v < 16
  {
    if IsDigit(c) then c as int - 48 else if c >= 'a' then c as int - 87 else c as int - 55
  }

  function UpperHex(c: Octet): (u: Octet)
    requires IsHex(c)
    ensures IsHex(u) && HexValue(u) == HexValue(c) && !('a' <= u <= 'f')
    ensures !('a' <= c <= 'f') ==> u == c
  {
    if 'a' <= c <= 'f' then (c as int - 32) as char else c
  }

  /** The character of the byte two hex digits stand for. */
  function CharOf(x: Octet, y: Octet): Octet
    requires IsHex(x) && IsHex(y)
  {
    (16 * HexValue(x) + HexValue(y)) as char
  }

  /** Section 2.3 of RFC 3986. */
  predicate Unreserved(c: char) {
    IsLetter(c) || IsDigit(c) || c == '-' || c == '.' || c == '_' || c == '~'
  }

  predicate Triplet(s: Text) {
    |s| >= 3 && s[0] == '%' && IsHex(s[1]) && IsHex(s[2])
  }

  /** `_uppercase_percent_encoding`. */
  function Uppercase(s: Text): Text {
    if s == [] then []
    else if Triplet(s) then ['%', UpperHex(s[1]), UpperHex(s[2])] + Uppercase(s[3..])
    else [s[0]] + Uppercase(s[1..])
  }

  function Replacement(x: Octet, y: Octet): (r: Text)
    requires IsHex(x) && IsHex(y)
    ensures r == [CharOf(x, y)] || r == ['%', UpperHex(x), UpperHex(y)]
  {
    if Unreserved(CharOf(x, y)) then [CharOf(x, y)] else ['%', UpperHex(x), UpperHex(y)]
  }

  /** `_decode_unreserved`. */
  function Decode(s: Text): Text {
    if s == [] then []
    else if Triplet(s) then Replacement(s[1], s[2]) + Decode(s[3..])
    else [s[0]] + Decode(s[1..])
  }

  /** Every percent sign starts a triplet. */
  predicate WellFormed(s: Text) {
    s == [] || (if Triplet(s) then WellFormed(s[3..]) else s[0] != '%' && WellFormed(s[1..]))
  }

  // ---- Decoding after uppercasing is decoding ----

  /** Uppercasing does not turn a stray percent sign into a triplet, nor the other way round. */
  lemma UppercaseKeepsStray(s: Text)
    requires s != [] && !Triplet(s)
    ensures !Triplet([s[0]] + Uppercase(s[1..]))
  {
    var r := s[1..];
    if r != [] && !Triplet(r) && r[1..] != [] {
      assert Uppercase(r) == [r[0]] + Uppercase(r[1..]);
      assert Uppercase(r[1..])[0] == r[1];
    }
  }

  /** For every string, malformed ones included: the uppercasing step adds nothing to the decoding step. */
  lemma {:induction false} DecodeAbsorbsUppercase(s: Text)
    ensures Decode(Uppercase(s)) == Decode(s)
    decreases |s|
  {
    if s != [] {
      var u := Uppercase(s);
      if Triplet(s) {
        DecodeAbsorbsUppercase(s[3..]);
        assert u[3..] == Uppercase(s[3..]);
      } else {
        DecodeAbsorbsUppercase(s[1..]);
        UppercaseKeepsStray(s);
        assert u[1..] == Uppercase(s[1..]);
      }
    }
  }

  // ---- Exactly when decoding is idempotent ----

  /** The next hex digit of the output, raw or encoded, and what is left of the input after it. */
  function NextHex(s: Text): Option<(Octet, Text)> {
    if Triplet(s) then
      if IsHex(CharOf(s[1], s[2])) then Some((CharOf(s[1], s[2]), s[3..])) else None
    else if s != [] && IsHex(s[0]) then Some((s[0], s[1..])) else None
  }

  /** After a stray percent sign: the two hex digits that come next form a triplet a second pass would rewrite. */
  predicate Arms(s: Text) {
    NextHex(s).Some? && NextHex(NextHex(s).value.1).Some? &&
    var (x, y) := (NextHex(s).value.0, NextHex(NextHex(s).value.1).value.0);
    Replacement(x, y) != ['%', x, y]
  }

  /** No stray percent sign is followed by such digits. */
  predicate Settled(s: Text) {
    s == [] || (if Triplet(s) then Settled(s[3..]) else !(s[0] == '%' && Arms(s[1..])) && Settled(s[1..]))
  }

  lemma NextHexDecodes(s: Text)
    ensures if NextHex(s).Some? then
              var (x, r) := NextHex(s).value;
              IsHex(x) && |r| < |s| && Decode(s) == [x] + Decode(r) && Settled(s) == Settled(r)
            else Decode(s) == [] || !IsHex(Decode(s)[0])
  {
  }

  lemma {:induction false} DecodeShrinks(s: Text)
    ensures |Decode(s)| <= |s|
    decreases |s|
  {
    if s != [] {
      DecodeShrinks(if Triplet(s) then s[3..] else s[1..]);
    }
  }

  lemma DecodeTriplet(x: Octet, y: Octet, t: Text)
    requires IsHex(x) && IsHex(y)
    ensures Decode(['%', x, y] + t) == Replacement(x, y) + Decode(t)
  {
    assert (['%', x, y] + t)[3..] == t;
  }

  lemma TwoDigits(d: Text, x: Octet, e: Text, y: Octet, t: Text)
    requires d == [x] + e && e == [y] + t
    ensures d == [x, y] + t
  {
  }

  /** A stray percent sign in front of two hex digits that a second pass meets as a triplet. */
  lemma StrayMeetsDigits(r: Text, x: Octet, r1: Text, y: Octet, rest: Text)
    requires NextHex(r) == Some((x, r1)) && NextHex(r1) == Some((y, rest))
    ensures IsHex(x) && IsHex(y)
    ensures Decode(r) == [x, y] + Decode(rest) && |rest| < |r| && Settled(r) == Settled(rest)
  {
    NextHexDecodes(r);
    NextHexDecodes(r1);
    TwoDigits(Decode(r), x, Decode(r1), y, Decode(rest));
  }

  lemma StrayDecodes(x: Octet, y: Octet, t: Text)
    requires IsHex(x) && IsHex(y)
    ensures Decode(['%'] + ([x, y] + t)) == Replacement(x, y) + Decode(t)
  {
    assert ['%'] + ([x, y] + t) == ['%', x, y] + t;
    DecodeTriplet(x, y, t);
  }

  lemma ReplacementPasses(x: Octet, y: Octet, t: Text)
    requires IsHex(x) && IsHex(y)
    ensures Decode(Replacement(x, y) + t) == Replacement(x, y) + Decode(t)
  {
    if Unreserved(CharOf(x, y)) {
      assert (Replacement(x, y) + t)[1..] == t;
    } else {
      DecodeTriplet(UpperHex(x), UpperHex(y), t);
      assert CharOf(UpperHex(x), UpperHex(y)) == CharOf(x, y);
    }
  }

  /** A character that starts no triplet is passed over. */
  lemma DecodeChar(c: Octet, t: Text)
    requires !Triplet([c] + t)
    ensures Decode([c] + t) == [c] + Decode(t)
  {
    assert ([c] + t)[1..] == t;
  }

  /** Without two digits to come, the decoded rest makes no triplet of the character before it. */
  lemma StaysStray(c: Octet, r: Text)
    requires !(c == '%' && NextHex(r).Some? && NextHex(NextHex(r).value.1).Some?)
    ensures !Triplet([c] + Decode(r))
  {
    NextHexDecodes(r);
    if NextHex(r).Some? {
      NextHexDecodes(NextHex(r).value.1);
    }
  }

  /** Decoding twice is decoding once exactly when no stray percent sign is armed. */
  lemma {:induction false} DecodeIdempotentIff(s: Text)
    ensures Decode(Decode(s)) == Decode(s) <==> Settled(s)
    decreases |s|
  {
    if s == [] {
    } else if Triplet(s) {
      DecodeIdempotentIff(s[3..]);
      var (head, tail) := (Replacement(s[1], s[2]), Decode(s[3..]));
      ReplacementPasses(s[1], s[2], tail);
      SameFront(head, Decode(tail), tail);
    } else {
      var r := s[1..];
      if s[0] == '%' && NextHex(r).Some? && NextHex(NextHex(r).value.1).Some? {
        StrayTwice(r);
      } else {
        StaysStray(s[0], r);
        DecodeIdempotentIff(r);
        DecodeChar(s[0], Decode(r));
        SameFront([s[0]], Decode(Decode(r)), Decode(r));
      }
    }
  }

  lemma {:induction false} StrayTwice(r: Text)
    requires NextHex(r).Some? && NextHex(NextHex(r).value.1).Some?
    ensures var d := ['%'] + Decode(r); Decode(d) == d <==> (!Arms(r) && Settled(r))
    decreases |r|, 1
  {
    var (x, r1) := NextHex(r).value;
    var (y, rest) := NextHex(r1).value;
    StrayMeetsDigits(r, x, r1, y, rest);
    StrayDecodes(x, y, Decode(rest));
    var d := ['%'] + Decode(r);
    var (head, tail) := (Replacement(x, y), Decode(rest));
    assert d == ['%', x, y] + tail;
    DecodeIdempotentIff(rest);
    DecodeShrinks(tail);
    if head == ['%', x, y] {
      assert Decode(d)[3..] == Decode(tail) && d[3..] == tail;
    } else if |head| == 3 {
      assert Decode(d)[..3] == head && d[..3] == ['%', x, y];
    }
  }

  lemma {:induction false} WellFormedSettled(s: Text)
    requires WellFormed(s)
    ensures Settled(s)
    decreases |s|
  {
    if s != [] {
      WellFormedSettled(if Triplet(s) then s[3..] else s[1..]);
    }
  }

  // ---- What decoding means ----

  /** Complete percent-decoding: every triplet becomes the character of its byte. */
  function PercentDecode(s: Text): Text {
    if s == [] then []
    else if Triplet(s) then [CharOf(s[1], s[2])] + PercentDecode(s[3..])
    else [s[0]] + PercentDecode(s[1..])
  }

  /** A character of a string, and whether it was written as a triplet. */
  datatype Symbol = Raw(c: Octet) | Encoded(c: Octet)

  function Symbols(s: Text): seq<Symbol> {
    if s == [] then []
    else if Triplet(s) then [Encoded(CharOf(s[1], s[2]))] + Symbols(s[3..])
    else [Raw(s[0])] + Symbols(s[1..])
  }

  /** The same character, written alike or unreserved (hex case does not show in a symbol). */
  predicate SameSymbol(a: Symbol, b: Symbol) {
    a.c == b.c && (a.Encoded? == b.Encoded? || Unreserved(a.c))
  }

  /** The strings differ only in hex case and in whether unreserved characters are encoded. */
  predicate Equivalent(s: Text, t: Text) {
    |Symbols(s)| == |Symbols(t)| && forall i | 0 <= i < |Symbols(s)| :: SameSymbol(Symbols(s)[i], Symbols(t)[i])
  }

  function Normal(a: Symbol): Symbol {
    if a.Encoded? && Unreserved(a.c) then Raw(a.c) else a
  }

  function Normals(xs: seq<Symbol>): (r: seq<Symbol>)
    ensures |r| == |xs| && forall i | 0 <= i < |xs| :: r[i] == Normal(xs[i])
  {
    seq(|xs|, i requires 0 <= i < |xs| => Normal(xs[i]))
  }

  lemma NormalsCons(x: Symbol, xs: seq<Symbol>)
    ensures Normals([x] + xs) == [Normal(x)] + Normals(xs)
  {
  }

  function HexDigit(n: nat): (c: Octet)
    requires n < 16
    ensures IsHex(c) && HexValue(c) == n && !('a' <= c <= 'f')
  {
    if n < 10 then (n + 48) as char else (n + 55) as char
  }

  function PrintSymbols(xs: seq<Symbol>): Text {
    if xs == [] then [] else
    (if xs[0].Raw? then [xs[0].c] else ['%', HexDigit(xs[0].c as int / 16), HexDigit(xs[0].c as int % 16)])
    + PrintSymbols(xs[1..])
  }

  lemma UpperHexDigit(c: Octet)
    requires IsHex(c)
    ensures UpperHex(c) == HexDigit(HexValue(c))
  {
  }

  /** Decoding writes out the normal forms of the symbols ... */
  lemma {:induction false} DecodePrints(s: Text)
    ensures Decode(s) == PrintSymbols(Normals(Symbols(s)))
    decreases |s|
  {
    if s != [] {
      if Triplet(s) {
        DecodePrints(s[3..]);
        UpperHexDigit(s[1]);
        UpperHexDigit(s[2]);
        NormalsCons(Encoded(CharOf(s[1], s[2])), Symbols(s[3..]));
        assert Normals(Symbols(s))[1..] == Normals(Symbols(s[3..]));
        assert CharOf(s[1], s[2]) as int / 16 == HexValue(s[1]) && CharOf(s[1], s[2]) as int % 16 == HexValue(s[2]);
      } else {
        DecodePrints(s[1..]);
        NormalsCons(Raw(s[0]), Symbols(s[1..]));
        assert Normals(Symbols(s))[1..] == Normals(Symbols(s[1..]));
      }
    }
  }

  lemma SymbolsOfTriplet(x: Octet, y: Octet, t: Text)
    requires IsHex(x) && IsHex(y)
    ensures Symbols(['%', x, y] + t) == [Encoded(CharOf(x, y))] + Symbols(t)
    ensures WellFormed(['%', x, y] + t) == WellFormed(t)
  {
    assert (['%', x, y] + t)[3..] == t;
  }

  lemma SymbolsOfRaw(c: Octet, t: Text)
    requires c != '%'
    ensures Symbols([c] + t) == [Raw(c)] + Symbols(t)
    ensures WellFormed([c] + t) == WellFormed(t)
  {
    assert ([c] + t)[1..] == t;
  }

  /** One rewritten triplet reads back as its normal form. */
  lemma SymbolsOfReplacement(x: Octet, y: Octet, t: Text)
    requires IsHex(x) && IsHex(y)
    ensures Symbols(Replacement(x, y) + t) == [Normal(Encoded(CharOf(x, y)))] + Symbols(t)
    ensures WellFormed(Replacement(x, y) + t) == WellFormed(t)
  {
    if Unreserved(CharOf(x, y)) {
      SymbolsOfRaw(CharOf(x, y), t);
    } else {
      SymbolsOfTriplet(UpperHex(x), UpperHex(y), t);
    }
  }

  /** ... and on a well-formed string they can be read back. */
  lemma {:induction false} SymbolsOfDecode(s: Text)
    requires WellFormed(s)
    ensures Symbols(Decode(s)) == Normals(Symbols(s)) && WellFormed(Decode(s))
    decreases |s|
  {
    if s != [] {
      if Triplet(s) {
        SymbolsOfDecode(s[3..]);
        SymbolsOfReplacement(s[1], s[2], Decode(s[3..]));
        NormalsCons(Encoded(CharOf(s[1], s[2])), Symbols(s[3..]));
      } else {
        SymbolsOfDecode(s[1..]);
        SymbolsOfRaw(s[0], Decode(s[1..]));
        NormalsCons(Raw(s[0]), Symbols(s[1..]));
      }
    }
  }

  /** The characters of a string are those of its symbols. */
  lemma {:induction false} PercentDecodeIsSymbols(s: Text)
    ensures |PercentDecode(s)| == |Symbols(s)|
    ensures forall i | 0 <= i < |Symbols(s)| :: PercentDecode(s)[i] == Symbols(s)[i].c
    decreases |s|
  {
    if s != [] {
      PercentDecodeIsSymbols(if Triplet(s) then s[3..] else s[1..]);
    }
  }

  /** Decoding is canonical: it keeps the decoded bytes, and two strings agree after it iff they are equivalent. */
  lemma DecodeCanonical(s: Text, t: Text)
    requires WellFormed(s) && WellFormed(t)
    ensures Decode(Decode(s)) == Decode(s)
    ensures PercentDecode(Decode(s)) == PercentDecode(s)
    ensures Decode(s) == Decode(t) <==> Equivalent(s, t)
  {
    WellFormedSettled(s);
    DecodeIdempotentIff(s);
    SymbolsOfDecode(s);
    SymbolsOfDecode(t);
    PercentDecodeIsSymbols(s);
    PercentDecodeIsSymbols(Decode(s));
    if Equivalent(s, t) {
      assert Normals(Symbols(s)) == Normals(Symbols(t));
      DecodePrints(s);
      DecodePrints(t);
    }
    if Decode(s) == Decode(t) {
      assert forall i | 0 <= i < |Symbols(s)| :: Normals(Symbols(s))[i] == Normals(Symbols(t))[i];
    }
  }
}

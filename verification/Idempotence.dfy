/** Exactly when normalising a URL twice is normalising it once. */
module Idempotence {
  import opened Wrappers
  import opened Text
  import opened PercentEncoding
  import opened Query
  import opened UrlParts
  import opened Normalizer

  // ---- Decoding and path structure ----

  lemma TripletAtSlash(a: Text, b: Text)
    requires a != []
    ensures Triplet(a + ['/'] + b) == Triplet(a)
  {
    var s := a + ['/'] + b;
    assert s[|a|] == '/' && !IsHex('/');
    assert forall i | 0 <= i < |a| :: s[i] == a[i];
  }

  lemma DropFront(a: Text, b: Text, n: nat)
    requires n <= |a|
    ensures (a + ['/'] + b)[n..] == a[n..] + ['/'] + b
    ensures forall i | 0 <= i < n :: (a + ['/'] + b)[i] == a[i]
  {
  }

  /** A slash is a wall no triplet crosses. */
  lemma {:induction false} DecodeAtSlash(a: Text, b: Text)
    ensures Decode(a + ['/'] + b) == Decode(a) + ['/'] + Decode(b)
    decreases |a|
  {
    if a == [] {
      assert a + ['/'] + b == ['/'] + b;
      DecodeChar('/', b);
    } else {
      TripletAtSlash(a, b);
      var n := if Triplet(a) then 3 else 1;
      DropFront(a, b, n);
      DecodeAtSlash(a[n..], b);
      var head := if Triplet(a) then Replacement(a[1], a[2]) else [a[0]];
      assert Decode(a + ['/'] + b) == head + (Decode(a[n..]) + ['/'] + Decode(b));
    }
  }

  /** A character that is neither unreserved nor a percent sign is only passed through. */
  predicate Delimiter(c: char) {
    !Unreserved(c) && c != '%'
  }

  lemma {:induction false} DecodeKeepsDelimiters(s: Text, c: Octet)
    requires Delimiter(c)
    ensures c in Decode(s) <==> c in s
    decreases |s|
  {
    if s != [] {
      if Triplet(s) {
        DecodeKeepsDelimiters(s[3..], c);
        assert s == ['%', s[1], s[2]] + s[3..];
        assert HexNotDelimiter(s[1]) && HexNotDelimiter(s[2]);
      } else {
        DecodeKeepsDelimiters(s[1..], c);
        assert s == [s[0]] + s[1..];
      }
    }
  }

  predicate HexNotDelimiter(c: Octet)
    ensures HexNotDelimiter(c)
  {
    IsHex(c) ==> Unreserved(c)
  }

  lemma FreeIsNotIn(s: Text, c: Octet)
    ensures Free(s, {c}) <==> c !in s
  {
  }

  lemma DecodeFree(s: Text, stop: set<char>)
    requires Free(s, stop) && forall c | c in stop :: Delimiter(c)
    ensures Free(Decode(s), stop)
  {
    forall i | 0 <= i < |Decode(s)|
      ensures Decode(s)[i] !in stop
    {
      if Decode(s)[i] in stop {
        DecodeKeepsDelimiters(s, Decode(s)[i]);
      }
    }
  }

  /** Decoding works segment by segment. */
  lemma DecodeLastSegment(path: Text)
    requires '/' in path
    ensures AfterLast(Decode(path), '/') == Decode(AfterLast(path, '/'))
  {
    var b := AfterLast(path, '/');
    SlashBefore(path);
    var a := path[..|path| - |b| - 1];
    assert path == a + ['/'] + b;
    DecodeAtSlash(a, b);
    FreeIsNotIn(b, '/');
    DecodeKeepsDelimiters(b, '/');
    FreeIsNotIn(Decode(b), '/');
    AfterLastIs(Decode(a), Decode(b), '/');
  }

  lemma SlashBefore(path: Text)
    requires '/' in path
    ensures |AfterLast(path, '/')| < |path|
  {
    FreeIsNotIn(AfterLast(path, '/'), '/');
    assert path[0..] == path;
  }

  lemma {:induction false} DecodeNonempty(s: Text)
    requires s != []
    ensures Decode(s) != []
  {
  }

  /** Slashes at the end stay slashes at the end. */
  lemma {:induction false} DecodeTrailing(a: Text, slashes: Text)
    requires forall i | 0 <= i < |slashes| :: slashes[i] == '/'
    ensures Decode(a + slashes) == Decode(a) + slashes
    decreases |slashes|
  {
    if slashes == [] {
      assert a + slashes == a && Decode(a) + slashes == Decode(a);
    } else {
      var n := |slashes| - 1;
      DecodeTrailing(a, slashes[..n]);
      DecodeAtSlash(a + slashes[..n], []);
      assert a + slashes[..n] + ['/'] + [] == a + slashes;
      assert Decode(a) + slashes[..n] + ['/'] + [] == Decode(a) + slashes;
    }
  }

  /** A path that does not end in a slash still does not after decoding. */
  lemma DecodeEnd(path: Text)
    requires path != [] && path[0] == '/' && path[|path| - 1] != '/'
    ensures Decode(path) != [] && Decode(path)[0] == '/' && Decode(path)[|Decode(path)| - 1] != '/'
    ensures |Decode(path)| > 1
  {
    var b := AfterLast(path, '/');
    SlashBefore(path);
    assert b != [];
    DecodeLastSegment(path);
    DecodeNonempty(b);
    var d := AfterLast(Decode(path), '/');
    FreeIsNotIn(d, '/');
    assert Decode(path)[|Decode(path)| - 1] == d[|d| - 1];
    assert d[|d| - 1] in d;
    assert Decode(path) == ['/'] + Decode(path[1..]);
  }

  // ---- Paths ----

  predicate OnlySlashes(path: Text) {
    forall i | 0 <= i < |path| :: path[i] == '/'
  }

  /** What the caller can see in the parsed path before normalising it. */
  predicate StablePath(path: Text) {
    && !(|path| > 1 && OnlySlashes(path))                               // more than one slash and nothing else
    && ';' !in AfterLast(StripSlashes(path), '/')                       // parameters hidden behind trailing slashes
    && Settled(path)                                                    // a stray percent sign that decoding arms
  }

  /** A second pass over a path: the parser cuts its parameters, the steps normalise the rest. */
  function SecondPath(path: Text): Text {
    NormalPath(CutParams(path))
  }

  lemma StripSplits(path: Text)
    ensures |StripSlashes(path)| <= |path| && path == StripSlashes(path) + path[|StripSlashes(path)|..]
    ensures OnlySlashes(path[|StripSlashes(path)|..])
    ensures StripSlashes(path) == [] || StripSlashes(path)[|StripSlashes(path)| - 1] != '/'
    ensures StripSlashes(path) == [] <==> OnlySlashes(path)
  {
    var m := StrippedLength(path, |path|);
    var r := StripSlashes(path);
    assert |r| == m && path == path[..m] + path[m..];
    assert forall i | 0 <= i < |path| - m :: path[m..][i] == path[m + i];
    assert m > 0 ==> r[m - 1] == path[m - 1];
  }

  /** Stripping is determined by the split. */
  lemma StripIs(a: Text, slashes: Text)
    requires OnlySlashes(slashes) && (a == [] || a[|a| - 1] != '/')
    ensures StripSlashes(a + slashes) == a
  {
    var s := a + slashes;
    var m := StrippedLength(s, |s|);
    forall i | |a| <= i < |s|
      ensures s[i] == '/'
    {
      assert s[i] == slashes[i - |a|];
    }
    assert a != [] ==> s[|a| - 1] == a[|a| - 1];
    assert m == |a| && s[..|a|] == a;
  }

  lemma SlashesDecode(path: Text)
    requires OnlySlashes(path)
    ensures Decode(path) == path && Settled(path)
  {
    DecodeTrailing([], path);
    assert [] + path == path;
    DecodeIdempotentIff(path);
  }

  lemma TrimIs(a: Text, slashes: Text)
    requires |a| > 1 && a[|a| - 1] != '/' && OnlySlashes(slashes)
    ensures TrimSlash(a + slashes) == a
  {
    if slashes == [] {
      assert a + slashes == a;
    } else {
      StripIs(a, slashes);
    }
  }

  /** The normal form of a path that has something besides slashes. */
  lemma NormalPathIs(path: Text)
    requires path != [] && path[0] == '/' && !OnlySlashes(path)
    ensures NormalPath(path) == Decode(StripSlashes(path))
  {
    StripSplits(path);
    var a := StripSlashes(path);
    DecodeTrailing(a, path[|a|..]);
    DecodeEnd(a);
    TrimIs(Decode(a), path[|a|..]);
  }

  /** Stripping first does not change whether a second decoding finds something to do. */
  lemma SettledStripped(path: Text)
    ensures Settled(path) <==> Decode(Decode(StripSlashes(path))) == Decode(StripSlashes(path))
  {
    StripSplits(path);
    var a := StripSlashes(path);
    var slashes := path[|a|..];
    DecodeTrailing(a, slashes);
    DecodeTrailing(Decode(a), slashes);
    DecodeIdempotentIff(path);
    SameEnding(Decode(Decode(a)), Decode(a), slashes);
  }

  lemma SlashAlone()
    ensures NormalPath([]) == ['/'] && NormalPath(['/']) == ['/'] && SecondPath(['/']) == ['/']
    ensures AfterLast([], '/') == []
  {
    assert AfterLast(['/'], '/') == [];
    assert CutParams(['/']) == ['/'];
    assert Decode(['/']) == ['/'] + Decode(['/'][1..]);
  }

  lemma OnlySlashesNormal(path: Text)
    requires OnlySlashes(path)
    ensures NormalPath(path) == if |path| <= 1 then ['/'] else []
  {
    if path == [] {
      SlashAlone();
    } else if |path| == 1 {
      assert path == ['/'];
      SlashAlone();
    } else {
      SlashesDecode(path);
      StripSplits(path);
      assert path[|path| - 1] == '/';
    }
  }

  lemma SlashesSettleIff(path: Text)
    requires OnlySlashes(path)
    ensures SecondPath(NormalPath(path)) == NormalPath(path) <==> StablePath(path)
  {
    OnlySlashesNormal(path);
    if |path| <= 1 {
      assert NormalPath(path) == ['/'];
      SlashAlone();
      SlashesStable(path);
    } else {
      assert NormalPath(path) == [] && !StablePath(path);
      EmptySecondPath();
    }
  }

  lemma EmptySecondPath()
    ensures SecondPath([]) == ['/']
  {
    assert CutParams([]) == [];
    SlashAlone();
  }

  lemma SlashesStable(path: Text)
    requires OnlySlashes(path) && |path| <= 1
    ensures StablePath(path)
  {
    SlashesDecode(path);
    StripSplits(path);
    assert AfterLast([], '/') == [];
  }

  /** A semicolon in the last segment shows after normalising exactly when it did before. */
  lemma ParamsShow(a: Text)
    requires a != [] && a[0] == '/' && a[|a| - 1] != '/'
    ensures CutParams(Decode(a)) == Decode(a) <==> ';' !in AfterLast(a, '/')
    ensures |CutParams(Decode(a))| <= |Decode(a)|
  {
    assert a[0] in a;
    DecodeLastSegment(a);
    DecodeKeepsDelimiters(AfterLast(a, '/'), ';');
    FreeIsNotIn(AfterLast(Decode(a), '/'), ';');
    CutParamsFacts(Decode(a));
  }

  /** What is cut off does not come back. */
  lemma CutStaysCut(d: Text)
    requires |d| > 1 && CutParams(d) != d
    ensures SecondPath(d) != d
  {
    CutParamsFacts(d);
    ShorterPath(CutParams(d));
  }

  lemma UncutSecondPath(d: Text)
    requires d != [] && d[0] == '/' && d[|d| - 1] != '/' && CutParams(d) == d
    ensures SecondPath(d) == Decode(d)
  {
    DecodeEnd(d);
  }

  lemma OtherPathsSettleIff(path: Text)
    requires path != [] && path[0] == '/' && !OnlySlashes(path)
    ensures SecondPath(NormalPath(path)) == NormalPath(path) <==> StablePath(path)
  {
    NormalPathIs(path);
    SettledStripped(path);
    StripSplits(path);
    var a := StripSlashes(path);
    DecodeEnd(a);
    ParamsShow(a);
    if ';' in AfterLast(a, '/') {
      CutStaysCut(Decode(a));
    } else {
      UncutSecondPath(Decode(a));
    }
  }

  /** The second pass changes a path exactly when one of the three guards fails. */
  lemma PathSettlesIff(path: Text)
    requires Rooted(path)
    ensures SecondPath(NormalPath(path)) == NormalPath(path) <==> StablePath(path)
  {
    if OnlySlashes(path) {
      SlashesSettleIff(path);
    } else {
      OtherPathsSettleIff(path);
    }
  }

  lemma ShorterPath(path: Text)
    ensures |NormalPath(path)| <= |path| || (path == [] && NormalPath(path) == ['/'])
  {
    DecodeShrinks(path);
  }

  // ---- Whole URLs ----

  lemma FreeSlice(s: Text, stop: set<char>, i: nat, j: nat)
    requires Free(s, stop) && i <= j <= |s|
    ensures Free(s[i..j], stop)
  {
    forall n | 0 <= n < j - i
      ensures s[i..j][n] !in stop
    {
      assert s[i..j][n] == s[i + n];
    }
  }

  /** What the parser can return as authority and what follows it. */
  lemma NetlocOf(u: Text)
    requires Free(u, STRIPPED)
    ensures var (netloc, rest) := CutNetloc(u);
      && Free(netloc, {'/', '?', '#'}) && Free(netloc, STRIPPED) && Free(rest, STRIPPED)
      && (netloc != [] && rest != [] ==> rest[0] in {'/', '?', '#'})
  {
    if |u| >= 2 && u[0] == '/' && u[1] == '/' {
      var t := u[2..];
      var i := Span(t, {'/', '?', '#'});
      FreeSlice(u, STRIPPED, 2, |u|);
      FreeSlice(t, STRIPPED, 0, i);
      FreeSlice(t, STRIPPED, i, |t|);
      assert t[..i] == t[0..i] && t[i..] == t[i..|t|];
    }
  }

  lemma CutFree(s: Text, c: Octet, stop: set<char>)
    requires Free(s, stop)
    ensures Free(Cut(s, c).0, stop) && Free(Cut(s, c).0, {c}) && Free(Cut(s, c).1, stop)
    ensures s != [] && s[0] != c ==> Cut(s, c).0 != [] && Cut(s, c).0[0] == s[0]
  {
    var i := Span(s, {c});
    FreeSlice(s, stop, 0, i);
    assert s[..i] == s[0..i];
    if i < |s| {
      FreeSlice(s, stop, i + 1, |s|);
      assert s[i + 1..] == s[i + 1..|s|];
    }
  }

  lemma FreeUnion(s: Text, a: set<char>, b: set<char>)
    ensures Free(s, a + b) <==> Free(s, a) && Free(s, b)
  {
  }

  /** Path and query are free of what delimits them, and the path starts with a slash if it is there. */
  lemma TailFree(rest: Text)
    requires Free(rest, STRIPPED) && (rest != [] ==> rest[0] in {'/', '?', '#'})
    ensures var (path, query) := Cut(Cut(rest, '#').0, '?');
      Rooted(path) && Free(path, PATH_STOPS) && Free(query, QUERY_STOPS)
  {
    CutFree(rest, '#', STRIPPED);
    var front := Cut(rest, '#').0;
    FreeUnion(front, STRIPPED, {'#'});
    assert STRIPPED + {'#'} == QUERY_STOPS;
    CutFree(front, '?', QUERY_STOPS);
    FreeUnion(Cut(front, '?').0, QUERY_STOPS, {'?'});
    assert QUERY_STOPS + {'?'} == PATH_STOPS;
  }

  lemma SchemeFree(u: Text)
    requires Free(u, STRIPPED)
    ensures Free(CutScheme(u).1, STRIPPED)
  {
    var i := Span(u, {':'});
    if i < |u| {
      FreeSlice(u, STRIPPED, i + 1, |u|);
      assert u[i + 1..] == u[i + 1..|u|];
    }
  }

  ghost predicate PartsOk(p: Parts) {
    && Free(p.netloc, {'/', '?', '#'}) && Free(p.netloc, STRIPPED)
    && (p.netloc != [] ==> Rooted(p.path) && Free(p.path, PATH_STOPS) && Free(p.query, QUERY_STOPS))
  }

  lemma PartsFree(raw: Text)
    requires ParseUrl(raw).Some?
    ensures PartsOk(ParseUrl(raw).value)
  {
    var u1 := CutScheme(Clean(raw)).1;
    SchemeFree(Clean(raw));
    NetlocOf(u1);
    var (netloc, rest) := CutNetloc(u1);
    if netloc != [] {
      TailFree(rest);
      var path := Cut(Cut(rest, '#').0, '?').0;
      FreeSlice(path, PATH_STOPS, 0, |CutParams(path)|);
      assert CutParams(path) == path[0..|CutParams(path)|];
      RootedCut(path);
    }
  }

  lemma RootedCut(path: Text)
    requires Rooted(path)
    ensures Rooted(CutParams(path))
  {
  }

  lemma HostFree(netloc: Text)
    requires Free(netloc, {'/', '?', '#'}) && Free(netloc, STRIPPED) && !HasBracket(netloc)
    ensures Free(Hostname(netloc), HOST_STOPS) && Free(Hostname(netloc), {':'})
    ensures HostInfo(netloc) == Cut(AfterLast(netloc, '@'), ':')
  {
    var stops: set<char> := {'/', '?', '#', '[', ']', '\t', '\r', '\n'};
    forall i | 0 <= i < |netloc|
      ensures netloc[i] !in stops
    {
      assert netloc[i] in netloc;
    }
    var info := AfterLast(netloc, '@');
    FreeSlice(netloc, stops, |netloc| - |info|, |netloc|);
    assert info == netloc[|netloc| - |info|..|netloc|];
    FreeLess(info, stops, {'['});
    SpanIs(info, {'['}, |info|);
    FreeUnion(info, stops, {'@'});
    assert stops + {'@'} == HOST_STOPS;
    CutFree(info, ':', HOST_STOPS);
    var host := Cut(info, ':').0;
    LoweredFree(host, Span(host, {'%'}), HOST_STOPS);
    LoweredFree(host, Span(host, {'%'}), {':'});
  }

  lemma LoweredFree(s: Text, i: nat, stop: set<char>)
    requires i <= |s| && Free(s, stop) && forall c | c in stop :: !IsLetter(c)
    ensures Free(Lower(s[..i]) + s[i..], stop)
  {
    FreeSlice(s, stop, 0, i);
    FreeSlice(s, stop, i, |s|);
    assert s[..i] == s[0..i] && s[i..] == s[i..|s|];
    LowerFree(s[..i], stop);
    FreeConcat(Lower(s[..i]), s[i..], stop);
  }

  lemma NormalPathFree(path: Text)
    requires Rooted(path) && Free(path, PATH_STOPS)
    ensures Rooted(NormalPath(path)) && Free(NormalPath(path), PATH_STOPS)
  {
    DecodeFree(path, PATH_STOPS);
    var d := Decode(path);
    if path != [] {
      assert d == ['/'] + Decode(path[1..]);
    }
    FreeSlice(d, PATH_STOPS, 0, |StripSlashes(d)|);
    assert StripSlashes(d) == d[0..|StripSlashes(d)|];
  }

  /** An http or https URL with a host, whose authority has no bracket. */
  ghost predicate Plain(raw: Text) {
    Read(raw).Some? && HttpScheme(ParseUrl(raw).value.scheme) && !HasBracket(ParseUrl(raw).value.netloc)
  }

  /** Components as the parser leaves them. */
  ghost predicate Readable(c: Components) {
    && HttpScheme(c.scheme) && c.host != [] && Free(c.host, HOST_STOPS)
    && (c.port.Some? ==> c.port.value <= 65535)
    && Rooted(c.path) && Free(c.path, PATH_STOPS)
  }

  lemma EmptyNetloc()
    ensures Hostname([]) == []
  {
    assert AfterLast([], '@') == [];
  }

  lemma TakenParts(p: Parts)
    requires Take(p).Some?
    ensures var c := Take(p).value;
      c.scheme == p.scheme && c.host == Hostname(p.netloc) != [] && c.path == p.path && Port(p.netloc) == Some(c.port)
  {
  }

  lemma PortBound(netloc: Text)
    requires Port(netloc).Some? && Port(netloc).value.Some?
    ensures Port(netloc).value.value <= 65535
  {
  }

  lemma TakenReadable(p: Parts)
    requires PartsOk(p) && HttpScheme(p.scheme) && !HasBracket(p.netloc) && Take(p).Some?
    ensures Readable(Take(p).value) && Free(Take(p).value.host, {':'})
  {
    TakenParts(p);
    EmptyNetloc();
    HostFree(p.netloc);
    if Take(p).value.port.Some? {
      PortBound(p.netloc);
    }
  }

  lemma PlainReadable(raw: Text)
    requires Plain(raw)
    ensures Readable(Read(raw).value) && Free(Read(raw).value.host, {':'})
  {
    PartsFree(raw);
    TakenReadable(ParseUrl(raw).value);
  }

  lemma CanonicalPrintable(c: Components)
    requires Readable(c)
    ensures Printable(Canonical(c)) && Canonical(c).scheme == c.scheme
    ensures Canonical(c).host != [] && Lower(Canonical(c).host) == Canonical(c).host
    ensures Free(c.host, {':'}) ==> Free(Canonical(c).host, {':'})
  {
    LowerFree(c.host, HOST_STOPS);
    if Free(c.host, {':'}) {
      LowerFree(c.host, {':'});
    }
    LowerIdempotent(c.host);
    assert Lower(c.scheme) == c.scheme;
    NormalPathFree(c.path);
    PrintFree(Sort(ParseQuery(c.query)));
  }

  lemma TakenFrom(p: Parts, port: Option<nat>)
    requires p.scheme != [] && Hostname(p.netloc) != [] && Port(p.netloc) == Some(port)
    ensures Take(p) == Some(Components(p.scheme, Hostname(p.netloc), port, p.path, p.query))
  {
  }

  lemma PartsTaken(k: Components)
    requires Printable(k) && k.host != [] && Lower(k.host) == k.host && Free(k.host, {':'})
    ensures Take(PrintedParts(k)) == Some(k.(path := CutParams(k.path)))
    ensures Hostname(PrintedParts(k).netloc) == k.host
  {
    HostReads(k.host, k.port);
    TakenFrom(PrintedParts(k), k.port);
  }

  /** Such components print and read back, but for the parameters of their path. */
  lemma PrintedReads(k: Components)
    requires Printable(k) && k.host != [] && Lower(k.host) == k.host && Free(k.host, {':'})
    ensures Read(Print(k)) == Some(k.(path := CutParams(k.path)))
    ensures ParseUrl(Print(k)) == Some(PrintedParts(k)) && Hostname(PrintedParts(k).netloc) == k.host
  {
    PartsTaken(k);
    ParsePrinted(k);
  }

  lemma CanonicalTwice(c: Components)
    requires HttpScheme(c.scheme)
    ensures var k := Canonical(c); Canonical(k.(path := CutParams(k.path))) == k.(path := SecondPath(k.path))
  {
    LowerIdempotent(c.scheme);
    LowerIdempotent(c.host);
    QueryCanonical(c.query, c.query);
  }

  /** The second normalisation of a plain URL differs from the first in the path alone. */
  lemma NormalizeTwice(raw: Text)
    requires Plain(raw)
    ensures var k := Canonical(Read(raw).value);
      && Normalize(raw) == Some(Print(k))
      && Normalize(Print(k)) == Some(Print(k.(path := SecondPath(k.path))))
      && Rooted(k.path) && Rooted(SecondPath(k.path))
  {
    var c := Read(raw).value;
    var k := Canonical(c);
    NormalizeIs(raw);
    NormalizeIs(Print(k));
    PlainReadable(raw);
    CanonicalPrintable(c);
    PrintedReads(k);
    CanonicalTwice(c);
    RootedCut(k.path);
    NormalPathRooted(CutParams(k.path));
  }

  /**
   For http and https URLs whose authority has no brackets, normalising twice is normalising once exactly when
   the parsed path is stable, whatever the host, port and query.
   */
  lemma NormalizeIdempotentIff(raw: Text, v: Text)
    requires Plain(raw) && Normalize(raw) == Some(v)
    ensures Normalize(v) == Some(v) <==> StablePath(ParseUrl(raw).value.path)
  {
    NormalizeTwice(raw);
    PlainReadable(raw);
    var c := Read(raw).value;
    var k := Canonical(c);
    PathSettlesIff(c.path);
    if Normalize(v) == Some(v) {
      PathFromPrint(k, SecondPath(k.path));
    }
  }

  const TWO_SLASHES := Components("http", "h", None, "//", "")

  lemma TwoSlashesPrintable()
    ensures Print(TWO_SLASHES) == "http://h//"
    ensures Printable(TWO_SLASHES) && Lower(TWO_SLASHES.host) == TWO_SLASHES.host && Free(TWO_SLASHES.host, {':'})
    ensures CutParams("//") == "//" && !StablePath("//") && !HasBracket(Netloc("h", None))
  {
    assert AfterLast("//", '/') == [];
    assert OnlySlashes("//");
  }

  /** The invariant claimed for every URL fails for this one. */
  lemma TwoSlashesNotIdempotent()
    ensures Normalize("http://h//").Some?
    ensures Normalize(Normalize("http://h//").value) != Normalize("http://h//")
  {
    TwoSlashesPrintable();
    PrintedReads(TWO_SLASHES);
    NormalizeIs("http://h//");
    NormalizeIdempotentIff("http://h//", Normalize("http://h//").value);
  }

  lemma NormalPathRooted(path: Text)
    requires Rooted(path)
    ensures Rooted(NormalPath(path))
  {
    if path != [] {
      assert Decode(path) == ['/'] + Decode(path[1..]);
    }
  }

  /**
   Two such URLs are taken for the same exactly when scheme, host, port, path and the multiset of query pairs
   agree in their normal forms: deduplication by the normalised URL neither merges nor splits anything else.
   */
  lemma SameNormalFormIff(u: Text, w: Text)
    requires Plain(u) && Plain(w)
    ensures var (a, b) := (Read(u).value, Read(w).value);
      Normalize(u) == Normalize(w) <==>
        && a.scheme == b.scheme && Lower(a.host) == Lower(b.host)
        && WithoutDefaultPort(a.scheme, a.port) == WithoutDefaultPort(b.scheme, b.port)
        && NormalPath(a.path) == NormalPath(b.path)
        && multiset(ParseQuery(a.query)) == multiset(ParseQuery(b.query))
  {
    var (a, b) := (Read(u).value, Read(w).value);
    var (k, l) := (Canonical(a), Canonical(b));
    NormalizeIs(u);
    NormalizeIs(w);
    PlainReadable(u);
    PlainReadable(w);
    CanonicalPrintable(a);
    CanonicalPrintable(b);
    QueryCanonical(a.query, b.query);
    if Normalize(u) == Normalize(w) {
      SamePrint(k, l);
    }
  }

  lemma SamePrint(k: Components, l: Components)
    requires Printable(k) && k.host != [] && Lower(k.host) == k.host && Free(k.host, {':'})
    requires Printable(l) && l.host != [] && Lower(l.host) == l.host && Free(l.host, {':'})
    requires Print(k) == Print(l)
    ensures k == l
  {
    PrintedReads(k);
    PrintedReads(l);
    assert l == k.(path := l.path);
    PathFromPrint(k, l.path);
  }

  lemma PrintedUnreadable(k: Components)
    requires Printable(k) && Port(Netloc(k.host, k.port)) == None
    ensures Read(Print(k)) == None
  {
    assert Take(PrintedParts(k)) == None;
    ParsePrinted(k);
  }

  lemma CanonicalColons(c: Components, i: nat, j: nat)
    requires Readable(c) && i < j < |c.host| && c.host[i] == ':' && c.host[j] == ':'
    ensures Port(Netloc(Canonical(c).host, Canonical(c).port)) == None
  {
    CanonicalPrintable(c);
    var host := Lower(c.host);
    assert host[i] == LowerChar(':') && host[j] == LowerChar(':');
    ColonsDoNotReadBack(host, Canonical(c).port, i, j);
  }

  lemma {:induction false} WellFormedFront(a: Text, slashes: Text)
    requires OnlySlashes(slashes) && WellFormed(a + slashes)
    ensures WellFormed(a)
    decreases |a|
  {
    var s := a + slashes;
    if slashes == [] {
      assert s == a;
    } else if a != [] {
      assert s == a + ['/'] + slashes[1..];
      TripletAtSlash(a, slashes[1..]);
      var n := if Triplet(a) then 3 else 1;
      assert s[n..] == a[n..] + slashes;
      assert s[0] == a[0];
      WellFormedFront(a[n..], slashes);
    }
  }

  /** The paths differ only in trailing slashes, hex case, and whether unreserved characters are encoded. */
  predicate SamePath(a: Text, b: Text) {
    if OnlySlashes(a) || OnlySlashes(b) then OnlySlashes(a) && OnlySlashes(b) && (|a| <= 1 <==> |b| <= 1)
    else Equivalent(StripSlashes(a), StripSlashes(b))
  }

  lemma OtherPathNormal(path: Text)
    requires Rooted(path) && WellFormed(path) && !OnlySlashes(path)
    ensures NormalPath(path) == Decode(StripSlashes(path)) && WellFormed(StripSlashes(path)) && |NormalPath(path)| > 1
  {
    NormalPathIs(path);
    StripSplits(path);
    DecodeEnd(StripSlashes(path));
    WellFormedFront(StripSlashes(path), path[|StripSlashes(path)|..]);
  }

  /** Two well-formed paths get the same normal form exactly when they are the same path in this sense. */
  lemma SamePathIff(a: Text, b: Text)
    requires Rooted(a) && Rooted(b) && WellFormed(a) && WellFormed(b)
    ensures NormalPath(a) == NormalPath(b) <==> SamePath(a, b)
  {
    if OnlySlashes(a) { OnlySlashesNormal(a); } else { OtherPathNormal(a); }
    if OnlySlashes(b) { OnlySlashesNormal(b); } else { OtherPathNormal(b); }
    if !OnlySlashes(a) && !OnlySlashes(b) {
      DecodeCanonical(StripSlashes(a), StripSlashes(b));
    }
  }

  /**
   The same said of the parsed URLs: on well-formed paths, deduplication merges two of them exactly when they
   differ in nothing but letter case of the host, a default port, the order of query pairs, their paths in the
   sense above, and what the parse step drops (user information, parameters of the last segment, fragment).
   */
  lemma SameUrlIff(u: Text, w: Text)
    requires Plain(u) && Plain(w) && WellFormed(Read(u).value.path) && WellFormed(Read(w).value.path)
    ensures var (a, b) := (Read(u).value, Read(w).value);
      Normalize(u) == Normalize(w) <==>
        && a.scheme == b.scheme && Lower(a.host) == Lower(b.host)
        && WithoutDefaultPort(a.scheme, a.port) == WithoutDefaultPort(b.scheme, b.port)
        && SamePath(a.path, b.path)
        && multiset(ParseQuery(a.query)) == multiset(ParseQuery(b.query))
  {
    SameNormalFormIff(u, w);
    PlainReadable(u);
    PlainReadable(w);
    SamePathIff(Read(u).value.path, Read(w).value.path);
  }

  /** An IPv6 host never survives: without its brackets the normalised URL is rejected. */
  lemma AddressLosesBrackets(raw: Text, v: Text, i: nat, j: nat)
    requires Read(raw).Some? && Readable(Read(raw).value) && Normalize(raw) == Some(v)
    requires i < j < |Read(raw).value.host| && Read(raw).value.host[i] == ':' && Read(raw).value.host[j] == ':'
    ensures Normalize(v) == None
  {
    NormalizeIs(raw);
    NormalizeIs(v);
    var c := Read(raw).value;
    var k := Canonical(c);
    CanonicalPrintable(c);
    CanonicalColons(c, i, j);
    PrintedUnreadable(k);
  }

  lemma TakenHost(p: Parts)
    requires Take(p).Some?
    ensures Take(p).value.host == Hostname(p.netloc)
  {
  }

  lemma NormalParts(raw: Text)
    requires Plain(raw)
    ensures var k := Canonical(Read(raw).value);
      && Normalize(raw) == Some(Print(k))
      && ParseUrl(Print(k)) == Some(PrintedParts(k)) && Hostname(PrintedParts(k).netloc) == k.host
  {
    NormalizeIs(raw);
    PlainReadable(raw);
    CanonicalPrintable(Read(raw).value);
    PrintedReads(Canonical(Read(raw).value));
  }

  /** The host name of a normalised URL is the lower-cased host name of the original. */
  lemma NormalHost(raw: Text, v: Text)
    requires Plain(raw) && Normalize(raw) == Some(v)
    ensures ParseUrl(v).Some? && Hostname(ParseUrl(v).value.netloc) == Lower(Hostname(ParseUrl(raw).value.netloc))
  {
    NormalParts(raw);
    TakenHost(ParseUrl(raw).value);
  }

  /** An authority that is just a lower-case host: no user information, no port. */
  ghost predicate BareHost(netloc: Text) {
    Free(netloc, {'@'}) && Free(netloc, {':'}) && Lower(netloc) == netloc
  }

  lemma NetlocIsHostIff(p: Parts)
    requires PartsOk(p) && !HasBracket(p.netloc)
    ensures Lower(Hostname(p.netloc)) == p.netloc <==> BareHost(p.netloc)
  {
    if Lower(Hostname(p.netloc)) == p.netloc {
      NetlocIsHostOnlyIf(p);
    }
    if BareHost(p.netloc) {
      NetlocIsHostIf(p);
    }
  }

  /**
   The domain filter compares the host name of a normalised URL with the authority of the seed as written: a
   seed passes its own check exactly when it is written in lower case without user information or port.
   */
  lemma SeedPassesDomainCheckIff(raw: Text, v: Text)
    requires Plain(raw) && Normalize(raw) == Some(v)
    ensures ParseUrl(v).Some?
    ensures Hostname(ParseUrl(v).value.netloc) == ParseUrl(raw).value.netloc <==> BareHost(ParseUrl(raw).value.netloc)
  {
    NormalHost(raw, v);
    PartsFree(raw);
    NetlocIsHostIff(ParseUrl(raw).value);
  }

  const PORT_SEED := Components("http", "h", Some(8080), "/", "")

  lemma PortPrints()
    ensures PrintNat(8080) == "8080"
  {
    assert PrintNat(8) == "8";
    assert PrintNat(80) == "80";
    assert PrintNat(808) == "808";
  }

  lemma PortNetloc()
    ensures Netloc("h", Some(8080)) == "h:8080"
  {
    PortPrints();
  }

  lemma PortSeedPrints()
    ensures Print(PORT_SEED) == "http://h:8080/"
  {
    PortNetloc();
    assert Tail("") == [];
  }

  lemma PortSeedPrintable()
    ensures Printable(PORT_SEED) && Lower(PORT_SEED.host) == PORT_SEED.host && Free(PORT_SEED.host, {':'})
  {
  }

  lemma PortSeedNormalizes() returns (v: Text)
    ensures Normalize("http://h:8080/") == Some(v)
  {
    PortSeedPrints();
    PortSeedPrintable();
    PrintedReads(PORT_SEED);
    NormalizeIs("http://h:8080/");
    v := Normalize("http://h:8080/").value;
  }

  /** A seed with a port of its own fails its own domain check. */
  lemma PortSeedFailsDomainCheck() returns (v: Text)
    ensures Normalize("http://h:8080/") == Some(v)
    ensures ParseUrl(v).Some? && ParseUrl("http://h:8080/").Some?
    ensures Hostname(ParseUrl(v).value.netloc) != ParseUrl("http://h:8080/").value.netloc
  {
    v := PortSeedNormalizes();
    PortSeedPrints();
    PortSeedPrintable();
    PortNetloc();
    PrintedReads(PORT_SEED);
    NoBracket("h", Some(8080));
    SeedPassesDomainCheckIff("http://h:8080/", v);
  }

  lemma BareHostInfo(netloc: Text)
    requires Free(netloc, {'@'}) && Free(netloc, {':'})
    ensures Cut(AfterLast(netloc, '@'), ':').0 == netloc
  {
    AfterLastIs([], netloc, '@');
    CutReads(netloc, [], ':');
  }

  lemma HostOfBareNetloc(netloc: Text)
    requires HostInfo(netloc).0 == netloc && Lower(netloc) == netloc
    ensures Hostname(netloc) == netloc
  {
    LowerFront(netloc, Span(netloc, {'%'}));
  }

  lemma NetlocIsHostOnlyIf(p: Parts)
    requires PartsOk(p) && !HasBracket(p.netloc) && Lower(Hostname(p.netloc)) == p.netloc
    ensures BareHost(p.netloc)
  {
    HostFree(p.netloc);
    HostIsBare(Hostname(p.netloc));
  }

  lemma NetlocIsHostIf(p: Parts)
    requires PartsOk(p) && !HasBracket(p.netloc) && BareHost(p.netloc)
    ensures Lower(Hostname(p.netloc)) == p.netloc
  {
    HostFree(p.netloc);
    BareHostInfo(p.netloc);
    HostOfBareNetloc(p.netloc);
  }

  lemma HostIsBare(host: Text)
    requires Free(host, HOST_STOPS) && Free(host, {':'})
    ensures Free(Lower(host), {'@'}) && Free(Lower(host), {':'}) && Lower(Lower(host)) == Lower(host)
  {
    LowerIdempotent(host);
    FreeLess(host, HOST_STOPS, {'@'});
    LowerFree(host, {'@'});
    LowerFree(host, {':'});
  }
}

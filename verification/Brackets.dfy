/**
 URLs with brackets in the authority: what becomes of their host, when the normal form can be parsed at all, and
 exactly when normalising any http URL twice is normalising it once.
 */
module Brackets {
  import opened Wrappers
  import opened Text
  import opened Query
  import opened UrlParts
  import opened Normalizer
  import opened Idempotence

  // ---- What the host of a normalised URL looks like ----

  lemma SchemeIsPlain(u: Text)
    ensures CutScheme(u).0 == [] || PlainScheme(CutScheme(u).0)
  {
    var i := Span(u, {':'});
    if 0 < i < |u| && IsLetter(u[0]) && forall j | 0 <= j < i :: SchemeChar(u[j]) {
      var s := u[..i];
      LowerIdempotent(s);
      forall j | 0 <= j < i
        ensures SchemeChar(Lower(s)[j])
      {
        assert Lower(s)[j] == LowerChar(u[j]);
      }
      assert Lower(s)[0] == LowerChar(u[0]);
    }
  }

  /** Either way of finding the host keeps it free of what the authority is free of, and of one bracket. */
  lemma WrittenHostFree(netloc: Text, stop: set<char>)
    requires Free(netloc, stop)
    ensures var host := HostInfo(netloc).0;
      Free(host, stop) && Free(host, {'@'}) && !HasBothBrackets(host)
  {
    var info := AfterLast(netloc, '@');
    FreeSlice(netloc, stop, |netloc| - |info|, |netloc|);
    assert info == netloc[|netloc| - |info|..|netloc|];
    InfoHostFree(info, stop);
    InfoHostFree(info, {'@'});
  }

  predicate HasBothBrackets(s: Text) {
    '[' in s && ']' in s
  }

  lemma InfoHostFree(info: Text, stop: set<char>)
    requires Free(info, stop)
    ensures Free(InfoHost(info), stop) && !HasBothBrackets(InfoHost(info))
  {
    var open := Span(info, {'['});
    if open < |info| {
      var inner := info[open + 1..];
      FreeSlice(info, stop, open + 1, |info|);
      assert inner == info[open + 1..|info|];
      CutFree(inner, ']', stop);
      FreeIsNotIn(Cut(inner, ']').0, ']');
    } else {
      CutFree(info, ':', stop);
      CutFree(info, ':', {'['});
      FreeIsNotIn(Cut(info, ':').0, '[');
    }
  }

  /** A host as the parser can give it. */
  ghost predicate HostShape(host: Text) {
    Free(host, NETLOC_STOPS) && !HasBothBrackets(host)
  }

  lemma LowerKeepsOut(s: Text, i: nat, c: Octet)
    requires i <= |s| && !IsLetter(c) && c !in s
    ensures c !in Lower(s[..i]) + s[i..] && c !in Lower(s)
  {
    FreeIsNotIn(s, c);
    LoweredFree(s, i, {c});
    LowerFree(s, {c});
    FreeIsNotIn(Lower(s[..i]) + s[i..], c);
    FreeIsNotIn(Lower(s), c);
  }

  lemma NamedHostShape(netloc: Text)
    requires Free(netloc, NETLOC_ENDS) && Free(netloc, STRIPPED)
    ensures HostShape(Hostname(netloc))
  {
    WrittenHostFree(netloc, NETLOC_ENDS);
    WrittenHostFree(netloc, STRIPPED);
    var host := HostInfo(netloc).0;
    FreeUnion(host, NETLOC_ENDS, STRIPPED);
    FreeUnion(host, NETLOC_ENDS + STRIPPED, {'@'});
    assert NETLOC_ENDS + STRIPPED + {'@'} == NETLOC_STOPS;
    var i := Span(host, {'%'});
    LoweredFree(host, i, NETLOC_STOPS);
    if '[' !in host { LowerKeepsOut(host, i, '['); } else { LowerKeepsOut(host, i, ']'); }
  }

  lemma LoweredShape(host: Text)
    requires HostShape(host)
    ensures HostShape(Lower(host)) && Lower(Lower(host)) == Lower(host)
  {
    LowerIdempotent(host);
    LowerFree(host, NETLOC_STOPS);
    if '[' !in host { LowerKeepsOut(host, 0, '['); } else { LowerKeepsOut(host, 0, ']'); }
  }

  /** Components as the parse step leaves them, whatever the URL. */
  ghost predicate Parsed(c: Components) {
    PlainScheme(c.scheme) && HostShape(c.host) && Rooted(c.path) && Free(c.path, PATH_STOPS)
  }

  lemma ReadParsed(u: Text)
    requires Read(u).Some?
    ensures Parsed(Read(u).value)
  {
    var p := ParseUrl(u).value;
    TakenParts(p);
    PartsFree(u);
    EmptyNetloc();
    NamedHostShape(p.netloc);
    SchemeIsPlain(Clean(u));
  }

  lemma CanonicalLoose(c: Components)
    requires Parsed(c)
    ensures Loose(Canonical(c)) && HostShape(Canonical(c).host) && Lower(Canonical(c).host) == Canonical(c).host
  {
    LoweredShape(c.host);
    NormalPathFree(c.path);
    PrintFree(Sort(ParseQuery(c.query)));
  }

  lemma LowerNetloc(host: Text, port: Option<nat>)
    requires Lower(host) == host
    ensures Lower(Netloc(host, port)) == Netloc(host, port)
  {
    var netloc := Netloc(host, port);
    forall i | 0 <= i < |netloc|
      ensures Lower(netloc)[i] == netloc[i]
    {
      if i < |host| {
        assert netloc[i] == host[i] && Lower(host)[i] == LowerChar(host[i]);
      } else if i > |host| {
        assert IsDigit(PrintNat(port.value)[i - |host| - 1]);
      }
    }
  }

  lemma LowerInfo(netloc: Text)
    requires Lower(netloc) == netloc
    ensures Lower(AfterLast(netloc, '@')) == AfterLast(netloc, '@')
  {
    var info := AfterLast(netloc, '@');
    assert info == netloc[|netloc| - |info|..|netloc|];
    LowerSlice(netloc, |netloc| - |info|, |netloc|);
  }

  lemma LowerCut(info: Text, c: Octet)
    requires Lower(info) == info
    ensures Lower(Cut(info, c).0) == Cut(info, c).0
  {
    var n := Span(info, {c});
    assert info[..n] == info[0..n];
    LowerSlice(info, 0, n);
  }

  lemma FreeHostIsBare(host: Text)
    requires Free(host, HOST_STOPS) && Free(host, {':'}) && Lower(host) == host
    ensures BareHost(host)
  {
    FreeLess(host, HOST_STOPS, {'@'});
  }

  /** In a lower-case authority without brackets the host name is bare. */
  lemma BareHostname(netloc: Text)
    requires Free(netloc, NETLOC_ENDS) && Free(netloc, STRIPPED) && !HasBracket(netloc) && Lower(netloc) == netloc
    ensures BareHost(Hostname(netloc))
  {
    HostFree(netloc);
    LowerInfo(netloc);
    LowerCut(AfterLast(netloc, '@'), ':');
    HostnameReads(netloc);
    FreeHostIsBare(Hostname(netloc));
  }

  lemma BalancedHost(host: Text, port: Option<nat>)
    requires HostShape(host) && !Unbalanced(Netloc(host, port))
    ensures !HasBracket(Netloc(host, port))
  {
    NetlocHas(host, port, '[');
    NetlocHas(host, port, ']');
  }

  lemma NetlocEnds(host: Text, port: Option<nat>)
    requires Free(host, NETLOC_STOPS)
    ensures Free(Netloc(host, port), NETLOC_ENDS) && Free(Netloc(host, port), STRIPPED)
  {
    FreeLess(host, NETLOC_STOPS, NETLOC_ENDS);
    NetlocFree(host, port, NETLOC_ENDS);
    FreeLess(host, NETLOC_STOPS, STRIPPED);
    NetlocFree(host, port, STRIPPED);
  }

  /** Printed components whose authority can be parsed again have a bare host name. */
  lemma LooseHost(k: Components)
    requires Loose(k) && HostShape(k.host) && Lower(k.host) == k.host && ParseUrl(Print(k)).Some?
    ensures BareHost(Hostname(ParseUrl(Print(k)).value.netloc))
  {
    LooseParsed(k);
    BalancedHost(k.host, k.port);
    NetlocEnds(k.host, k.port);
    LowerNetloc(k.host, k.port);
    BareHostname(Netloc(k.host, k.port));
  }

  /** Whatever URL was normalised: the host name of the result, if it has one, is bare and in lower case. */
  lemma NormalHostIsBare(u: Text, k: Text)
    requires Normalize(u) == Some(k) && ParseUrl(k).Some?
    ensures BareHost(Hostname(ParseUrl(k).value.netloc))
  {
    NormalizeIs(u);
    ReadParsed(u);
    CanonicalLoose(Read(u).value);
    LooseHost(Canonical(Read(u).value));
  }

  // ---- Normal forms that cannot be parsed ----

  lemma LowerKeeps(s: Text, c: Octet)
    requires !IsLetter(c)
    ensures c in Lower(s) <==> c in s
  {
    if c in s {
      var i :| 0 <= i < |s| && s[i] == c;
      assert Lower(s)[i] == c;
    }
    if c in Lower(s) {
      var i :| 0 <= i < |s| && Lower(s)[i] == c;
      assert LowerChar(s[i]) == c;
    }
  }

  lemma UnbalancedIff(host: Text, port: Option<nat>)
    requires HostShape(host)
    ensures Unbalanced(Netloc(Lower(host), port)) <==> HasBracket(host)
  {
    NetlocHas(Lower(host), port, '[');
    NetlocHas(Lower(host), port, ']');
    LowerKeeps(host, '[');
    LowerKeeps(host, ']');
  }

  /** The normal form of a URL cannot be parsed exactly when its host, as the parser reads it, holds a bracket. */
  lemma UnparsableIff(u: Text, k: Text)
    requires Normalize(u) == Some(k)
    ensures Read(u).Some?
    ensures ParseUrl(k).None? <==> HasBracket(Read(u).value.host)
  {
    NormalizeIs(u);
    ReadParsed(u);
    var c := Read(u).value;
    CanonicalLoose(c);
    LooseParsed(Canonical(c));
    UnbalancedIff(c.host, Canonical(c).port);
  }

  // ---- Exactly when normalising is idempotent ----

  /** Digits that print back as they are written, and are no default port of the scheme. */
  predicate PortText(scheme: Text, y: Text) {
    && y != [] && (forall i | 0 <= i < |y| :: IsDigit(y[i]))
    && ParseNat(y) <= 65535 && PrintNat(ParseNat(y)) == y
    && WithoutDefaultPort(scheme, Some(ParseNat(y))).Some?
  }

  /**
   The normalised host survives a second pass: it holds no bracket, and a colon only where it and what follows it
   read as a host with a port of its own.
   */
  predicate StableHost(scheme: Text, host: Text, port: Option<nat>) {
    && !HasBracket(host)
    && (':' in host ==> port.None? && Cut(host, ':').0 != [] && PortText(scheme, Cut(host, ':').1))
  }

  /** An http or https URL the parse step accepts. */
  ghost predicate Http(raw: Text) {
    Read(raw).Some? && HttpScheme(ParseUrl(raw).value.scheme)
  }

  lemma NoBracketFree(host: Text)
    requires Free(host, NETLOC_STOPS) && !HasBracket(host)
    ensures Free(host, HOST_STOPS)
  {
    forall i | 0 <= i < |host|
      ensures host[i] !in HOST_STOPS
    {
      assert host[i] in host && host[i] !in NETLOC_STOPS;
    }
  }

  lemma HttpReadable(raw: Text)
    requires Http(raw) && !HasBracket(Read(raw).value.host)
    ensures Readable(Read(raw).value)
  {
    ReadParsed(raw);
    var p := ParseUrl(raw).value;
    TakenParts(p);
    NoBracketFree(Read(raw).value.host);
    if Read(raw).value.port.Some? {
      PortBound(p.netloc);
    }
  }

  /** The authority of a normalised URL as the second pass reads it. */
  lemma SecondNetloc(k: Components)
    requires Printable(k)
    ensures var netloc := Netloc(k.host, k.port);
      Read(Print(k)) ==
        if Cut(netloc, ':').0 == [] || Port(netloc).None? then None
        else Some(Components(k.scheme, Hostname(netloc), Port(netloc).value, CutParams(k.path), k.query))
  {
    ParsePrinted(k);
    SecondHost(k.host, k.port);
    HttpIsPlain(k.scheme);
    TakenOr(PrintedParts(k));
  }

  lemma TakenOr(p: Parts)
    requires p.scheme != []
    ensures Take(p) == if Hostname(p.netloc) == [] || Port(p.netloc).None? then None
                       else Some(Components(p.scheme, Hostname(p.netloc), Port(p.netloc).value, p.path, p.query))
  {
  }

  lemma SecondHost(host: Text, port: Option<nat>)
    requires Free(host, HOST_STOPS)
    ensures HostInfo(Netloc(host, port)) == Cut(Netloc(host, port), ':')
    ensures Hostname(Netloc(host, port)) == [] <==> Cut(Netloc(host, port), ':').0 == []
  {
    NoUserinfo(host, port);
    HostnameLength(Netloc(host, port));
  }

  lemma HostnameLength(netloc: Text)
    ensures |Hostname(netloc)| == |HostInfo(netloc).0|
  {
  }

  /** A lower-case authority without brackets: the second pass reads its host as written. */
  lemma SecondHostname(host: Text, port: Option<nat>)
    requires Free(host, HOST_STOPS) && Lower(host) == host
    ensures Hostname(Netloc(host, port)) == Cut(Netloc(host, port), ':').0
  {
    NoUserinfo(host, port);
    LowerNetloc(host, port);
    LowerCut(Netloc(host, port), ':');
    HostnameReads(Netloc(host, port));
  }

  /** With a colon in the host, and a port, the second pass finds no valid port. */
  lemma ColonAndPort(host: Text, port: nat)
    requires Free(host, HOST_STOPS) && ':' in host
    ensures Port(Netloc(host, Some(port))).None?
  {
    var netloc := Netloc(host, Some(port));
    var i :| 0 <= i < |host| && host[i] == ':';
    assert netloc[i] == ':' && netloc[|host|] == ':';
    NoUserinfo(host, Some(port));
    var m := CutLeaves(netloc, ':', i, |host|);
    BadPort(netloc, m);
  }

  /** Where the second pass splits a host with a colon and without a port. */
  lemma SplitPort(host: Text)
    requires Free(host, HOST_STOPS)
    ensures HostInfo(host).1 == Cut(host, ':').1
  {
    NoUserinfo(host, None);
  }

  /** What is printed again after `x`. */
  lemma PortPrintsBack(x: Text, y: Text, port: Option<nat>)
    ensures Netloc(x, port) == x + ([':'] + y) <==> port.Some? && PrintNat(port.value) == y
  {
    if port.Some? {
      SameFront(x, [':'] + PrintNat(port.value), [':'] + y);
      SameFront([':'], PrintNat(port.value), y);
    } else {
      assert |x + ([':'] + y)| > |x|;
    }
  }

  lemma PortTextIff(scheme: Text, netloc: Text, port: Option<nat>)
    requires Port(netloc).Some? && port == WithoutDefaultPort(scheme, Port(netloc).value)
    ensures port.Some? && PrintNat(port.value) == HostInfo(netloc).1 <==> PortText(scheme, HostInfo(netloc).1)
  {
  }

  /** What a host with a colon and without a port becomes: `port` is what is printed after the second pass. */
  lemma ColonAlone(scheme: Text, host: Text, port: Option<nat>)
    requires Free(host, HOST_STOPS) && ':' in host && Cut(host, ':').0 != []
    requires Port(host).Some? && port == WithoutDefaultPort(scheme, Port(host).value)
    ensures Netloc(Cut(host, ':').0, port) == host <==> PortText(scheme, Cut(host, ':').1)
  {
    var (x, y) := Cut(host, ':');
    SplitPort(host);
    CutJoins(host, ':');
    PortPrintsBack(x, y, port);
    PortTextIff(scheme, host, port);
  }

  lemma SplitAt(s: Text, n: nat)
    requires n < |s|
    ensures s == s[..n] + ([s[n]] + s[n + 1..])
  {
  }

  lemma CutJoins(s: Text, c: Octet)
    requires c in s
    ensures s == Cut(s, c).0 + ([c] + Cut(s, c).1) && |Cut(s, c).0| < |s|
  {
    var n := Span(s, {c});
    assert n < |s| by { FreeIsNotIn(s, c); }
    SplitAt(s, n);
  }

  /** The components the second pass makes of a host with a colon and no port. */
  function Resplit(k: Components): Components
    requires Port(k.host).Some?
  {
    Components(k.scheme, Cut(k.host, ':').0, WithoutDefaultPort(k.scheme, Port(k.host).value),
               SecondPath(k.path), k.query)
  }

  /** Components as the pipeline leaves them. */
  ghost predicate Normalized(k: Components) {
    && Printable(k) && k.host != [] && Lower(k.host) == k.host
    && NormalQuery(k.query) == k.query && WithoutDefaultPort(k.scheme, k.port) == k.port
  }

  lemma ResplitPrintable(k: Components)
    requires Normalized(k) && Port(k.host).Some?
    ensures Printable(Resplit(k)) && Lower(Resplit(k).host) == Resplit(k).host
  {
    CutFree(k.host, ':', HOST_STOPS);
    LowerCut(k.host, ':');
    if Port(k.host).value.Some? {
      PortBound(k.host);
    }
    SecondPathPrintable(k.path);
  }

  lemma SecondPathPrintable(path: Text)
    requires Rooted(path) && Free(path, PATH_STOPS)
    ensures Rooted(SecondPath(path)) && Free(SecondPath(path), PATH_STOPS)
  {
    RootedCut(path);
    FreeSlice(path, PATH_STOPS, 0, |CutParams(path)|);
    assert CutParams(path) == path[0..|CutParams(path)|];
    NormalPathFree(CutParams(path));
  }

  /** A host without a colon reads back: only the path can change. */
  lemma NoColonTwice(k: Components)
    requires Normalized(k) && ':' !in k.host
    ensures Normalize(Print(k)) == Some(Print(k)) <==> SecondPath(k.path) == k.path
  {
    FreeIsNotIn(k.host, ':');
    PrintedReads(k);
    NormalizeIs(Print(k));
    HttpIsPlain(k.scheme);
    SecondPathPrintable(k.path);
    assert Canonical(k.(path := CutParams(k.path))) == k.(path := SecondPath(k.path));
    if Normalize(Print(k)) == Some(Print(k)) {
      PathFromPrint(k, SecondPath(k.path));
    }
  }

  /** A host with a colon is split at it by the second pass, or the URL is rejected. */
  lemma ColonTwice(k: Components)
    requires Normalized(k) && ':' in k.host && k.port.None?
    ensures Normalize(Print(k)) ==
            if Cut(k.host, ':').0 == [] || Port(k.host).None? then None else Some(Print(Resplit(k)))
  {
    NormalizeIs(Print(k));
    SecondNetloc(k);
    SecondHostname(k.host, None);
    HttpIsPlain(k.scheme);
    LowerCut(k.host, ':');
  }

  lemma SamePrintIff(k: Components, l: Components)
    requires Printable(k) && Printable(l) && k.scheme == l.scheme && k.query == l.query
    ensures Print(k) == Print(l) <==> Netloc(k.host, k.port) == Netloc(l.host, l.port) && k.path == l.path
  {
    var m := k.(path := l.path);
    if Print(k) == Print(l) {
      ParsePrinted(k);
      ParsePrinted(l);
      assert Print(m) == Print(l);
      PathFromPrint(k, l.path);
    }
  }

  lemma PortTextIsPort(scheme: Text, host: Text)
    requires Free(host, HOST_STOPS) && PortText(scheme, Cut(host, ':').1)
    ensures Port(host).Some?
  {
    NoUserinfo(host, None);
  }

  /** Printed components survive a second pass exactly when host and path do. */
  lemma PrintedTwiceIff(k: Components)
    requires Normalized(k)
    ensures Normalize(Print(k)) == Some(Print(k)) <==>
            StableHost(k.scheme, k.host, k.port) && SecondPath(k.path) == k.path
  {
    NoBracketInHost(k.host);
    if ':' !in k.host {
      NoColonTwice(k);
    } else if k.port.Some? {
      ColonAndPort(k.host, k.port.value);
      NormalizeIs(Print(k));
      SecondNetloc(k);
    } else {
      ColonTwice(k);
      if Cut(k.host, ':').0 != [] && Port(k.host).Some? {
        ResplitPrintable(k);
        SamePrintIff(k, Resplit(k));
        ColonAlone(k.scheme, k.host, Resplit(k).port);
      } else if PortText(k.scheme, Cut(k.host, ':').1) {
        PortTextIsPort(k.scheme, k.host);
      }
    }
  }

  lemma NoBracketInHost(host: Text)
    requires Free(host, HOST_STOPS)
    ensures !HasBracket(host)
  {
    assert forall i | 0 <= i < |host| :: host[i] != '[' && host[i] != ']';
  }

  lemma CanonicalNormalized(c: Components)
    requires Readable(c)
    ensures Normalized(Canonical(c))
  {
    CanonicalPrintable(c);
    QueryCanonical(c.query, c.query);
    assert Lower(c.scheme) == c.scheme;
  }

  /**
   For every http or https URL, bracketed hosts included: normalising twice is normalising once exactly when the
   normalised host survives and the parsed path is stable.
   */
  lemma HttpIdempotentIff(raw: Text, v: Text)
    requires Http(raw) && Normalize(raw) == Some(v)
    ensures var k := Canonical(Read(raw).value);
      Normalize(v) == Some(v) <==> StableHost(k.scheme, k.host, k.port) && StablePath(ParseUrl(raw).value.path)
  {
    var c := Read(raw).value;
    var k := Canonical(c);
    NormalizeIs(raw);
    LowerKeeps(c.host, '[');
    LowerKeeps(c.host, ']');
    if HasBracket(c.host) {
      UnparsableIff(raw, v);
      NormalizeIs(v);
    } else {
      HttpReadable(raw);
      CanonicalNormalized(c);
      PrintedTwiceIff(k);
      TakenParts(ParseUrl(raw).value);
      PathSettlesIff(c.path);
    }
  }

  // ---- Two URLs ----

  /** `http://[h]/`, with `h` in lower case. */
  function Bracketed(h: Text): Components {
    Components("http", ['['] + h + [']'], None, "/", "")
  }

  function Bare(h: Text): Components {
    Components("http", h, None, "/", "")
  }

  lemma BracketedInfo(h: Text)
    requires Free(h, {']'}) && Free(h, {'@'})
    ensures HostInfo(['['] + h + [']']) == (h, [])
  {
    var netloc := ['['] + h + [']'];
    FreeConcat(['['], h, {'@'});
    FreeConcat(['['] + h, [']'], {'@'});
    AfterLastIs([], netloc, '@');
    SpanIs(netloc, {'['}, 0);
    assert netloc[1..] == h + ([']'] + []);
    CutReads(h, [], ']');
    CutReads([], [], ':');
  }

  lemma BracketedParses(h: Text)
    requires Free(h, NETLOC_STOPS)
    ensures ParseUrl(Print(Bracketed(h))) == Some(PrintedParts(Bracketed(h)))
  {
    var netloc := ['['] + h + [']'];
    FreeConcat(['['], h, NETLOC_STOPS);
    FreeConcat(['['] + h, [']'], NETLOC_STOPS);
    HttpIsPlain("http");
    LooseParsed(Bracketed(h));
    assert netloc[0] == '[' && netloc[|h| + 1] == ']';
  }

  lemma RootCut()
    ensures CutParams("/") == "/"
  {
    assert LastBefore("/", 1, '/') == 1;
    assert SpanFrom("/", 1, {';'}) == 1;
  }

  lemma EmptyQuery()
    ensures NormalQuery("") == ""
  {
    assert Split([], '&') == [[]];
    assert ParseFields([[]]) == ParseFields([[]][1..]);
  }

  lemma RootNormal()
    ensures NormalPath("/") == "/"
  {
    SlashAlone();
    assert "/" == ['/'];
  }

  lemma BracketedTakes(h: Text)
    requires h != [] && Free(h, {'@'}) && Free(h, {']'}) && Lower(h) == h
    ensures Take(PrintedParts(Bracketed(h))) == Some(Bare(h))
  {
    BracketedInfo(h);
    HostnameReads(['['] + h + [']']);
    RootCut();
    TakenFrom(PrintedParts(Bracketed(h)), None);
  }

  lemma BracketedReads(h: Text)
    requires h != [] && Free(h, NETLOC_STOPS) && Free(h, {']'}) && Lower(h) == h
    ensures Read(Print(Bracketed(h))) == Some(Bare(h))
  {
    FreeLess(h, NETLOC_STOPS, {'@'});
    BracketedParses(h);
    BracketedTakes(h);
  }

  lemma BareCanonical(h: Text)
    requires Lower(h) == h
    ensures Canonical(Bare(h)) == Bare(h)
  {
    RootNormal();
    EmptyQuery();
    HttpIsPlain("http");
  }

  /** A bracketed host loses its brackets and nothing else. */
  lemma BracketedNormalizes(h: Text)
    requires h != [] && Free(h, NETLOC_STOPS) && Free(h, {']'}) && Lower(h) == h
    ensures Read(Print(Bracketed(h))) == Some(Bare(h)) && Normalize(Print(Bracketed(h))) == Some(Print(Bare(h)))
  {
    BracketedReads(h);
    BareCanonical(h);
    NormalizeIs(Print(Bracketed(h)));
  }

  lemma BareParses(h: Text)
    requires Free(h, NETLOC_STOPS)
    ensures ParseUrl(Print(Bare(h))) == if Unbalanced(h) then None else Some(PrintedParts(Bare(h)))
  {
    HttpIsPlain("http");
    LooseParsed(Bare(h));
  }

  const FUTURE: Text := "v1.a[b"

  lemma FuturePrints()
    ensures Print(Bracketed(FUTURE)) == "http://[v1.a[b]/" && Print(Bare(FUTURE)) == "http://v1.a[b/"
  {
  }

  lemma FutureShape()
    ensures Free(FUTURE, NETLOC_STOPS) && Free(FUTURE, {']'}) && Lower(FUTURE) == FUTURE && Unbalanced(FUTURE)
  {
    assert FUTURE[4] == '[';
  }

  /** The normaliser accepts this link and makes of it something that cannot be parsed. */
  lemma BracketSurvives()
    ensures Normalize("http://[v1.a[b]/") == Some("http://v1.a[b/") && ParseUrl("http://v1.a[b/").None?
  {
    FuturePrints();
    FutureShape();
    BracketedNormalizes(FUTURE);
    BareParses(FUTURE);
  }

  const LOOPBACK: Text := "::1"

  lemma LoopbackPrints()
    ensures Print(Bracketed(LOOPBACK)) == "http://[::1]/" && Print(Bare(LOOPBACK)) == "http://::1/"
  {
  }

  lemma LoopbackShape()
    ensures Free(LOOPBACK, NETLOC_STOPS) && Free(LOOPBACK, {']'}) && Lower(LOOPBACK) == LOOPBACK
    ensures Readable(Bare(LOOPBACK)) && LOOPBACK[0] == ':' && LOOPBACK[1] == ':'
  {
  }

  /** An address is normalised to something the second pass rejects. */
  lemma AddressRejected()
    ensures Normalize("http://[::1]/") == Some("http://::1/") && Normalize("http://::1/") == None
  {
    LoopbackPrints();
    LoopbackShape();
    BracketedNormalizes(LOOPBACK);
    AddressLosesBrackets("http://[::1]/", "http://::1/", 0, 1);
  }
}

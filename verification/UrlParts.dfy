/**
 The parts of `urllib.parse` the normaliser relies on, for http and https URLs: `urlparse` with its `hostname`
 and `port` properties, and `urlunparse`.
 */
module UrlParts {
  import opened Wrappers
  import opened Text

  datatype Parts = Parts(scheme: Text, netloc: Text, path: Text, params: Text, query: Text, fragment: Text)

  const STRIPPED: set<char> := {'\t', '\r', '\n'}

  function StripLeft(u: Text): Text {
    if u != [] && u[0] <= ' ' then StripLeft(u[1..]) else u
  }

  function Remove(u: Text, drop: set<char>): (r: Text)
    ensures Free(r, drop) && (Free(u, drop) ==> r == u)
  {
    if u == [] then [] else
    var rest := Remove(u[1..], drop);
    assert Free(u, drop) ==> Free(u[1..], drop);
    if u[0] in drop then rest else [u[0]] + rest
  }

  /** Leading blanks and control characters go, tabs and line breaks go everywhere. */
  function Clean(u: Text): (r: Text)
    ensures Free(r, STRIPPED)
  {
    Remove(StripLeft(u), STRIPPED)
  }

  predicate SchemeChar(c: char) {
    IsLetter(c) || IsDigit(c) || c == '+' || c == '-' || c == '.'
  }

  /** The scheme, and what follows its colon. */
  function CutScheme(u: Text): (Text, Text) {
    var i := Span(u, {':'});
    if 0 < i < |u| && IsLetter(u[0]) && forall j | 0 <= j < i :: SchemeChar(u[j]) then (Lower(u[..i]), u[i + 1..])
    else ([], u)
  }

  /** The authority after two slashes, and what follows it. */
  function CutNetloc(u: Text): (Text, Text) {
    if |u| >= 2 && u[0] == '/' && u[1] == '/' then
      var i := Span(u[2..], {'/', '?', '#'});
      (u[2..][..i], u[2..][i..])
    else ([], u)
  }

  /** Before the first `c`, and after it. */
  function Cut(s: Text, c: Octet): (Text, Text) {
    var i := Span(s, {c});
    (s[..i], if i < |s| then s[i + 1..] else [])
  }

  /** The position after the last `c` before `n`, or 0. */
  function LastBefore(s: Text, n: nat, c: Octet): (i: nat)
    requires n <= |s|
    ensures i <= n && (forall j | i <= j < n :: s[j] != c) && (i > 0 ==> s[i - 1] == c)
  {
    if n == 0 || s[n - 1] == c then n else LastBefore(s, n - 1, c)
  }

  /** After the last `c`, or everything. */
  function AfterLast(s: Text, c: Octet): Text {
    s[LastBefore(s, |s|, c)..]
  }

  lemma AfterLastIs(a: Text, b: Text, c: Octet)
    requires Free(b, {c})
    ensures AfterLast(a + [c] + b, c) == b
    ensures AfterLast(b, c) == b
  {
    var s := a + [c] + b;
    var i := LastBefore(s, |s|, c);
    assert s[|a|] == c;
    forall j | |a| < j < |s|
      ensures s[j] != c
    {
      assert s[j] == b[j - |a| - 1];
    }
    assert i == |a| + 1;
    assert s[|a| + 1..] == b;
    assert LastBefore(b, |b|, c) == 0;
  }

  /** Where the parameters of the last segment start, or the end of the path. */
  function ParamsAt(path: Text): (n: nat)
    ensures n <= |path|
  {
    SpanFrom(path, LastBefore(path, |path|, '/'), {';'})
  }

  /** The path without the parameters of its last segment. */
  function CutParams(path: Text): Text {
    path[..ParamsAt(path)]
  }

  function ParamsOf(path: Text): Text {
    if ParamsAt(path) < |path| then path[ParamsAt(path) + 1..] else []
  }

  /** Nothing is cut exactly when the last segment has no semicolon. */
  lemma CutParamsFacts(path: Text)
    ensures CutParams(path) == path <==> ParamsAt(path) == |path|
    ensures ParamsAt(path) == |path| <==> Free(AfterLast(path, '/'), {';'})
  {
    var (k, n) := (LastBefore(path, |path|, '/'), ParamsAt(path));
    var segment := AfterLast(path, '/');
    if n < |path| {
      assert segment[n - k] == ';';
    } else {
      assert path[..n] == path;
      assert forall i | 0 <= i < |segment| :: segment[i] == path[k + i];
    }
  }

  predicate HasBracket(s: Text) {
    '[' in s || ']' in s
  }

  /** The authority has a bracket of one kind only; `urlparse` raises. */
  predicate Unbalanced(netloc: Text) {
    ('[' in netloc) != (']' in netloc)
  }

  /** `urlparse`; None where it raises. */
  function ParseUrl(raw: Text): Option<Parts> {
    var (scheme, u1) := CutScheme(Clean(raw));
    var (netloc, u2) := CutNetloc(u1);
    if Unbalanced(netloc) then None else
    var (u3, fragment) := Cut(u2, '#');
    var (path, query) := Cut(u3, '?');
    Some(Parts(scheme, netloc, CutParams(path), ParamsOf(path), query, fragment))
  }

  /** The host in an authority without user information: in brackets if there is one, else up to a colon. */
  function InfoHost(info: Text): Text {
    var open := Span(info, {'['});
    if open < |info| then Cut(info[open + 1..], ']').0 else Cut(info, ':').0
  }

  function InfoPort(info: Text): Text {
    var open := Span(info, {'['});
    if open < |info| then Cut(Cut(info[open + 1..], ']').1, ':').1 else Cut(info, ':').1
  }

  /** Host and port as written. */
  function HostInfo(netloc: Text): (Text, Text) {
    (InfoHost(AfterLast(netloc, '@')), InfoPort(AfterLast(netloc, '@')))
  }

  /** The `hostname` property: lower-cased up to a zone identifier; empty where the property is None. */
  function Hostname(netloc: Text): Text {
    var host := HostInfo(netloc).0;
    var i := Span(host, {'%'});
    Lower(host[..i]) + host[i..]
  }

  /** The `port` property; None where it raises. */
  function Port(netloc: Text): Option<Option<nat>> {
    var port := HostInfo(netloc).1;
    if port == [] then Some(None)
    else if forall i | 0 <= i < |port| :: IsDigit(port[i]) then
      if ParseNat(port) <= 65535 then Some(Some(ParseNat(port))) else None
    else None
  }

  // ---- Printing ----

  /** The components a normalised URL is rebuilt from. */
  datatype Components = Components(scheme: Text, host: Text, port: Option<nat>, path: Text, query: Text)

  function Netloc(host: Text, port: Option<nat>): Text {
    if port.Some? then host + ([':'] + PrintNat(port.value)) else host
  }

  function Tail(query: Text): Text {
    if query == [] then [] else ['?'] + query
  }

  /** `NormalizationPipeline._reconstruct`, that is `urlunparse` on a non-empty authority. */
  function Print(c: Components): Text {
    var path := if c.path != [] && c.path[0] != '/' then ['/'] + c.path else c.path;
    c.scheme + ([':'] + (['/', '/'] + (Netloc(c.host, c.port) + (path + Tail(c.query)))))
  }

  // ---- Reading back what was printed ----

  const NETLOC_ENDS: set<char> := {'/', '?', '#'}
  const NETLOC_STOPS: set<char> := {'/', '?', '#', '@', '\t', '\r', '\n'}
  const HOST_STOPS: set<char> := {'/', '?', '#', '@', '[', ']', '\t', '\r', '\n'}
  const PATH_STOPS: set<char> := {'?', '#', '\t', '\r', '\n'}
  const QUERY_STOPS: set<char> := {'#', '\t', '\r', '\n'}

  predicate HttpScheme(s: Text) {
    s == "http" || s == "https"
  }

  /** A scheme as the parser gives it. */
  predicate PlainScheme(s: Text) {
    s != [] && IsLetter(s[0]) && Lower(s) == s && forall i | 0 <= i < |s| :: SchemeChar(s[i])
  }

  /** A path as it stands after an authority. */
  predicate Rooted(path: Text) {
    path == [] || path[0] == '/'
  }

  /** Components that the parser gave and no step spoilt; the host may hold a stray bracket. */
  ghost predicate Loose(c: Components) {
    && PlainScheme(c.scheme) && Free(c.host, NETLOC_STOPS)
    && Rooted(c.path) && Free(c.path, PATH_STOPS) && Free(c.query, QUERY_STOPS)
  }

  /** The same of an http URL without brackets. */
  ghost predicate Printable(c: Components) {
    && HttpScheme(c.scheme) && Free(c.host, HOST_STOPS) && (c.port.Some? ==> c.port.value <= 65535)
    && Rooted(c.path) && Free(c.path, PATH_STOPS) && Free(c.query, QUERY_STOPS)
  }

  lemma HttpIsPlain(s: Text)
    requires HttpScheme(s)
    ensures PlainScheme(s)
  {
    var t: Text := "https";
    assert forall i | 0 <= i < |t| :: SchemeChar(t[i]);
    assert forall i | 0 <= i < |s| :: s[i] == 's' || s[i] == t[i];
    assert Lower(s) == s;
  }

  lemma PrintableIsLoose(c: Components)
    requires Printable(c)
    ensures Loose(c)
  {
    HttpIsPlain(c.scheme);
    FreeLess(c.host, HOST_STOPS, NETLOC_STOPS);
  }

  lemma NumberFree(n: nat, stop: set<char>)
    requires forall c | c in stop :: !IsDigit(c)
    ensures Free(PrintNat(n), stop)
  {
    forall i | 0 <= i < |PrintNat(n)|
      ensures PrintNat(n)[i] !in stop
    {
      assert IsDigit(PrintNat(n)[i]);
    }
  }

  /** A number and its colon bring no other delimiter into an authority. */
  lemma NetlocFree(host: Text, port: Option<nat>, stop: set<char>)
    requires Free(host, stop) && ':' !in stop && forall c | c in stop :: !IsDigit(c)
    ensures Free(Netloc(host, port), stop)
  {
    if port.Some? {
      NumberFree(port.value, stop);
      FreeConcat([':'], PrintNat(port.value), stop);
      FreeConcat(host, [':'] + PrintNat(port.value), stop);
    }
  }

  /** Nor does it take one away. */
  lemma NetlocHas(host: Text, port: Option<nat>, c: Octet)
    requires c != ':' && !IsDigit(c)
    ensures c in Netloc(host, port) <==> c in host
  {
    if port.Some? {
      assert forall i | 0 <= i < |PrintNat(port.value)| :: IsDigit(PrintNat(port.value)[i]);
    }
  }

  lemma PlainSchemeFree(scheme: Text, stop: set<char>)
    requires PlainScheme(scheme) && forall c | c in stop :: !SchemeChar(c)
    ensures Free(scheme, stop)
  {
    forall i | 0 <= i < |scheme|
      ensures scheme[i] !in stop
    {
      assert SchemeChar(scheme[i]);
    }
  }

  /** What follows the authority. */
  function Rest(c: Components): Text {
    c.path + Tail(c.query)
  }

  /** What follows the colon of the scheme. */
  function Hierarchy(c: Components): Text {
    ['/', '/'] + (Netloc(c.host, c.port) + Rest(c))
  }

  lemma PrintIs(c: Components)
    requires Rooted(c.path)
    ensures Print(c) == c.scheme + ([':'] + Hierarchy(c))
  {
  }

  lemma RestFree(c: Components, stop: set<char>)
    requires Free(c.path, stop) && Free(c.query, stop) && '?' !in stop
    ensures Free(Rest(c), stop)
  {
    FreeConcat(['?'], c.query, stop);
    FreeConcat(c.path, Tail(c.query), stop);
  }

  lemma HierarchyFree(c: Components)
    requires Loose(c)
    ensures Free(Hierarchy(c), STRIPPED)
  {
    FreeLess(c.host, NETLOC_STOPS, STRIPPED);
    NetlocFree(c.host, c.port, STRIPPED);
    FreeLess(c.path, PATH_STOPS, STRIPPED);
    FreeLess(c.query, QUERY_STOPS, STRIPPED);
    RestFree(c, STRIPPED);
    FreeConcat(Netloc(c.host, c.port), Rest(c), STRIPPED);
    FreeConcat(['/', '/'], Netloc(c.host, c.port) + Rest(c), STRIPPED);
  }

  lemma CleanAlready(u: Text)
    requires u != [] && u[0] > ' ' && Free(u, STRIPPED)
    ensures Clean(u) == u
  {
  }

  lemma PrintedClean(c: Components)
    requires Loose(c)
    ensures Clean(Print(c)) == Print(c)
  {
    PrintIs(c);
    HierarchyFree(c);
    PlainSchemeFree(c.scheme, STRIPPED);
    FreeConcat([':'], Hierarchy(c), STRIPPED);
    FreeConcat(c.scheme, [':'] + Hierarchy(c), STRIPPED);
    assert Print(c)[0] == c.scheme[0];
    CleanAlready(Print(c));
  }

  lemma SchemeReads(scheme: Text, rest: Text)
    requires PlainScheme(scheme)
    ensures CutScheme(scheme + ([':'] + rest)) == (scheme, rest)
  {
    var u := scheme + ([':'] + rest);
    PlainSchemeFree(scheme, {':'});
    SpanConcat(scheme, [':'] + rest, {':'});
    assert u[..|scheme|] == scheme && u[|scheme| + 1..] == rest;
    assert forall j | 0 <= j < |scheme| :: u[j] == scheme[j];
  }

  lemma NetlocReads(netloc: Text, rest: Text)
    requires Free(netloc, NETLOC_ENDS) && (rest == [] || rest[0] in NETLOC_ENDS)
    ensures CutNetloc(['/', '/'] + (netloc + rest)) == (netloc, rest)
  {
    var u := ['/', '/'] + (netloc + rest);
    assert u[2..] == netloc + rest;
    SpanConcat(netloc, rest, NETLOC_ENDS);
    assert (netloc + rest)[..|netloc|] == netloc && (netloc + rest)[|netloc|..] == rest;
  }

  lemma CutReads(a: Text, b: Text, c: Octet)
    requires Free(a, {c})
    ensures Cut(a, c) == (a, [])
    ensures Cut(a + ([c] + b), c) == (a, b)
  {
    SpanConcat(a, [], {c});
    assert a + [] == a;
    var s := a + ([c] + b);
    SpanConcat(a, [c] + b, {c});
    assert s[..|a|] == a && s[|a| + 1..] == b;
  }

  lemma RestReads(c: Components)
    requires Rooted(c.path) && Free(c.path, PATH_STOPS) && Free(c.query, QUERY_STOPS)
    ensures Cut(Rest(c), '#') == (Rest(c), []) && Cut(Rest(c), '?') == (c.path, c.query)
    ensures Rest(c) == [] || Rest(c)[0] in NETLOC_ENDS
  {
    FreeLess(c.path, PATH_STOPS, {'#'});
    FreeLess(c.path, PATH_STOPS, {'?'});
    FreeLess(c.query, QUERY_STOPS, {'#'});
    RestFree(c, {'#'});
    CutReads(Rest(c), [], '#');
    CutReads(c.path, c.query, '?');
    assert c.query == [] ==> Rest(c) == c.path;
  }

  /** The parts `Print(c)` is made of. */
  function PrintedParts(c: Components): Parts {
    Parts(c.scheme, Netloc(c.host, c.port), CutParams(c.path), ParamsOf(c.path), c.query, [])
  }

  lemma LooseParsed(c: Components)
    requires Loose(c)
    ensures ParseUrl(Print(c)) == if Unbalanced(Netloc(c.host, c.port)) then None else Some(PrintedParts(c))
  {
    PrintedClean(c);
    PrintIs(c);
    SchemeReads(c.scheme, Hierarchy(c));
    FreeLess(c.host, NETLOC_STOPS, NETLOC_ENDS);
    NetlocFree(c.host, c.port, NETLOC_ENDS);
    RestReads(c);
    NetlocReads(Netloc(c.host, c.port), Rest(c));
  }

  lemma NoBracket(host: Text, port: Option<nat>)
    requires Free(host, HOST_STOPS)
    ensures !HasBracket(Netloc(host, port))
  {
    NetlocHas(host, port, '[');
    NetlocHas(host, port, ']');
    assert forall i | 0 <= i < |host| :: host[i] != '[' && host[i] != ']';
  }

  /** The parser gives back the authority, the path up to its parameters, and the query. */
  lemma ParsePrinted(c: Components)
    requires Printable(c)
    ensures ParseUrl(Print(c)) == Some(PrintedParts(c))
  {
    PrintableIsLoose(c);
    LooseParsed(c);
    NoBracket(c.host, c.port);
  }

  lemma HostInfoReads(host: Text, port: Option<nat>)
    requires Free(host, HOST_STOPS) && Free(host, {':'})
    ensures HostInfo(Netloc(host, port)) == (host, if port.Some? then PrintNat(port.value) else [])
  {
    NoUserinfo(host, port);
    CutReads(host, if port.Some? then PrintNat(port.value) else [], ':');
  }

  lemma PortReads(netloc: Text, port: Option<nat>)
    requires HostInfo(netloc).1 == (if port.Some? then PrintNat(port.value) else [])
    requires port.Some? ==> port.value <= 65535
    ensures Port(netloc) == Some(port)
  {
    if port.Some? {
      ParsePrint(port.value);
    }
  }

  lemma HostnameReads(netloc: Text)
    requires Lower(HostInfo(netloc).0) == HostInfo(netloc).0
    ensures Hostname(netloc) == HostInfo(netloc).0
  {
    LowerFront(HostInfo(netloc).0, Span(HostInfo(netloc).0, {'%'}));
  }

  /** The authority reads back too, as long as the host has no colon. */
  lemma HostReads(host: Text, port: Option<nat>)
    requires Free(host, HOST_STOPS) && Free(host, {':'})
    requires Lower(host) == host && (port.Some? ==> port.value <= 65535)
    ensures Hostname(Netloc(host, port)) == host && Port(Netloc(host, port)) == Some(port)
  {
    HostInfoReads(host, port);
    HostnameReads(Netloc(host, port));
    PortReads(Netloc(host, port), port);
  }

  /** Lower-case text has lower-case slices. */
  lemma LowerSlice(s: Text, i: nat, j: nat)
    requires i <= j <= |s| && Lower(s) == s
    ensures Lower(s[i..j]) == s[i..j]
  {
    forall n | 0 <= n < j - i
      ensures Lower(s[i..j])[n] == s[i..j][n]
    {
      assert s[i..j][n] == s[i + n];
      assert Lower(s)[i + n] == LowerChar(s[i + n]);
    }
  }

  lemma LowerFront(s: Text, i: nat)
    requires i <= |s| && Lower(s) == s
    ensures Lower(s[..i]) + s[i..] == s
  {
    assert s[..i] == s[0..i];
    LowerSlice(s, 0, i);
    assert s[..i] + s[i..] == s;
  }

  lemma PlainInfo(info: Text)
    requires Free(info, {'['})
    ensures InfoHost(info) == Cut(info, ':').0 && InfoPort(info) == Cut(info, ':').1
  {
    SpanIs(info, {'['}, |info|);
  }

  lemma NoUserinfo(host: Text, port: Option<nat>)
    requires Free(host, HOST_STOPS)
    ensures HostInfo(Netloc(host, port)) == Cut(Netloc(host, port), ':')
  {
    var netloc := Netloc(host, port);
    FreeLess(host, HOST_STOPS, {'@'});
    NetlocFree(host, port, {'@'});
    AfterLastIs([], netloc, '@');
    FreeLess(host, HOST_STOPS, {'['});
    NetlocFree(host, port, {'['});
    PlainInfo(netloc);
  }

  /** What follows the first `c` still has the second one. */
  lemma CutLeaves(s: Text, c: Octet, i: nat, j: nat) returns (m: nat)
    requires i < j < |s| && s[i] == c && s[j] == c
    ensures m < |Cut(s, c).1| && Cut(s, c).1[m] == c
  {
    var n := Span(s, {c});
    m := j - n - 1;
  }

  lemma BadPort(netloc: Text, m: nat)
    requires m < |HostInfo(netloc).1| && HostInfo(netloc).1[m] == ':'
    ensures Port(netloc) == None
  {
    assert !IsDigit(HostInfo(netloc).1[m]);
  }

  /**
   A host with two colons, which only an address in brackets can give, is lost: without its brackets the printed
   URL has no valid port.
   */
  lemma ColonsDoNotReadBack(host: Text, port: Option<nat>, i: nat, j: nat)
    requires Free(host, HOST_STOPS)
    requires i < j < |host| && host[i] == ':' && host[j] == ':'
    ensures Port(Netloc(host, port)) == None
  {
    NoUserinfo(host, port);
    var m := CutLeaves(Netloc(host, port), ':', i, j);
    BadPort(Netloc(host, port), m);
  }

  lemma PathFromPrint(c: Components, path: Text)
    requires Rooted(c.path) && Rooted(path) && Print(c) == Print(c.(path := path))
    ensures path == c.path
  {
    var (front, netloc, tail) := (c.scheme + [':'], ['/', '/'] + Netloc(c.host, c.port), Tail(c.query));
    PrintIs(c);
    PrintIs(c.(path := path));
    assert Print(c) == front + (netloc + (c.path + tail));
    assert Print(c.(path := path)) == front + (netloc + (path + tail));
    SameFront(front, netloc + (c.path + tail), netloc + (path + tail));
    SameFront(netloc, c.path + tail, path + tail);
    SameEnding(c.path, path, tail);
  }
}

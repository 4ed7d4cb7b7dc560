/** The rules of the normaliser on particular URLs, and what it rejects. */
module UrlExamples {
  import opened Wrappers
  import opened Text
  import opened PercentEncoding
  import opened Query
  import opened UrlParts
  import opened Normalizer
  import opened Idempotence
  import opened Brackets
  import opened WrittenUrls

  // ---- What is rejected ----

  /** A URL without a colon, a relative one for instance, has no scheme and is rejected. */
  lemma NoColonRejected(u: Text)
    requires Free(u, {':'})
    ensures Normalize(u) == None
  {
    CleanFree(u, {':'});
    SpanIs(Clean(u), {':'}, |Clean(u)|);
    NormalizeIs(u);
  }

  const NO_HOST: Text := "http:///"

  lemma NoHostPlain()
    ensures NO_HOST != [] && NO_HOST[0] > ' ' && Free(NO_HOST, STRIPPED)
  {
  }

  lemma NoHostClean(rest: Text)
    ensures Clean(NO_HOST + rest) == NO_HOST + Remove(rest, STRIPPED)
  {
    NoHostPlain();
    StripLeftConcat(NO_HOST, rest);
    RemoveConcat(NO_HOST, rest, STRIPPED);
  }

  lemma NoHostSpelled(rest: Text)
    ensures NO_HOST + rest == "http" + ([':'] + (['/', '/'] + ([] + (['/'] + rest))))
  {
  }

  /** So is one without a host, whatever follows. */
  lemma NoHostRejected(rest: Text)
    ensures Normalize(NO_HOST + rest) == None
  {
    var tail := Remove(rest, STRIPPED);
    NoHostClean(rest);
    NoHostSpelled(tail);
    HttpIsPlain("http");
    SchemeReads("http", ['/', '/'] + ([] + (['/'] + tail)));
    NetlocReads([], ['/'] + tail);
    EmptyNetloc();
    NormalizeIs(NO_HOST + rest);
  }

  // ---- Ports ----

  /** A host name in lower case. */
  ghost predicate HostName(h: Text) {
    h != [] && Free(h, HOST_STOPS) && Free(h, {':'}) && Lower(h) == h
  }

  /** The root of a host. */
  function Root(scheme: Text, h: Text, port: Option<nat>): Text {
    scheme + "://" + Netloc(h, port) + "/"
  }

  lemma RootSpelled(scheme: Text, h: Text, port: Option<nat>)
    ensures Spell(Written(scheme, None, h, port, "/", "", None)) == Root(scheme, h, port)
    ensures Print(Components(scheme, h, port, "/", "")) == Root(scheme, h, port)
  {
  }

  /** Each scheme drops its own default port and keeps any other one. */
  lemma DefaultPorts(scheme: Text, h: Text, port: nat)
    requires HttpScheme(scheme) && HostName(h) && port <= 65535
    ensures var default := (scheme == "http" && port == 80) || (scheme == "https" && port == 443);
      Normalize(Root(scheme, h, Some(port))) == Some(Root(scheme, h, if default then None else Some(port)))
  {
    var w := Written(scheme, None, h, Some(port), "/", "", None);
    HttpIsPlain(scheme);
    NormalizeWritten(w);
    RootCut();
    RootNormal();
    EmptyQuery();
    RootSpelled(scheme, h, Some(port));
    RootSpelled(scheme, h, None);
  }

  const HTTP: Text := "http"
  const HTTPS: Text := "https"
  const H: Text := "h"

  lemma PortDigits()
    ensures PrintNat(80) == "80" && PrintNat(443) == "443"
  {
    assert PrintNat(8) == "8" && PrintNat(4) == "4";
    assert PrintNat(44) == "44";
  }

  lemma Roots()
    ensures HostName(H)
    ensures Root(HTTP, H, Some(80)) == "http://h:80/" && Root(HTTP, H, Some(443)) == "http://h:443/"
    ensures Root(HTTPS, H, Some(443)) == "https://h:443/"
    ensures Root(HTTP, H, None) == "http://h/" && Root(HTTPS, H, None) == "https://h/"
  {
    PortDigits();
  }

  /** So much for the port of http, ... */
  lemma HttpPortDropped()
    ensures Normalize("http://h:80/") == Some("http://h/")
  {
    Roots();
    DefaultPorts(HTTP, H, 80);
  }

  /** ... the port of https, ... */
  lemma HttpsPortDropped()
    ensures Normalize("https://h:443/") == Some("https://h/")
  {
    Roots();
    DefaultPorts(HTTPS, H, 443);
  }

  /** ... and a port that is another scheme's. */
  lemma OtherPortKept()
    ensures Normalize("http://h:443/") == Some("http://h:443/")
  {
    Roots();
    DefaultPorts(HTTP, H, 443);
  }

  // ---- Queries ----

  predicate AllUnreserved(s: Text) {
    forall i | 0 <= i < |s| :: Unreserved(s[i])
  }

  lemma {:induction false} PlainQuoted(s: Text)
    requires AllUnreserved(s)
    ensures QuotePlus(s) == s
  {
    if s != [] {
      assert forall i | 0 <= i < |s[1..]| :: s[1..][i] == s[i + 1];
      PlainQuoted(s[1..]);
      assert s == [s[0]] + s[1..];
    }
  }

  lemma PlainUnquoted(s: Text)
    requires AllUnreserved(s)
    ensures UnquotePlus(s) == s
  {
    PlainQuoted(s);
    UnquoteQuote(s);
  }

  lemma OnePair(p: Pair)
    ensures Sort([p]) == [p] && PrintQuery([p]) == PrintPair(p)
  {
    assert Sort([p][1..]) == [];
  }

  /** A parameter without an equals sign keeps its place, with an empty value. */
  lemma BlankParameter(f: Text)
    requires f != [] && AllUnreserved(f)
    ensures NormalQuery(f) == f + ['=']
  {
    assert Free(f, {'&', '='}) by {
      assert forall i | 0 <= i < |f| :: Unreserved(f[i]);
    }
    BlankValue(f);
    PlainUnquoted(f);
    PlainQuoted(f);
    OnePair(Pair(f, []));
  }

  lemma QuerySpelled(h: Text, query: Text)
    requires query != []
    ensures Spell(Written(HTTP, None, h, None, "/", query, None)) == "http://" + h + "/?" + query
    ensures Print(Components(HTTP, h, None, "/", query)) == "http://" + h + "/?" + query
  {
  }

  /** On every host, and for every such parameter. */
  lemma BlankParameterKept(h: Text, f: Text)
    requires HostName(h) && f != [] && AllUnreserved(f)
    ensures Normalize("http://" + h + "/?" + f) == Some("http://" + h + "/?" + (f + ['=']))
  {
    var w := Written(HTTP, None, h, None, "/", f, None);
    HttpIsPlain(HTTP);
    assert Free(f, QUERY_STOPS) by {
      assert forall i | 0 <= i < |f| :: Unreserved(f[i]);
    }
    NormalizeWritten(w);
    RootCut();
    RootNormal();
    BlankParameter(f);
    QuerySpelled(h, f);
    QuerySpelled(h, f + ['=']);
  }

  const PAGE: Text := "page"

  lemma PageSpelled()
    ensures HostName(H) && AllUnreserved(PAGE)
    ensures "http://" + H + "/?" + PAGE == "http://h/?page"
    ensures "http://" + H + "/?" + (PAGE + ['=']) == "http://h/?page="
  {
  }

  /** A page asked for by such a parameter is not the root. */
  lemma PageKept()
    ensures Normalize("http://h/?page") == Some("http://h/?page=")
  {
    PageSpelled();
    BlankParameterKept(H, PAGE);
  }

  lemma {:induction false} QuoteJoin(a: Text, b: Text)
    ensures QuotePlus(a + b) == QuotePlus(a) + QuotePlus(b)
    decreases |a|
  {
    if a == [] {
      assert a + b == b;
    } else {
      assert (a + b)[1..] == a[1..] + b;
      QuoteJoin(a[1..], b);
    }
  }

  /** Unreserved characters stand for themselves, a blank becomes a plus sign, anything else a triplet. */
  lemma Quoting(a: Text, b: Text)
    requires AllUnreserved(a)
    ensures QuotePlus(a + ([' '] + b)) == a + (['+'] + QuotePlus(b))
    ensures QuotePlus(a + (['&'] + b)) == a + (['%', '2', '6'] + QuotePlus(b))
    ensures QuotePlus(a + (['/'] + b)) == a + (['%', '2', 'F'] + QuotePlus(b))
  {
    PlainQuoted(a);
    forall c: Octet
      ensures QuotePlus(a + ([c] + b)) == a + (QuoteChar(c) + QuotePlus(b))
    {
      QuoteJoin(a, [c] + b);
      assert ([c] + b)[1..] == b;
    }
  }

  lemma {:induction false} PlusJoin(a: Text, b: Text)
    ensures PlusToSpace(a + b) == PlusToSpace(a) + PlusToSpace(b)
    decreases |a|
  {
    if a == [] {
      assert a + b == b;
    } else {
      var (c, rest) := (a[0], a[1..]);
      PlusJoin(rest, b);
      assert a == [c] + rest && a + b == [c] + (rest + b);
      PlusStep(c, rest);
      PlusStep(c, rest + b);
    }
  }

  lemma {:induction false} NoPlus(a: Text)
    requires Free(a, {'+'})
    ensures PlusToSpace(a) == a
  {
    if a != [] {
      assert forall i | 0 <= i < |a[1..]| :: a[1..][i] == a[i + 1];
      NoPlus(a[1..]);
      assert a == [a[0]] + a[1..];
    }
  }

  lemma {:induction false} PercentPasses(a: Text, t: Text)
    requires Free(a, {'%'})
    ensures PercentDecode(a + t) == a + PercentDecode(t)
    decreases |a|
  {
    if a == [] {
      assert a + t == t;
    } else {
      assert forall i | 0 <= i < |a[1..]| :: a[1..][i] == a[i + 1];
      PercentPasses(a[1..], t);
      assert (a + t)[1..] == a[1..] + t;
      assert a == [a[0]] + a[1..];
    }
  }

  lemma TripletRead(x: Octet, y: Octet, t: Text)
    requires IsHex(x) && IsHex(y)
    ensures PercentDecode(['%', x, y] + t) == [CharOf(x, y)] + PercentDecode(t)
  {
    assert (['%', x, y] + t)[3..] == t;
  }

  lemma UnquotePasses(a: Text, t: Text)
    requires Free(a, {'%', '+'})
    ensures UnquotePlus(a + t) == a + UnquotePlus(t)
  {
    FreeLess(a, {'%', '+'}, {'%'});
    FreeLess(a, {'%', '+'}, {'+'});
    PlusJoin(a, t);
    NoPlus(a);
    PercentPasses(a, PlusToSpace(t));
  }

  lemma PlusRead(b: Text)
    ensures UnquotePlus(['+'] + b) == [' '] + UnquotePlus(b)
  {
    PlusStep('+', b);
    PercentPasses([' '], PlusToSpace(b));
  }

  lemma SlashRead(y: Octet, b: Text)
    requires y == 'f' || y == 'F'
    ensures UnquotePlus(['%', '2', y] + b) == ['/'] + UnquotePlus(b)
  {
    PlusJoin(['%', '2', y], b);
    NoPlus(['%', '2', y]);
    TripletRead('2', y, PlusToSpace(b));
    Octets();
  }

  /** Unquoting reads a plus sign as a blank, and a triplet whatever the case of its digits. */
  lemma Unquoting(a: Text, y: Octet, b: Text)
    requires Free(a, {'%', '+'}) && (y == 'f' || y == 'F')
    ensures UnquotePlus(a + (['+'] + b)) == a + ([' '] + UnquotePlus(b))
    ensures UnquotePlus(a + (['%', '2', y] + b)) == a + (['/'] + UnquotePlus(b))
  {
    UnquotePasses(a, ['+'] + b);
    PlusRead(b);
    UnquotePasses(a, ['%', '2', y] + b);
    SlashRead(y, b);
  }

  lemma TwoPairs(p: Pair, q: Pair)
    requires PairLe(p, q)
    ensures Sort([q, p]) == Sort([p, q]) == [p, q]
    ensures PrintQuery([p, q]) == PrintPair(p) + ['&'] + PrintPair(q)
  {
    SortSorts([q, p]);
    SortSorts([p, q]);
    SortedUnique(Sort([q, p]), [p, q]);
    SortedUnique(Sort([p, q]), [p, q]);
    assert [p, q][1..] == [q];
    OnePair(q);
  }

  lemma PlainPair(p: Pair)
    requires AllUnreserved(p.name) && AllUnreserved(p.value)
    ensures PrintPair(p) == p.name + ['='] + p.value && ParseQuery(PrintPair(p)) == [p]
  {
    PlainQuoted(p.name);
    PlainQuoted(p.value);
    PlainUnquoted(p.name);
    PlainUnquoted(p.value);
    assert Free(p.name, {'&', '='}) && Free(p.value, {'&'}) by {
      assert forall i | 0 <= i < |p.name| :: Unreserved(p.name[i]);
      assert forall i | 0 <= i < |p.value| :: Unreserved(p.value[i]);
    }
    NamedValue(p.name, p.value);
  }

  /** Two parameters come out in order, by name and then by value. */
  lemma ParametersSorted(p: Pair, q: Pair)
    requires AllUnreserved(p.name) && AllUnreserved(p.value) && AllUnreserved(q.name) && AllUnreserved(q.value)
    requires PairLe(p, q)
    ensures var (a, b) := (p.name + ['='] + p.value, q.name + ['='] + q.value);
      NormalQuery(b + (['&'] + a)) == NormalQuery(a + (['&'] + b)) == a + ['&'] + b
  {
    PlainPair(p);
    PlainPair(q);
    ParseJoin(PrintPair(q), PrintPair(p));
    ParseJoin(PrintPair(p), PrintPair(q));
    assert [q] + [p] == [q, p] && [p] + [q] == [p, q];
    TwoPairs(p, q);
  }

  // ---- Paths ----

  lemma {:induction false} DecodePasses(a: Text, t: Text)
    requires Free(a, {'%'})
    ensures Decode(a + t) == a + Decode(t)
    decreases |a|
  {
    if a == [] {
      assert a + t == t;
    } else {
      assert forall i | 0 <= i < |a[1..]| :: a[1..][i] == a[i + 1];
      DecodePasses(a[1..], t);
      assert a + t == [a[0]] + (a[1..] + t);
      DecodeChar(a[0], a[1..] + t);
      assert a == [a[0]] + a[1..];
    }
  }

  lemma NoSemicolon(path: Text)
    requires Free(path, {';'})
    ensures CutParams(path) == path
  {
    CutParamsFacts(path);
    var k := LastBefore(path, |path|, '/');
    assert forall i | 0 <= i < |AfterLast(path, '/')| :: AfterLast(path, '/')[i] == path[k + i];
  }

  lemma Octets()
    ensures CharOf('7', 'e') == '~' && CharOf('2', 'f') == CharOf('2', 'F') == '/' && CharOf('6', '1') == 'a'
    ensures Unreserved('~') && Unreserved('a') && !Unreserved('/')
  {
  }

  /** An unreserved character is written out, a reserved one stays encoded, its hex digits in upper case. */
  lemma Encodings(a: Text, b: Text)
    requires Free(a, {'%'})
    ensures Decode(a + ("%7e" + b)) == a + ("~" + Decode(b))
    ensures Decode(a + ("%2f" + b)) == a + ("%2F" + Decode(b))
    ensures Decode(a + ("%61" + b)) == a + ("a" + Decode(b))
  {
    Octets();
    DecodePasses(a, "%7e" + b);
    DecodePasses(a, "%2f" + b);
    DecodePasses(a, "%61" + b);
    DecodeTriplet('7', 'e', b);
    DecodeTriplet('2', 'f', b);
    DecodeTriplet('6', '1', b);
  }

  // ---- A whole URL ----

  const FULL := Written("HTTP", None, "H", Some(80), "/P/%61", "z=1&a=2", Some("f"))

  lemma FullProper()
    ensures Proper(FULL) && Lower(FULL.scheme) == HTTP && Lower(FULL.host) == H
  {
    assert Lower(FULL.scheme) == HTTP;
    assert Lower(FULL.host) == H;
  }

  const FRONT: Text := "/P/"

  lemma FullPath()
    ensures NormalPath(CutParams(FULL.path)) == "/P/a"
  {
    assert Free(FULL.path, {';'});
    NoSemicolon(FULL.path);
    assert FULL.path == FRONT + ("%61" + []);
    assert Free(FRONT, {'%'});
    Encodings(FRONT, []);
  }

  const FIRST := Pair("a", "2")
  const SECOND := Pair("z", "1")

  lemma FullPairs()
    ensures PairLe(FIRST, SECOND)
    ensures AllUnreserved(FIRST.name) && AllUnreserved(FIRST.value)
    ensures AllUnreserved(SECOND.name) && AllUnreserved(SECOND.value)
  {
  }

  lemma FullQueries()
    ensures (SECOND.name + ['='] + SECOND.value) + (['&'] + (FIRST.name + ['='] + FIRST.value)) == "z=1&a=2"
    ensures (FIRST.name + ['='] + FIRST.value) + ['&'] + (SECOND.name + ['='] + SECOND.value) == "a=2&z=1"
  {
  }

  lemma FullQuery(query: Text)
    requires query == "z=1&a=2"
    ensures NormalQuery(query) == "a=2&z=1"
  {
    FullPairs();
    FullQueries();
    ParametersSorted(FIRST, SECOND);
  }

  const FULL_RESULT := Components(HTTP, H, None, "/P/a", "a=2&z=1")

  lemma FullTail()
    ensures Authority(FULL) == "H:80" && (FULL.path + Tail(FULL.query)) + Hash(FULL.fragment) == "/P/%61?z=1&a=2#f"
  {
    PortDigits();
  }

  lemma FullSpelled()
    ensures Spell(FULL) == "HTTP://H:80/P/%61?z=1&a=2#f"
  {
    FullTail();
  }

  lemma FullResultPrinted()
    ensures Print(FULL_RESULT) == "http://h/P/a?a=2&z=1"
  {
  }

  /** Everything at once: case, default port, encoding, order of parameters and fragment. */
  lemma FullNormalization()
    ensures Normalize("HTTP://H:80/P/%61?z=1&a=2#f") == Some("http://h/P/a?a=2&z=1")
  {
    FullSpelled();
    FullResultPrinted();
    FullProper();
    NormalizeWritten(FULL);
    FullPath();
    FullQuery(FULL.query);
  }
}

/**
 URLs as they are written: what the normaliser makes of scheme, user information, host, port, path, query and
 fragment, and what it pays no attention to.
 */
module WrittenUrls {
  import opened Wrappers
  import opened Text
  import opened Query
  import opened UrlParts
  import opened Normalizer
  import opened Idempotence

  // ---- Blanks and fragments make no difference ----

  lemma {:induction false} RemoveConcat(a: Text, b: Text, drop: set<char>)
    ensures Remove(a + b, drop) == Remove(a, drop) + Remove(b, drop)
    decreases |a|
  {
    if a == [] {
      assert a + b == b;
    } else {
      assert (a + b)[1..] == a[1..] + b;
      RemoveConcat(a[1..], b, drop);
    }
  }

  lemma {:induction false} StripLeftConcat(a: Text, b: Text)
    ensures StripLeft(a + b) == if StripLeft(a) == [] then StripLeft(b) else StripLeft(a) + b
    decreases |a|
  {
    if a == [] {
      assert a + b == b;
    } else {
      assert (a + b)[1..] == a[1..] + b;
      StripLeftConcat(a[1..], b);
    }
  }

  /** Blanks in front of a URL, and tabs and line breaks anywhere in it, are as good as not there. */
  lemma BlanksIgnored(a: Text, c: Octet, b: Text)
    requires c in STRIPPED || (c <= ' ' && a == [])
    ensures Normalize(a + ([c] + b)) == Normalize(a + b)
  {
    StripLeftConcat(a, [c] + b);
    StripLeftConcat(a, b);
    assert ([c] + b)[1..] == b;
    assert StripLeft([c] + b) == StripLeft(b);
    RemoveConcat(StripLeft(a), [c] + b, STRIPPED);
    RemoveConcat(StripLeft(a), b, STRIPPED);
    RemoveConcat([c], b, STRIPPED);
    NormalizeIs(a + ([c] + b));
    NormalizeIs(a + b);
  }

  lemma CleanHash(u: Text, f: Text)
    ensures Clean(u + (['#'] + f)) == Clean(u) + (['#'] + Remove(f, STRIPPED))
  {
    StripLeftConcat(u, ['#'] + f);
    assert StripLeft(['#'] + f) == ['#'] + f;
    RemoveConcat(StripLeft(u), ['#'] + f, STRIPPED);
    assert (['#'] + f)[1..] == f;
  }

  lemma SpanBefore(a: Text, b: Text, stop: set<char>)
    requires b != [] && b[0] in stop
    ensures Span(a + b, stop) == Span(a, stop)
  {
    var n := Span(a, stop);
    assert forall i | 0 <= i < n :: (a + b)[i] == a[i];
    SpanIs(a + b, stop, n);
  }

  /** Without a colon in front of it, a hash leaves no scheme. */
  lemma SchemeHash(u: Text, t: Text)
    requires t != [] && t[0] == '#'
    ensures CutScheme(u + t) == (CutScheme(u).0, CutScheme(u).1 + t)
  {
    var (i, j) := (Span(u, {':'}), Span(u + t, {':'}));
    if i < |u| {
      assert forall k | 0 <= k < i :: (u + t)[k] == u[k];
      SpanIs(u + t, {':'}, i);
      assert (u + t)[..i] == u[..i] && (u + t)[i + 1..] == u[i + 1..] + t;
    } else {
      assert forall k | 0 <= k < |u| :: u[k] == (u + t)[k];
      assert (u + t)[|u|] == '#' && j > |u|;
    }
  }

  lemma NetlocHash(u: Text, t: Text)
    requires t != [] && t[0] == '#'
    ensures CutNetloc(u + t) == (CutNetloc(u).0, CutNetloc(u).1 + t)
  {
    if |u| >= 2 && u[0] == '/' && u[1] == '/' {
      var i := Span(u[2..], NETLOC_ENDS);
      assert (u + t)[2..] == u[2..] + t;
      SpanBefore(u[2..], t, NETLOC_ENDS);
      assert (u[2..] + t)[..i] == u[2..][..i] && (u[2..] + t)[i..] == u[2..][i..] + t;
    } else {
      assert |u| < 2 ==> (u + t)[|u|] == '#';
    }
  }

  /** The parser finds the same parts, but for the fragment. */
  lemma HashParses(u: Text, f: Text)
    requires Free(u, {'#'})
    ensures var (p, q) := (ParseUrl(u), ParseUrl(u + (['#'] + f)));
      if p.None? then q.None? else q.Some? && q.value.(fragment := []) == p.value.(fragment := [])
  {
    CleanHash(u, f);
    var (v, t) := (Clean(u), ['#'] + Remove(f, STRIPPED));
    CleanFree(u, {'#'});
    SchemeHash(v, t);
    var (scheme, u1) := CutScheme(v);
    assert Free(u1, {'#'});
    NetlocHash(u1, t);
    var (netloc, u2) := CutNetloc(u1);
    NetlocRestFree(u1, {'#'});
    CutReads(u2, Remove(f, STRIPPED), '#');
  }

  lemma CleanFree(u: Text, stop: set<char>)
    requires Free(u, stop)
    ensures Free(Clean(u), stop)
  {
    StripLeftFree(u, stop);
    RemoveFree(StripLeft(u), STRIPPED, stop);
  }

  lemma {:induction false} StripLeftFree(u: Text, stop: set<char>)
    requires Free(u, stop)
    ensures Free(StripLeft(u), stop)
  {
    if u != [] && u[0] <= ' ' {
      assert forall i | 0 <= i < |u[1..]| :: u[1..][i] == u[i + 1];
      StripLeftFree(u[1..], stop);
    }
  }

  lemma {:induction false} RemoveFree(u: Text, drop: set<char>, stop: set<char>)
    requires Free(u, stop)
    ensures Free(Remove(u, drop), stop)
  {
    if u != [] {
      assert forall i | 0 <= i < |u[1..]| :: u[1..][i] == u[i + 1];
      RemoveFree(u[1..], drop, stop);
    }
  }

  lemma NetlocRestFree(u: Text, stop: set<char>)
    requires Free(u, stop)
    ensures Free(CutNetloc(u).1, stop)
  {
    var rest := CutNetloc(u).1;
    var d := |u| - |rest|;
    assert rest == u[d..];
    assert forall i | 0 <= i < |rest| :: rest[i] == u[d + i];
  }

  /** A fragment makes no difference, whatever the URL and whatever the fragment. */
  lemma FragmentIgnored(u: Text, f: Text)
    requires Free(u, {'#'})
    ensures Normalize(u + (['#'] + f)) == Normalize(u)
  {
    HashParses(u, f);
    NormalizeIs(u);
    NormalizeIs(u + (['#'] + f));
  }

  // ---- What the other parts come to ----

  /** A URL as it is written. */
  datatype Written = Written(scheme: Text, userinfo: Option<Text>, host: Text, port: Option<nat>, path: Text,
                             query: Text, fragment: Option<Text>)

  function Authority(w: Written): Text {
    if w.userinfo.Some? then w.userinfo.value + ['@'] + Netloc(w.host, w.port) else Netloc(w.host, w.port)
  }

  function Hash(fragment: Option<Text>): Text {
    if fragment.Some? then ['#'] + fragment.value else []
  }

  function Spell(w: Written): Text {
    w.scheme + ([':'] + (['/', '/'] + (Authority(w) + ((w.path + Tail(w.query)) + Hash(w.fragment)))))
  }

  const INFO_STOPS: set<char> := {'/', '?', '#', '[', ']', '\t', '\r', '\n'}

  /** An http or https URL, its scheme in any case, with a host that is no address in brackets. */
  ghost predicate Proper(w: Written) {
    && HttpScheme(Lower(w.scheme))
    && (w.userinfo.Some? ==> Free(w.userinfo.value, INFO_STOPS))
    && w.host != [] && Free(w.host, HOST_STOPS) && Free(w.host, {':'})
    && (w.port.Some? ==> w.port.value <= 65535)
    && Rooted(w.path) && Free(w.path, PATH_STOPS) && Free(w.query, QUERY_STOPS)
    && (w.fragment.Some? ==> Free(w.fragment.value, STRIPPED))
  }

  lemma SchemeLetters(scheme: Text)
    requires HttpScheme(Lower(scheme))
    ensures scheme != [] && scheme[0] > ' ' && forall i | 0 <= i < |scheme| :: IsLetter(scheme[i])
  {
    var t: Text := "https";
    assert forall i | 0 <= i < |scheme| :: Lower(scheme)[i] == 's' || Lower(scheme)[i] == t[i];
    assert forall i | 0 <= i < |scheme| :: LowerChar(scheme[i]) == Lower(scheme)[i];
  }

  lemma AnySchemeReads(scheme: Text, rest: Text)
    requires HttpScheme(Lower(scheme))
    ensures CutScheme(scheme + ([':'] + rest)) == (Lower(scheme), rest)
  {
    var u := scheme + ([':'] + rest);
    SchemeLetters(scheme);
    assert forall i | 0 <= i < |scheme| :: IsLetter(scheme[i]) && scheme[i] != ':';
    SpanConcat(scheme, [':'] + rest, {':'});
    assert u[..|scheme|] == scheme && u[|scheme| + 1..] == rest;
    assert forall j | 0 <= j < |scheme| :: u[j] == scheme[j];
  }

  lemma AuthorityFree(w: Written)
    requires Proper(w)
    ensures Free(Authority(w), INFO_STOPS)
  {
    FreeLess(w.host, HOST_STOPS, INFO_STOPS);
    NetlocFree(w.host, w.port, INFO_STOPS);
    if w.userinfo.Some? {
      FreeConcat(w.userinfo.value, ['@'], INFO_STOPS);
      FreeConcat(w.userinfo.value + ['@'], Netloc(w.host, w.port), INFO_STOPS);
    }
  }

  lemma SpelledClean(w: Written)
    requires Proper(w)
    ensures Clean(Spell(w)) == Spell(w)
  {
    SchemeLetters(w.scheme);
    assert Free(w.scheme, STRIPPED) by {
      assert forall i | 0 <= i < |w.scheme| :: IsLetter(w.scheme[i]);
    }
    AuthorityFree(w);
    FreeLess(Authority(w), INFO_STOPS, STRIPPED);
    FreeLess(w.path, PATH_STOPS, STRIPPED);
    FreeLess(w.query, QUERY_STOPS, STRIPPED);
    FreeConcat(['?'], w.query, STRIPPED);
    FreeConcat(w.path, Tail(w.query), STRIPPED);
    var rest := (w.path + Tail(w.query)) + Hash(w.fragment);
    FreeConcat(['#'], if w.fragment.Some? then w.fragment.value else [], STRIPPED);
    FreeConcat(w.path + Tail(w.query), Hash(w.fragment), STRIPPED);
    FreeConcat(Authority(w), rest, STRIPPED);
    FreeConcat(['/', '/'], Authority(w) + rest, STRIPPED);
    FreeConcat([':'], ['/', '/'] + (Authority(w) + rest), STRIPPED);
    FreeConcat(w.scheme, [':'] + (['/', '/'] + (Authority(w) + rest)), STRIPPED);
    assert Spell(w)[0] == w.scheme[0];
    CleanAlready(Spell(w));
  }

  /** The components it is written with. */
  function Plainly(w: Written): Components {
    Components(Lower(w.scheme), w.host, w.port, w.path, w.query)
  }

  lemma RestCuts(w: Written)
    requires Proper(w)
    ensures Cut((w.path + Tail(w.query)) + Hash(w.fragment), '#').0 == w.path + Tail(w.query)
    ensures Cut(w.path + Tail(w.query), '?') == (w.path, w.query)
    ensures var rest := (w.path + Tail(w.query)) + Hash(w.fragment); rest == [] || rest[0] in NETLOC_ENDS
  {
    RestReads(Plainly(w));
    FreeLess(w.path, PATH_STOPS, {'#'});
    FreeLess(w.query, QUERY_STOPS, {'#'});
    RestFree(Plainly(w), {'#'});
    HashCuts(w.path + Tail(w.query), w.fragment);
  }

  lemma HashCuts(rest: Text, fragment: Option<Text>)
    requires Free(rest, {'#'})
    ensures Cut(rest + Hash(fragment), '#').0 == rest
  {
    CutReads(rest, if fragment.Some? then fragment.value else [], '#');
    assert rest + [] == rest;
  }

  lemma NotUnbalanced(s: Text)
    requires Free(s, INFO_STOPS)
    ensures !Unbalanced(s)
  {
    assert forall i | 0 <= i < |s| :: s[i] != '[' && s[i] != ']';
  }

  lemma SpelledParses(w: Written)
    requires Proper(w)
    ensures var p := ParseUrl(Spell(w));
      && p.Some? && p.value.scheme == Lower(w.scheme) && p.value.netloc == Authority(w)
      && p.value.path == CutParams(w.path) && p.value.query == w.query
  {
    SpelledClean(w);
    var rest := (w.path + Tail(w.query)) + Hash(w.fragment);
    AnySchemeReads(w.scheme, ['/', '/'] + (Authority(w) + rest));
    AuthorityFree(w);
    FreeLess(Authority(w), INFO_STOPS, NETLOC_ENDS);
    RestCuts(w);
    NetlocReads(Authority(w), rest);
    NotUnbalanced(Authority(w));
  }

  /** The user information is passed over. */
  lemma AuthorityInfo(w: Written)
    requires Proper(w)
    ensures HostInfo(Authority(w)) == (w.host, if w.port.Some? then PrintNat(w.port.value) else [])
  {
    HostInfoReads(w.host, w.port);
    FreeLess(w.host, HOST_STOPS, {'@'});
    NetlocFree(w.host, w.port, {'@'});
    AfterLastIs(if w.userinfo.Some? then w.userinfo.value else [], Netloc(w.host, w.port), '@');
  }

  lemma LowerTwice(s: Text, i: nat)
    requires i <= |s|
    ensures Lower(Lower(s[..i]) + s[i..]) == Lower(s) && (s != [] ==> Lower(s[..i]) + s[i..] != [])
  {
    var t := Lower(s[..i]) + s[i..];
    forall n | 0 <= n < |s|
      ensures Lower(t)[n] == Lower(s)[n]
    {
      assert t[n] == if n < i then LowerChar(s[n]) else s[n];
      assert Lower(t)[n] == LowerChar(t[n]) && Lower(s)[n] == LowerChar(s[n]);
    }
  }

  lemma HostWritten(w: Written)
    requires Proper(w)
    ensures var name := Hostname(Authority(w)); name != [] && Lower(name) == Lower(w.host)
    ensures Port(Authority(w)) == Some(w.port)
  {
    AuthorityInfo(w);
    PortReads(Authority(w), w.port);
    LowerTwice(w.host, Span(w.host, {'%'}));
  }

  lemma SpelledReads(w: Written)
    requires Proper(w)
    ensures var name := Hostname(Authority(w));
      && Lower(name) == Lower(w.host)
      && Read(Spell(w)) == Some(Components(Lower(w.scheme), name, w.port, CutParams(w.path), w.query))
  {
    HostWritten(w);
    SpelledParses(w);
    TakenFrom(ParseUrl(Spell(w)).value, w.port);
  }

  /**
   The normal form of a URL as it is written: scheme and host in lower case, no user information, no fragment, no
   parameters, the port only where it is not that of the scheme, and path and query in their own normal forms.
   */
  lemma NormalizeWritten(w: Written)
    requires Proper(w)
    ensures var (scheme, host) := (Lower(w.scheme), Lower(w.host));
      var default := (scheme == "http" && w.port == Some(80)) || (scheme == "https" && w.port == Some(443));
      Normalize(Spell(w)) == Some(Print(Components(scheme, host, if default then None else w.port,
                                                   NormalPath(CutParams(w.path)), NormalQuery(w.query))))
  {
    SpelledReads(w);
    NormalizeIs(Spell(w));
    LowerIdempotent(w.scheme);
  }
}

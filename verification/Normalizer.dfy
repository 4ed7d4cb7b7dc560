/** The normalisation pipeline: a context the steps change one after another, and the URL rebuilt from it. */
module Normalizer {
  import opened Wrappers
  import opened Text
  import opened PercentEncoding
  import opened Query
  import opened UrlParts

  datatype Step =
    | ParseUrlStep
    | LowercaseStep
    | RemoveDefaultPortStep
    | RemoveFragmentStep
    | SortQueryParamsStep
    | UppercasePercentEncodingStep
    | DecodeUnreservedStep
    | TrailingSlashStep

  /** The registry, in pipeline order. */
  const NORMALIZATION_STEPS := [ParseUrlStep, LowercaseStep, RemoveDefaultPortStep, RemoveFragmentStep,
                                SortQueryParamsStep, UppercasePercentEncodingStep, DecodeUnreservedStep,
                                TrailingSlashStep]

  datatype Context = Context(raw: Text, parts: Components, rejected: bool)

  function Start(raw: Text): Context {
    Context(raw, Components([], [], None, [], []), false)
  }

  function WithoutDefaultPort(scheme: Text, port: Option<nat>): Option<nat> {
    if (scheme == "http" && port == Some(80)) || (scheme == "https" && port == Some(443)) then None else port
  }

  /** The length of the path up to `n` without the slashes at its end. */
  function StrippedLength(path: Text, n: nat): (m: nat)
    requires n <= |path|
    ensures m <= n && (forall i | m <= i < n :: path[i] == '/') && (m > 0 ==> path[m - 1] != '/')
  {
    if n > 0 && path[n - 1] == '/' then StrippedLength(path, n - 1) else n
  }

  /** `rstrip('/')`. */
  function StripSlashes(path: Text): Text {
    path[..StrippedLength(path, |path|)]
  }

  function TrimSlash(path: Text): Text {
    if path == [] then ['/']
    else if path != ['/'] && path[|path| - 1] == '/' then StripSlashes(path)
    else path
  }

  /** What the parse step takes from a parsed URL; None where it rejects or raises. */
  function Take(p: Parts): Option<Components> {
    if p.scheme == [] || Hostname(p.netloc) == [] then None else
    match Port(p.netloc)
    case None => None
    case Some(port) => Some(Components(p.scheme, Hostname(p.netloc), port, p.path, p.query))
  }

  /** The parse step on a URL. */
  function Read(raw: Text): Option<Components> {
    var parsed := ParseUrl(raw);
    if parsed.None? then None else Take(parsed.value)
  }

  /** What a step after the first does to the components. */
  function Rewrite(step: Step, c: Components): Components {
    match step
    case ParseUrlStep => c
    case LowercaseStep => c.(scheme := Lower(c.scheme), host := Lower(c.host))
    case RemoveDefaultPortStep => c.(port := WithoutDefaultPort(c.scheme, c.port))
    case RemoveFragmentStep => c
    case SortQueryParamsStep => c.(query := NormalQuery(c.query))
    case UppercasePercentEncodingStep => c.(path := Uppercase(c.path), query := Uppercase(c.query))
    case DecodeUnreservedStep => c.(path := Decode(c.path), query := Decode(c.query))
    case TrailingSlashStep => c.(path := TrimSlash(c.path))
  }

  function RunStep(step: Step, x: Context): Context {
    if step.ParseUrlStep? then
      if Read(x.raw).Some? then x.(parts := Read(x.raw).value) else x.(rejected := true)
    else x.(parts := Rewrite(step, x.parts))
  }

  /** The pipeline on a given list of steps; None when a step rejects the URL or raises. */
  function RunSteps(steps: seq<Step>, x: Context): Option<Text> {
    if x.rejected then None
    else if steps == [] then Some(Print(x.parts))
    else RunSteps(steps[1..], RunStep(steps[0], x))
  }

  /** `URLNormalizer.normalize` with the default configuration. */
  function Normalize(raw: Text): Option<Text> {
    RunSteps(NORMALIZATION_STEPS, Start(raw))
  }

  /** The mutable context of the source, one method per step. */
  class NormalizationContext {
    const raw: Text
    var scheme: Text
    var host: Text
    var port: Option<nat>
    var path: Text
    var query: Text
    var rejected: bool

    function View(): Context
      reads this
    {
      Context(raw, Components(scheme, host, port, path, query), rejected)
    }

    constructor (raw: Text)
      ensures View() == Start(raw)
    {
      this.raw := raw;
      scheme, host, port, path, query, rejected := [], [], None, [], [], false;
    }

    /** What `ParseURLStep` takes from a parsed URL; a step that raises ends the pipeline like a rejection. */
    method Accept(parts: Parts)
      modifies this
      ensures View() == (if Take(parts).Some? then old(View()).(parts := Take(parts).value)
                         else old(View()).(rejected := true))
    {
      var name := Hostname(parts.netloc);
      if parts.scheme == [] || name == [] {
        rejected := true;
        return;
      }
      var number := Port(parts.netloc);
      if number.None? {
        rejected := true;
        return;
      }
      scheme, host, port, path, query := parts.scheme, name, number.value, parts.path, parts.query;
    }

    /** `ParseURLStep`. */
    method Parse()
      modifies this
      ensures View() == RunStep(ParseUrlStep, old(View()))
    {
      var parsed := ParseUrl(raw);
      if parsed.None? {
        rejected := true;
      } else {
        Accept(parsed.value);
      }
    }

    /** `RemoveDefaultPortStep`. */
    method DropDefaultPort()
      modifies this`port
      ensures port == WithoutDefaultPort(scheme, old(port))
    {
      if port.Some? && ((scheme == "http" && port.value == 80) || (scheme == "https" && port.value == 443)) {
        port := None;
      }
    }

    /** `TrailingSlashStep`. */
    method Trim()
      modifies this`path
      ensures path == TrimSlash(old(path))
    {
      if path == [] {
        path := ['/'];
      } else if path != ['/'] && path[|path| - 1] == '/' {
        path := StripSlashes(path);
      }
    }

    method Execute(step: Step)
      modifies this
      ensures View() == RunStep(step, old(View()))
    {
      match step {
        case ParseUrlStep => Parse();
        case LowercaseStep =>
          scheme := Lower(scheme);
          host := Lower(host);
        case RemoveDefaultPortStep => DropDefaultPort();
        case RemoveFragmentStep =>
        case SortQueryParamsStep =>
          var params := Sort(ParseQuery(query));
          query := PrintQuery(params);
        case UppercasePercentEncodingStep =>
          path := Uppercase(path);
          query := Uppercase(query);
        case DecodeUnreservedStep =>
          path := Decode(path);
          query := Decode(query);
        case TrailingSlashStep => Trim();
      }
    }
  }

  /** `NormalizationPipeline.execute`. */
  method ExecutePipeline(steps: seq<Step>, raw: Text) returns (r: Option<Text>)
    ensures r == RunSteps(steps, Start(raw))
  {
    var ctx := new NormalizationContext(raw);
    for i := 0 to |steps|
      invariant fresh(ctx) && !ctx.rejected
      invariant RunSteps(steps[i..], ctx.View()) == RunSteps(steps, Start(raw))
    {
      assert steps[i..][1..] == steps[i + 1..] && steps[i..][0] == steps[i];
      ctx.Execute(steps[i]);
      if ctx.rejected {
        return None;
      }
    }
    return Some(Print(ctx.View().parts));
  }

  // ---- The pipeline in one piece ----

  function NormalPath(path: Text): Text {
    TrimSlash(Decode(path))
  }

  /** What the steps after the first make of the components. */
  function Canonical(c: Components): Components {
    Components(Lower(c.scheme), Lower(c.host), WithoutDefaultPort(Lower(c.scheme), c.port),
               NormalPath(c.path), NormalQuery(c.query))
  }

  function RewriteAll(steps: seq<Step>, c: Components): Components {
    if steps == [] then c else RewriteAll(steps[1..], Rewrite(steps[0], c))
  }

  lemma {:induction false} RunsRewrite(steps: seq<Step>, x: Context)
    requires !x.rejected && ParseUrlStep !in steps
    ensures RunSteps(steps, x) == Some(Print(RewriteAll(steps, x.parts)))
    decreases |steps|
  {
    if steps != [] {
      assert steps[0] in steps;
      RunsRewrite(steps[1..], RunStep(steps[0], x));
    }
  }

  lemma {:induction false} RewriteSplit(a: seq<Step>, b: seq<Step>, c: Components)
    ensures RewriteAll(a + b, c) == RewriteAll(b, RewriteAll(a, c))
    decreases |a|
  {
    if a == [] {
      assert a + b == b;
    } else {
      assert (a + b)[1..] == a[1..] + b;
      RewriteSplit(a[1..], b, Rewrite(a[0], c));
    }
  }

  lemma RewriteOne(step: Step, rest: seq<Step>, c: Components)
    ensures RewriteAll([step] + rest, c) == RewriteAll(rest, Rewrite(step, c))
  {
    assert ([step] + rest)[1..] == rest;
  }

  lemma FrontRewrites(c: Components)
    ensures RewriteAll([LowercaseStep, RemoveDefaultPortStep, RemoveFragmentStep], c)
         == RewriteAll([LowercaseStep, RemoveDefaultPortStep], c)
         == c.(scheme := Lower(c.scheme), host := Lower(c.host), port := WithoutDefaultPort(Lower(c.scheme), c.port))
  {
    var c1 := Rewrite(LowercaseStep, c);
    var c2 := Rewrite(RemoveDefaultPortStep, c1);
    RewriteOne(LowercaseStep, [RemoveDefaultPortStep, RemoveFragmentStep], c);
    RewriteOne(RemoveDefaultPortStep, [RemoveFragmentStep], c1);
    RewriteOne(RemoveFragmentStep, [], c2);
    RewriteOne(LowercaseStep, [RemoveDefaultPortStep], c);
    RewriteOne(RemoveDefaultPortStep, [], c1);
  }

  /** On a sorted query and behind the decoding step, uppercasing changes nothing. */
  lemma UppercaseIdle(c: Components)
    ensures var c1 := Rewrite(SortQueryParamsStep, c);
      && Rewrite(DecodeUnreservedStep, Rewrite(UppercasePercentEncodingStep, c1)) == Rewrite(DecodeUnreservedStep, c1)
      && Rewrite(TrailingSlashStep, Rewrite(DecodeUnreservedStep, c1))
         == c.(path := NormalPath(c.path), query := NormalQuery(c.query))
  {
    var n := NormalQuery(c.query);
    RewritingIdleOnQuery(c.query);
    DecodeAbsorbsUppercase(c.path);
    var c1 := c.(query := n);
    assert Rewrite(SortQueryParamsStep, c) == c1;
    assert Rewrite(UppercasePercentEncodingStep, c1) == c1.(path := Uppercase(c.path));
    assert Rewrite(DecodeUnreservedStep, c1) == c1.(path := Decode(c.path));
  }

  lemma LastRewrite(step: Step, c: Components)
    ensures RewriteAll([step], c) == Rewrite(step, c)
  {
    assert [step] + [] == [step];
    RewriteOne(step, [], c);
  }

  lemma BackRewrites(c: Components)
    ensures RewriteAll([SortQueryParamsStep, UppercasePercentEncodingStep, DecodeUnreservedStep, TrailingSlashStep], c)
         == RewriteAll([SortQueryParamsStep, DecodeUnreservedStep, TrailingSlashStep], c)
         == c.(path := NormalPath(c.path), query := NormalQuery(c.query))
  {
    UppercaseIdle(c);
    var c1 := Rewrite(SortQueryParamsStep, c);
    ThreeRewrites(UppercasePercentEncodingStep, DecodeUnreservedStep, TrailingSlashStep, c1);
    RewriteOne(SortQueryParamsStep, [UppercasePercentEncodingStep, DecodeUnreservedStep, TrailingSlashStep], c);
    ThreeRewrites(SortQueryParamsStep, DecodeUnreservedStep, TrailingSlashStep, c);
  }

  lemma ThreeRewrites(s1: Step, s2: Step, s3: Step, c: Components)
    ensures RewriteAll([s1, s2, s3], c) == Rewrite(s3, Rewrite(s2, Rewrite(s1, c)))
  {
    assert [s1, s2, s3] == [s1] + [s2, s3] && [s2, s3] == [s2] + [s3];
    RewriteOne(s1, [s2, s3], c);
    RewriteOne(s2, [s3], Rewrite(s1, c));
    LastRewrite(s3, Rewrite(s2, Rewrite(s1, c)));
  }

  lemma ParseThen(front: seq<Step>, back: seq<Step>, raw: Text)
    requires ParseUrlStep !in front && ParseUrlStep !in back
    ensures RunSteps([ParseUrlStep] + (front + back), Start(raw))
         == if Read(raw).Some? then Some(Print(RewriteAll(back, RewriteAll(front, Read(raw).value)))) else None
  {
    assert ([ParseUrlStep] + (front + back))[1..] == front + back;
    if Read(raw).Some? {
      RunsRewrite(front + back, RunStep(ParseUrlStep, Start(raw)));
      RewriteSplit(front, back, Read(raw).value);
    }
  }

  /** The eight steps come to this: the uppercasing step and both rewritings of the query change nothing. */
  lemma NormalizeIs(raw: Text)
    ensures Normalize(raw) == if Read(raw).Some? then Some(Print(Canonical(Read(raw).value))) else None
  {
    var front := [LowercaseStep, RemoveDefaultPortStep, RemoveFragmentStep];
    var back := [SortQueryParamsStep, UppercasePercentEncodingStep, DecodeUnreservedStep, TrailingSlashStep];
    assert NORMALIZATION_STEPS == [ParseUrlStep] + (front + back);
    ParseThen(front, back, raw);
    if Read(raw).Some? {
      FrontRewrites(Read(raw).value);
      BackRewrites(RewriteAll(front, Read(raw).value));
    }
  }

  const SHORTER_STEPS := [ParseUrlStep, LowercaseStep, RemoveDefaultPortStep, SortQueryParamsStep, DecodeUnreservedStep,
                          TrailingSlashStep]

  /** The fragment step and the uppercasing step could be left out: for every input the result is the same. */
  lemma ShorterPipelineSuffices(raw: Text)
    ensures RunSteps(SHORTER_STEPS, Start(raw)) == Normalize(raw)
  {
    var front := [LowercaseStep, RemoveDefaultPortStep];
    var back := [SortQueryParamsStep, DecodeUnreservedStep, TrailingSlashStep];
    assert SHORTER_STEPS == [ParseUrlStep] + (front + back);
    ParseThen(front, back, raw);
    NormalizeIs(raw);
    if Read(raw).Some? {
      FrontRewrites(Read(raw).value);
      BackRewrites(RewriteAll(front, Read(raw).value));
    }
  }
}

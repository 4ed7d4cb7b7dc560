/** The filter pipeline that decides which discovered URLs enter the frontier. */
module Filters {
  import opened Wrappers
  import opened Frontier

  datatype ParsedUrl = ParsedUrl(scheme: string, hostname: Option<string>)

  /**
   The configuration of a filter.  `parse` stands for `urlparse` and `search` for `re.search`; either may raise,
   which is `None`.
   */
  datatype FilterConfig = FilterConfig(
    seedDomain: string,
    maxDepth: Option<nat>,
    includes: seq<string>,
    excludes: seq<string>,
    parse: Key -> Option<ParsedUrl>,
    search: (string, Key) -> Option<bool>)

  datatype FilterStep = SchemeCheck | DomainMatch | DepthCheck | ExcludePattern | IncludePattern | Deduplication

  const FILTER_STEPS := [SchemeCheck, DomainMatch, DepthCheck, ExcludePattern, IncludePattern, Deduplication]

  datatype Verdict = Pass | Reject | Raise

  /** The search loop of the exclude step: the first match rejects, a pattern that raises ends the step. */
  function ExcludeVerdict(f: FilterConfig, patterns: seq<string>, k: Key): Verdict {
    if patterns == [] then Pass else
    match f.search(patterns[0], k)
    case None => Raise
    case Some(true) => Reject
    case Some(false) => ExcludeVerdict(f, patterns[1..], k)
  }

  /** `any(...)` over the include patterns: the first match accepts. */
  function IncludeVerdict(f: FilterConfig, patterns: seq<string>, k: Key): Verdict {
    if patterns == [] then Reject else
    match f.search(patterns[0], k)
    case None => Raise
    case Some(true) => Pass
    case Some(false) => IncludeVerdict(f, patterns[1..], k)
  }

  predicate WithinDepth(maxDepth: Option<nat>, depth: nat) {
    maxDepth.None? || depth <= maxDepth.value
  }

  /**
   One step on a URL parsed to `parsed`; `found` is what the store answers when asked for the URL, None where the
   read raises.
   */
  function StepVerdict(f: FilterConfig, step: FilterStep, k: Key, parsed: ParsedUrl, depth: nat, found: Option<bool>)
    : Verdict
  {
    match step
    case SchemeCheck => if parsed.scheme in {"http", "https"} then Pass else Reject
    case DomainMatch => if parsed.hostname == Some(f.seedDomain) then Pass else Reject
    case DepthCheck => if WithinDepth(f.maxDepth, depth) then Pass else Reject
    case ExcludePattern => ExcludeVerdict(f, f.excludes, k)
    case IncludePattern => if f.includes == [] then Pass else IncludeVerdict(f, f.includes, k)
    case Deduplication => if found == None then Raise else if found.value then Reject else Pass
  }

  /** No exclude pattern matches, and none of them raises. */
  ghost predicate NotExcluded(f: FilterConfig, k: Key) {
    forall p | p in f.excludes :: f.search(p, k) == Some(false)
  }

  /** There is nothing to match, or the first include pattern that does not plainly fail matches. */
  ghost predicate Included(f: FilterConfig, k: Key) {
    f.includes == [] || exists i :: 0 <= i < |f.includes| && f.search(f.includes[i], k) == Some(true)
                                 && forall j | 0 <= j < i :: f.search(f.includes[j], k) == Some(false)
  }

  /** What a URL must satisfy to belong to the crawl, wherever and whenever it is found. */
  ghost predicate InScope(f: FilterConfig, k: Key) {
    && f.parse(k).Some?
    && f.parse(k).value.scheme in {"http", "https"}
    && f.parse(k).value.hostname == Some(f.seedDomain)
    && NotExcluded(f, k)
    && Included(f, k)
  }

  lemma {:induction false} ExcludePasses(f: FilterConfig, patterns: seq<string>, k: Key)
    ensures ExcludeVerdict(f, patterns, k) == Pass <==> forall p | p in patterns :: f.search(p, k) == Some(false)
  {
    if patterns != [] {
      ExcludePasses(f, patterns[1..], k);
      assert patterns == [patterns[0]] + patterns[1..];
    }
  }

  lemma {:induction false} IncludePasses(f: FilterConfig, patterns: seq<string>, k: Key)
    ensures IncludeVerdict(f, patterns, k) == Pass <==>
            exists i :: 0 <= i < |patterns| && f.search(patterns[i], k) == Some(true)
                     && forall j | 0 <= j < i :: f.search(patterns[j], k) == Some(false)
  {
    if patterns != [] {
      IncludePasses(f, patterns[1..], k);
      var rest := patterns[1..];
      if IncludeVerdict(f, rest, k) == Pass && f.search(patterns[0], k) == Some(false) {
        var i :| 0 <= i < |rest| && f.search(rest[i], k) == Some(true)
              && forall j | 0 <= j < i :: f.search(rest[j], k) == Some(false);
        assert f.search(patterns[i + 1], k) == Some(true);
        assert forall j | 0 <= j < i + 1 :: f.search(patterns[j], k) == Some(false) by {
          forall j | 0 <= j < i + 1 ensures f.search(patterns[j], k) == Some(false) {
            if j > 0 { assert f.search(rest[j - 1], k) == Some(false); }
          }
        }
      }
      if i :|
        && 0 <= i < |patterns| && f.search(patterns[i], k) == Some(true)
        && forall j | 0 <= j < i :: f.search(patterns[j], k) == Some(false)
      {
        if i > 0 {
          assert f.search(rest[i - 1], k) == Some(true);
          assert forall j | 0 <= j < i - 1 :: f.search(rest[j], k) == f.search(patterns[j + 1], k);
        }
      }
    }
  }

  /** The URL can be parsed, and every step of the registry lets it through. */
  ghost predicate Passes(f: FilterConfig, k: Key, depth: nat, found: Option<bool>) {
    && f.parse(k).Some?
    && forall step | step in FILTER_STEPS :: StepVerdict(f, step, k, f.parse(k).value, depth, found) == Pass
  }

  lemma AllSteps(step: FilterStep)
    ensures step in FILTER_STEPS
  {
    match step
    case SchemeCheck => assert FILTER_STEPS[0] == step;
    case DomainMatch => assert FILTER_STEPS[1] == step;
    case DepthCheck => assert FILTER_STEPS[2] == step;
    case ExcludePattern => assert FILTER_STEPS[3] == step;
    case IncludePattern => assert FILTER_STEPS[4] == step;
    case Deduplication => assert FILTER_STEPS[5] == step;
  }

  /** The six steps together say: in scope, shallow enough, and the store answered that it has no such row. */
  lemma PassesMeans(f: FilterConfig, k: Key, depth: nat, found: Option<bool>)
    ensures Passes(f, k, depth, found) <==>
            InScope(f, k) && (f.maxDepth.Some? ==> depth <= f.maxDepth.value) && found == Some(false)
  {
    ExcludePasses(f, f.excludes, k);
    IncludePasses(f, f.includes, k);
    forall step: FilterStep
      ensures step in FILTER_STEPS
    {
      AllSteps(step);
    }
    if Passes(f, k, depth, found) {
      var p := f.parse(k).value;
      assert StepVerdict(f, SchemeCheck, k, p, depth, found) == StepVerdict(f, DomainMatch, k, p, depth, found) == Pass;
      assert StepVerdict(f, DepthCheck, k, p, depth, found) == Pass;
      assert StepVerdict(f, ExcludePattern, k, p, depth, found) == Pass;
      assert StepVerdict(f, IncludePattern, k, p, depth, found) == Pass;
      assert StepVerdict(f, Deduplication, k, p, depth, found) == Pass;
    }
  }

  /** `FilterPipeline.execute`: the first step that rejects or raises ends the loop with False. */
  method Execute(f: FilterConfig, steps: seq<FilterStep>, k: Key, parsed: ParsedUrl, depth: nat, found: Option<bool>)
    returns (passed: bool)
    ensures passed <==> forall step | step in steps :: StepVerdict(f, step, k, parsed, depth, found) == Pass
  {
    for i := 0 to |steps|
      invariant forall j | 0 <= j < i :: StepVerdict(f, steps[j], k, parsed, depth, found) == Pass
    {
      var verdict := StepVerdict(f, steps[i], k, parsed, depth, found);
      if verdict != Pass {
        return false;
      }
    }
    return true;
  }

  /**
   `URLFilter.passes`: None where it raises, which is when the URL cannot be parsed; a deduplication read that
   raises rejects the URL like one that finds it.
   */
  method PassesFilter(f: FilterConfig, k: Key, depth: nat, found: Option<bool>) returns (passed: Option<bool>)
    ensures passed == None <==> f.parse(k) == None
    ensures passed == Some(true) <==>
            InScope(f, k) && (f.maxDepth.Some? ==> depth <= f.maxDepth.value) && found == Some(false)
  {
    match f.parse(k) {
      case None => passed := None;
      case Some(parsed) =>
        var verdict := Execute(f, FILTER_STEPS, k, parsed, depth, found);
        passed := Some(verdict);
    }
    PassesMeans(f, k, depth, found);
  }
}

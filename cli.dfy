/**
 * The derivations the `main` command performs before it starts a crawl: list defaults,
 * the output file name built from the url's host, the filter chain, the markdown
 * generator, the `wait_for`/`js_code` fallbacks, the page timeout and the cache mode.
 */
module Cli {
  import opened Wrappers
  import opened Strings
  import Crawler

  // Defaults of config.py that `main` uses.
  const DefaultIncludePatterns: seq<string> :=
    ["*doc*", "*docs*", "*tutorial*", "*guide*", "*quickstart*", "*introduction*",
     "*getting started*", "*installation*", "*setup*", "*manual*", "*faq*"]
  const DefaultExcludePatterns: seq<string> := ["*#*"]
  const DefaultContentTypes: seq<string> := ["text/html"]
  const DefaultKeywords: seq<string> :=
    ["docs", "documentation", "doc", "guide", "tutorial", "example", "quickstart",
     "introduction", "getting started", "installation", "setup", "manual", "faq"]
  const DefaultBrowserTimeout := 30
  const DefaultCacheModeName := "BYPASS"
  const WaitForJsRenderDefault := "5"
  const FallbackName := "default_crawl_output"

  // ---------------------------------------------------------------------------
  // List options: None means "not given", an empty list means "given with no values".

  function FinalList(option: Option<seq<string>>, default: seq<string>): seq<string> {
    if option.Some? then option.value else default
  }

  /** An option falls back to its default only when absent; an explicit list, even empty, is kept. */
  lemma FinalListCases(option: Option<seq<string>>, default: seq<string>)
    ensures option.None? ==> FinalList(option, default) == default
    ensures option.Some? ==> FinalList(option, default) == option.value
    ensures default != [] ==> (FinalList(option, default) == [] <==> option == Some([]))
  {
  }

  lemma DefaultsNonEmpty()
    ensures DefaultIncludePatterns != [] && DefaultExcludePatterns != []
    ensures DefaultContentTypes != [] && DefaultKeywords != []
    ensures |DefaultIncludePatterns| == 11 && |DefaultKeywords| == 13
  {
  }

  // ---------------------------------------------------------------------------
  // Output file name from the url's host.

  /** `\w` (ASCII letters, digits, underscore). */
  predicate IsWordChar(c: char) {
    ('a' <= c <= 'z') || ('A' <= c <= 'Z') || ('0' <= c <= '9') || c == '_'
  }

  /** The characters `[\w.-]` keeps. */
  predicate IsNameChar(c: char) {
    IsWordChar(c) || c == '.' || c == '-'
  }

  predicate AllNameChars(s: string) {
    forall i :: 0 <= i < |s| ==> IsNameChar(s[i])
  }

  predicate NoNameChars(s: string) {
    forall i :: 0 <= i < |s| ==> !IsNameChar(s[i])
  }

  /** The characters `strip("._")` removes. */
  predicate IsMark(c: char) {
    c == '.' || c == '_'
  }

  /** `re.sub(r"^www\.", "", s)`: one leading "www.", case-sensitive, is dropped. */
  function DropWww(s: string): (r: string)
    ensures IsPrefix("www.", s) ==> s == "www." + r
    ensures !IsPrefix("www.", s) ==> r == s
  {
    if IsPrefix("www.", s) then s[4..] else s
  }

  /** Drops the leading characters outside `[\w.-]`. */
  function SkipInvalid(s: string): (r: string)
    ensures |r| <= |s|
  {
    if s == [] || IsNameChar(s[0]) then s else SkipInvalid(s[1..])
  }

  /** `re.sub(r"[^\w.-]+", "_", s)`: every maximal run of other characters becomes one "_". */
  function ReplaceInvalidRuns(s: string): string
    decreases |s|
  {
    if s == [] then []
    else if IsNameChar(s[0]) then [s[0]] + ReplaceInvalidRuns(s[1..])
    else "_" + ReplaceInvalidRuns(SkipInvalid(s[1..]))
  }

  function StripMarksStart(s: string): (r: string)
    ensures |r| <= |s|
  {
    if s != [] && IsMark(s[0]) then StripMarksStart(s[1..]) else s
  }

  function StripMarksEnd(s: string): (r: string)
    ensures |r| <= |s|
  {
    if s != [] && IsMark(s[|s| - 1]) then StripMarksEnd(s[..|s| - 1]) else s
  }

  /** `s.strip("._")`. */
  function StripMarks(s: string): string {
    StripMarksEnd(StripMarksStart(s))
  }

  /** `strip("._")`, then the fixed name when nothing is left. */
  function StripOrFallback(s: string): string {
    if StripMarks(s) == [] then FallbackName else StripMarks(s)
  }

  /** The sanitised domain: no "www.", invalid runs replaced, marks stripped, a fixed name if empty. */
  function SanitizeDomain(netloc: string): string {
    StripOrFallback(ReplaceInvalidRuns(DropWww(netloc)))
  }

  function OutputFileName(netloc: string): string {
    SanitizeDomain(netloc) + ".md"
  }

  /** The generated path `storage/<name>.md`. */
  function GeneratedPath(netloc: string): string {
    "storage/" + OutputFileName(netloc)
  }

  /** Every character of the replacement is one `[\w.-]` keeps. */
  lemma {:induction false} ReplaceValid(s: string)
    ensures AllNameChars(ReplaceInvalidRuns(s))
    decreases |s|
  {
    if s == [] {
    } else if IsNameChar(s[0]) {
      ReplaceValid(s[1..]);
    } else {
      ReplaceValid(SkipInvalid(s[1..]));
    }
  }

  /** A string with only valid characters is left as it is. */
  lemma {:induction false} ReplaceIdentity(s: string)
    requires AllNameChars(s)
    ensures ReplaceInvalidRuns(s) == s
    decreases |s|
  {
    if s != [] {
      assert AllNameChars(s[1..]) by {
        forall i | 0 <= i < |s| - 1 ensures IsNameChar(s[1..][i]) {
          assert s[1..][i] == s[i + 1];
        }
      }
      ReplaceIdentity(s[1..]);
    }
  }

  lemma {:induction false} SkipRun(r: string, t: string)
    requires NoNameChars(r)
    requires t == [] || IsNameChar(t[0])
    ensures SkipInvalid(r + t) == t
    decreases |r|
  {
    if r == [] {
      assert r + t == t;
    } else {
      assert (r + t)[1..] == r[1..] + t;
      assert NoNameChars(r[1..]) by {
        forall i | 0 <= i < |r| - 1 ensures !IsNameChar(r[1..][i]) {
          assert r[1..][i] == r[i + 1];
        }
      }
      SkipRun(r[1..], t);
    }
  }

  /**
   * A maximal run of invalid characters after a valid stretch becomes a single "_":
   * the valid stretch is kept, the run collapses, and the rest is treated on its own.
   */
  lemma {:induction false} ReplaceRun(v: string, r: string, t: string)
    requires AllNameChars(v) && r != [] && NoNameChars(r)
    requires t == [] || IsNameChar(t[0])
    ensures ReplaceInvalidRuns(v + r + t) == v + "_" + ReplaceInvalidRuns(t)
    decreases |v|
  {
    if v == [] {
      assert v + r + t == r + t;
      assert (r + t)[1..] == r[1..] + t;
      assert NoNameChars(r[1..]) by {
        forall i | 0 <= i < |r| - 1 ensures !IsNameChar(r[1..][i]) {
          assert r[1..][i] == r[i + 1];
        }
      }
      SkipRun(r[1..], t);
    } else {
      assert (v + r + t)[1..] == v[1..] + r + t;
      assert AllNameChars(v[1..]) by {
        forall i | 0 <= i < |v| - 1 ensures IsNameChar(v[1..][i]) {
          assert v[1..][i] == v[i + 1];
        }
      }
      ReplaceRun(v[1..], r, t);
    }
  }

  /** Replacement empties only the empty string. */
  lemma ReplaceEmptyIff(s: string)
    ensures ReplaceInvalidRuns(s) == [] <==> s == []
  {
  }

  lemma {:induction false} StripMarksStartShape(s: string)
    ensures StripMarksStart(s) == s[|s| - |StripMarksStart(s)|..]
    ensures forall i :: 0 <= i < |s| - |StripMarksStart(s)| ==> IsMark(s[i])
    ensures StripMarksStart(s) == [] || !IsMark(StripMarksStart(s)[0])
  {
    if s != [] && IsMark(s[0]) {
      StripMarksStartShape(s[1..]);
      var r := StripMarksStart(s);
      assert s[1..][|s| - 1 - |r|..] == s[|s| - |r|..];
      forall i | 0 <= i < |s| - |r| ensures IsMark(s[i]) {
        if i > 0 {
          assert s[i] == s[1..][i - 1];
        }
      }
    }
  }

  lemma {:induction false} StripMarksEndShape(s: string)
    ensures StripMarksEnd(s) == s[..|StripMarksEnd(s)|]
    ensures forall i :: |StripMarksEnd(s)| <= i < |s| ==> IsMark(s[i])
    ensures StripMarksEnd(s) == [] || !IsMark(StripMarksEnd(s)[|StripMarksEnd(s)| - 1])
  {
    if s != [] && IsMark(s[|s| - 1]) {
      var s' := s[..|s| - 1];
      StripMarksEndShape(s');
      var r := StripMarksEnd(s);
      assert s'[..|r|] == s[..|r|];
      forall i | |r| <= i < |s| ensures IsMark(s[i]) {
        if i < |s| - 1 {
          assert s[i] == s'[i];
        }
      }
    }
  }

  /** `strip("._")` leaves neither end of the string a mark. */
  lemma StripMarksEnds(s: string)
    ensures StripMarks(s) == [] || (!IsMark(StripMarks(s)[0]) && !IsMark(StripMarks(s)[|StripMarks(s)| - 1]))
  {
    var a := StripMarksStart(s);
    StripMarksStartShape(s);
    StripMarksEndShape(a);
    var r := StripMarksEnd(a);
    if r != [] {
      assert r[0] == a[0];
    }
  }

  /** `strip("._")` removes characters only from the ends, so a string of valid characters stays one. */
  lemma StripMarksKeepsNames(s: string)
    requires AllNameChars(s)
    ensures AllNameChars(StripMarks(s))
  {
    var a := StripMarksStart(s);
    StripMarksStartShape(s);
    StripMarksEndShape(a);
    var r := StripMarksEnd(a);
    forall i | 0 <= i < |r| ensures IsNameChar(r[i]) {
      assert r[i] == a[i];
      assert a[i] == s[|s| - |a| + i];
    }
  }

  /** A string with a non-mark at both ends is left as it is. */
  lemma StripMarksNoop(s: string)
    requires s != [] && !IsMark(s[0]) && !IsMark(s[|s| - 1])
    ensures StripMarks(s) == s
  {
  }

  lemma FallbackWellFormed()
    ensures AllNameChars(FallbackName) && !IsMark(FallbackName[0]) && !IsMark(FallbackName[|FallbackName| - 1])
  {
  }

  /**
   * The sanitised domain is never empty, holds only `[\w.-]` characters, and neither
   * starts nor ends with "." or "_".
   */
  lemma SanitizedWellFormed(netloc: string)
    ensures SanitizeDomain(netloc) != []
    ensures AllNameChars(SanitizeDomain(netloc))
    ensures !IsMark(SanitizeDomain(netloc)[0])
    ensures !IsMark(SanitizeDomain(netloc)[|SanitizeDomain(netloc)| - 1])
  {
    var replaced := ReplaceInvalidRuns(DropWww(netloc));
    ReplaceValid(DropWww(netloc));
    StripMarksEnds(replaced);
    StripMarksKeepsNames(replaced);
    FallbackWellFormed();
  }

  /** A host that is already a clean name (no "www.", valid characters, no mark at either end) is used as it is. */
  lemma SanitizeKeepsCleanHost(netloc: string)
    requires netloc != [] && AllNameChars(netloc) && !IsPrefix("www.", netloc)
    requires !IsMark(netloc[0]) && !IsMark(netloc[|netloc| - 1])
    ensures SanitizeDomain(netloc) == netloc
  {
    ReplaceIdentity(netloc);
    StripMarksNoop(netloc);
  }

  /** Only one "www." is dropped: "www." followed by a host gives the host's own name. */
  lemma SanitizeDropsOneWww(host: string)
    ensures SanitizeDomain("www." + host) == StripOrFallback(ReplaceInvalidRuns(host))
  {
    assert IsPrefix("www.", "www." + host);
    assert ("www." + host)[4..] == host;
  }

  // ---------------------------------------------------------------------------
  // Filter chain.

  datatype Filter =
    | UrlPattern(patterns: seq<string>, reverse: bool)
    | ContentType(allowed: seq<string>)

  /** Position of a filter kind in the chain: exclusions, inclusions, content types. */
  function Rank(f: Filter): nat {
    match f
    case UrlPattern(_, reverse) => if reverse then 0 else 1
    case ContentType(_) => 2
  }

  /** The filter list, built by appending as `main` does. */
  method BuildFilters(excluded: seq<string>, included: seq<string>, contentTypes: seq<string>)
    returns (filters: seq<Filter>)
    ensures |filters| <= 3
    ensures UrlPattern(excluded, true) in filters <==> excluded != []
    ensures UrlPattern(included, false) in filters <==> included != []
    ensures ContentType(contentTypes) in filters <==> contentTypes != []
    ensures forall f :: f in filters ==>
              f == UrlPattern(excluded, true) || f == UrlPattern(included, false) || f == ContentType(contentTypes)
    ensures forall i, j :: 0 <= i < j < |filters| ==> Rank(filters[i]) < Rank(filters[j])
  {
    filters := [];
    if excluded != [] {
      filters := filters + [UrlPattern(excluded, true)];
    }
    if included != [] {
      filters := filters + [UrlPattern(included, false)];
    }
    if contentTypes != [] {
      filters := filters + [ContentType(contentTypes)];
    }
  }

  // ---------------------------------------------------------------------------
  // Markdown generator, wait condition, script, timeout.

  datatype GeneratorKind = LinkRemoving | DefaultGenerator
  datatype Generator = Generator(kind: GeneratorKind, options: map<string, bool>)

  function ChooseGenerator(removeLinks: bool, ignoreImages: bool): (g: Generator)
    ensures g.kind == LinkRemoving <==> removeLinks
    ensures g.options == map["ignore_images" := ignoreImages]
  {
    if removeLinks then Generator(LinkRemoving, map["ignore_images" := ignoreImages])
    else Generator(DefaultGenerator, map["ignore_images" := ignoreImages])
  }

  /** Python truthiness of an optional string. */
  predicate Given(s: Option<string>) {
    s.Some? && s.value != ""
  }

  function FinalWaitFor(waitFor: Option<string>, jsRender: bool): Option<string> {
    if Given(waitFor) then waitFor else if jsRender then Some(WaitForJsRenderDefault) else None
  }

  /** A non-empty `--wait-for` wins; otherwise "5" exactly when JS rendering is awaited; an empty one counts as absent. */
  lemma FinalWaitForCases(waitFor: Option<string>, jsRender: bool)
    ensures Given(waitFor) ==> FinalWaitFor(waitFor, jsRender) == waitFor
    ensures !Given(waitFor) ==> (FinalWaitFor(waitFor, jsRender) == Some("5") <==> jsRender)
    ensures FinalWaitFor(waitFor, jsRender).None? <==> !Given(waitFor) && !jsRender
    ensures FinalWaitFor(waitFor, jsRender) != Some("")
  {
  }

  /** The page script: the user's, or the built-in scroll-and-expand script (its text is not modelled). */
  datatype Script = UserScript(code: string) | ScrollAndExpandScript

  function FinalJsCode(jsCode: Option<string>, jsRender: bool): Option<Script> {
    if Given(jsCode) then Some(UserScript(jsCode.value))
    else if jsRender then Some(ScrollAndExpandScript)
    else None
  }

  lemma FinalJsCodeCases(jsCode: Option<string>, jsRender: bool)
    ensures Given(jsCode) ==> FinalJsCode(jsCode, jsRender) == Some(UserScript(jsCode.value))
    ensures FinalJsCode(jsCode, jsRender) == Some(ScrollAndExpandScript) <==> !Given(jsCode) && jsRender
    ensures FinalJsCode(jsCode, jsRender).None? <==> !Given(jsCode) && !jsRender
  {
  }

  // ---------------------------------------------------------------------------
  // Cache mode: the first member (of an abstract list of names) matching case-insensitively.

  function FindCacheMode(names: seq<string>, input: string, from: nat): (r: Option<nat>)
    requires from <= |names|
    ensures r.Some? ==> from <= r.value < |names| && Lower(names[r.value]) == Lower(input)
    ensures r.Some? ==> forall j :: from <= j < r.value ==> Lower(names[j]) != Lower(input)
    ensures r.None? ==> forall j :: from <= j < |names| ==> Lower(names[j]) != Lower(input)
    decreases |names| - from
  {
    if from == |names| then None
    else if Lower(names[from]) == Lower(input) then Some(from)
    else FindCacheMode(names, input, from + 1)
  }

  /** `next(mode for mode in CacheMode if mode.name.lower() == input.lower())`, None for StopIteration. */
  function LookupCacheMode(names: seq<string>, input: string): (r: Option<nat>)
    ensures r.Some? ==> r.value < |names| && Lower(names[r.value]) == Lower(input)
    ensures r.Some? ==> forall j :: 0 <= j < r.value ==> Lower(names[j]) != Lower(input)
    ensures r.None? <==> forall j :: 0 <= j < |names| ==> Lower(names[j]) != Lower(input)
  {
    FindCacheMode(names, input, 0)
  }

  /** Matching ignores ASCII case: a name always finds itself written in any case. */
  lemma CacheModeIgnoresCase(names: seq<string>, input: string, other: string)
    requires Lower(input) == Lower(other)
    ensures LookupCacheMode(names, input) == LookupCacheMode(names, other)
  {
  }

  /** The default `--cache-mode` is found whenever the enum has a member of that name. */
  lemma DefaultCacheModeFound(names: seq<string>, k: nat)
    requires k < |names| && names[k] == DefaultCacheModeName
    ensures LookupCacheMode(names, DefaultCacheModeName).Some?
    ensures LookupCacheMode(names, DefaultCacheModeName).value <= k
  {
    assert Lower(names[k]) == Lower(DefaultCacheModeName);
  }

  // ---------------------------------------------------------------------------
  // The whole configuration step of `main`.

  datatype Options = Options(
    url: string,
    outputFile: Option<string>,
    outputTitle: string,
    includePatterns: Option<seq<string>>,
    excludePatterns: Option<seq<string>>,
    contentTypes: Option<seq<string>>,
    keywords: Option<seq<string>>,
    removeLinks: bool,
    ignoreImages: bool,
    cacheMode: string,
    waitFor: Option<string>,
    jsCode: Option<string>,
    pageLoadTimeout: int,
    waitForJsRender: bool)

  /** The run configuration; `cacheMode` is an index into the cache-mode names, set after construction. */
  datatype RunConfig = RunConfig(
    generator: Generator,
    waitFor: Option<string>,
    jsCode: Option<Script>,
    pageTimeoutMs: int,
    cacheMode: Option<nat>)

  datatype Plan = Plan(
    outputFile: string,
    outputTitle: string,
    filters: seq<Filter>,
    keywords: seq<string>,
    config: RunConfig)

  datatype Setup = Planned(plan: Plan) | SetupExit(code: int)

  /**
   * The configuration part of `main`. `urlparse` is a parameter giving the url's netloc,
   * None where it raises. Any failure leaves through exit code 1.
   */
  method Configure(o: Options, cacheModeNames: seq<string>, urlparse: string -> Option<string>)
    returns (setup: Setup)
    ensures o.outputFile.None? && urlparse(o.url).None? ==> setup == SetupExit(1)
    ensures (o.outputFile.Some? || urlparse(o.url).Some?) && LookupCacheMode(cacheModeNames, o.cacheMode).None?
            ==> setup == SetupExit(1)
    ensures setup.SetupExit? ==> setup.code == 1
    ensures (o.outputFile.Some? || urlparse(o.url).Some?) && LookupCacheMode(cacheModeNames, o.cacheMode).Some?
            ==> setup.Planned?
    ensures setup.Planned? && o.excludePatterns.None? ==> UrlPattern(DefaultExcludePatterns, true) in setup.plan.filters
    ensures setup.Planned? && o.includePatterns.None? ==> UrlPattern(DefaultIncludePatterns, false) in setup.plan.filters
    ensures setup.Planned? && o.contentTypes.None? ==> ContentType(DefaultContentTypes) in setup.plan.filters
    ensures setup.Planned? ==>
      var p := setup.plan;
      && LookupCacheMode(cacheModeNames, o.cacheMode).Some?
      && p.config.cacheMode == LookupCacheMode(cacheModeNames, o.cacheMode)
      && (o.outputFile.Some? ==> p.outputFile == o.outputFile.value)
      && (o.outputFile.None? ==> urlparse(o.url).Some? && p.outputFile == GeneratedPath(urlparse(o.url).value))
      && p.outputTitle == o.outputTitle
      && p.keywords == FinalList(o.keywords, DefaultKeywords)
      && p.config.generator == ChooseGenerator(o.removeLinks, o.ignoreImages)
      && p.config.waitFor == FinalWaitFor(o.waitFor, o.waitForJsRender)
      && p.config.jsCode == FinalJsCode(o.jsCode, o.waitForJsRender)
      && p.config.pageTimeoutMs == 30000
      && (FinalList(o.excludePatterns, DefaultExcludePatterns) != [] <==>
            UrlPattern(FinalList(o.excludePatterns, DefaultExcludePatterns), true) in p.filters)
      && (FinalList(o.includePatterns, DefaultIncludePatterns) != [] <==>
            UrlPattern(FinalList(o.includePatterns, DefaultIncludePatterns), false) in p.filters)
      && (FinalList(o.contentTypes, DefaultContentTypes) != [] <==>
            ContentType(FinalList(o.contentTypes, DefaultContentTypes)) in p.filters)
      && (forall f :: f in p.filters ==>
            || f == UrlPattern(FinalList(o.excludePatterns, DefaultExcludePatterns), true)
            || f == UrlPattern(FinalList(o.includePatterns, DefaultIncludePatterns), false)
            || f == ContentType(FinalList(o.contentTypes, DefaultContentTypes)))
      && (forall i, j :: 0 <= i < j < |p.filters| ==> Rank(p.filters[i]) < Rank(p.filters[j]))
  {
    DefaultsNonEmpty();
    var includePatterns := FinalList(o.includePatterns, DefaultIncludePatterns);
    var excludePatterns := FinalList(o.excludePatterns, DefaultExcludePatterns);
    var contentTypes := FinalList(o.contentTypes, DefaultContentTypes);
    var keywords := FinalList(o.keywords, DefaultKeywords);

    var outputFile: string;
    if o.outputFile.None? {
      var netloc := urlparse(o.url);
      if netloc.None? {
        return SetupExit(1);
      }
      outputFile := GeneratedPath(netloc.value);
    } else {
      outputFile := o.outputFile.value;
    }

    var filters := BuildFilters(excludePatterns, includePatterns, contentTypes);
    var generator := ChooseGenerator(o.removeLinks, o.ignoreImages);
    var config := RunConfig(generator, FinalWaitFor(o.waitFor, o.waitForJsRender),
                            FinalJsCode(o.jsCode, o.waitForJsRender), DefaultBrowserTimeout * 1000, None);

    var mode := LookupCacheMode(cacheModeNames, o.cacheMode);
    if mode.None? {
      return SetupExit(1);
    }
    config := config.(cacheMode := mode);
    return Planned(Plan(outputFile, o.outputTitle, filters, keywords, config));
  }

  // ---------------------------------------------------------------------------
  // Exit status of the whole command.

  /**
   * The process exit status as written: `main` catches `typer.Exit` around the crawl
   * and passes, so the exit code an aborted crawl asks for is dropped.
   */
  function MainExitAsWritten(run: Crawler.CrawlRun): int {
    match run
    case Finished(_, _, _) => 0
    case Aborted(_, _) => 0
  }

  /** The status the crawl asked for: the exit code of an aborted crawl, 0 for a finished one. */
  function MainExit(run: Crawler.CrawlRun): int {
    match run
    case Finished(_, _, _) => 0
    case Aborted(_, c) => c
  }

  /** The two statuses part exactly on a crawl that aborts with a non-zero code. */
  lemma ExitStatusesDiffer(run: Crawler.CrawlRun)
    ensures MainExitAsWritten(run) != MainExit(run) <==> run.Aborted? && run.code != 0
  {
  }

  /** A crawl whose stream raises ends the process with status 1. */
  lemma RaisingStreamExitsOne(file: string)
    ensures MainExit(Crawler.Aborted(file, 1)) == 1
    ensures MainExitAsWritten(Crawler.Aborted(file, 1)) == 0
  {
  }

  /**
   * `main` end to end, as written: configure, then fold the crawler's stream into the
   * output file; the `typer.Exit` of a failed crawl is swallowed, so every crawl exits 0.
   */
  method RunMainAsWritten(o: Options, cacheModeNames: seq<string>, urlparse: string -> Option<string>,
                          stream: Crawler.Stream)
    returns (code: int, output: Option<string>)
    ensures output.Some? <==> (o.outputFile.Some? || urlparse(o.url).Some?) && LookupCacheMode(cacheModeNames, o.cacheMode).Some?
    ensures output.Some? ==> output.value == Crawler.Document(o.outputTitle, stream.results)
    ensures output.Some? ==> code == 0
    ensures output.None? ==> code == 1
  {
    var setup := Configure(o, cacheModeNames, urlparse);
    if setup.SetupExit? {
      return setup.code, None;
    }
    var run := Crawler.RunCrawl(setup.plan.outputTitle, stream);
    code := MainExitAsWritten(run);
    output := Some(run.file);
  }

  /**
   * `main` end to end, corrected: configure, then fold the crawler's stream into the output file.
   * Returns the exit status and the file's content (None when no crawl started).
   */
  method RunMain(o: Options, cacheModeNames: seq<string>, urlparse: string -> Option<string>, stream: Crawler.Stream)
    returns (code: int, output: Option<string>)
    ensures o.outputFile.None? && urlparse(o.url).None? ==> code == 1 && output.None?
    ensures LookupCacheMode(cacheModeNames, o.cacheMode).None? ==> code == 1 && output.None?
    ensures output.Some? <==> (o.outputFile.Some? || urlparse(o.url).Some?) && LookupCacheMode(cacheModeNames, o.cacheMode).Some?
    ensures output.Some? ==> output.value == Crawler.Document(o.outputTitle, stream.results)
    ensures output.Some? ==> (code == 1 <==> stream.raises) && (code == 0 <==> !stream.raises)
    ensures output.None? ==> code == 1
  {
    var setup := Configure(o, cacheModeNames, urlparse);
    if setup.SetupExit? {
      return setup.code, None;
    }
    var run := Crawler.RunCrawl(setup.plan.outputTitle, stream);
    code := MainExit(run);
    output := Some(run.file);
  }
}

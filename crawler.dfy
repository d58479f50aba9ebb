/**
 * The output-document fold of `run_crawl`: the crawler is a finite stream of results
 * (which may end by raising), and the Markdown file is the string appended to so far.
 */
module Crawler {
  import opened Wrappers
  import opened Seqs

  /** `result.metadata`: absent, a dict (values given by their `str()` form), a str, or anything else. */
  datatype Metadata = MetaNone | MetaDict(entries: map<string, string>) | MetaStr(s: string) | MetaOther

  /** `result.markdown`: absent, or an object with its truthiness and its `raw_markdown` (None when it has none). */
  datatype MarkdownField = NoMarkdown | MarkdownObj(truthy: bool, raw: Option<string>)

  datatype CrawlResult = CrawlResult(success: bool, url: string, metadata: Metadata, markdown: MarkdownField)

  /** What the crawler yields: its results in arrival order, then either the end or an exception. */
  datatype Stream = Stream(results: seq<CrawlResult>, raises: bool)

  /** How a run ends: normally with both counters, or by `typer.Exit` with the file as written so far. */
  datatype CrawlRun =
    | Finished(file: string, processed: nat, errors: nat)
    | Aborted(file: string, code: int)

  const UnknownTitle := "Unknown Page"
  const NoContent := "*(No markdown content extracted)*"

  /** The heading of a page: the dict's "title", the str metadata, or "Unknown Page". */
  function PageTitle(r: CrawlResult): string {
    match r.metadata
    case MetaDict(m) =>
      if m == map[] then UnknownTitle
      else if "title" in m then m["title"] else "Page from " + r.url
    case MetaStr(s) => s
    case _ => UnknownTitle
  }

  /** `md_content`: the raw markdown of a truthy markdown object, and "" otherwise. */
  function MarkdownText(r: CrawlResult): string {
    match r.markdown
    case MarkdownObj(truthy, raw) => if truthy && raw.Some? then raw.value else ""
    case NoMarkdown => ""
  }

  function Heading(r: CrawlResult): string {
    "\n## " + PageTitle(r) + "\n\n"
  }

  function SourceLine(r: CrawlResult): string {
    "Source: " + r.url + "\n\n"
  }

  function Body(r: CrawlResult): string {
    var md := MarkdownText(r);
    if md != "" then md + "\n\n" else NoContent + "\n\n"
  }

  /** What one successful result appends to the file. */
  function Section(r: CrawlResult): string {
    Heading(r) + SourceLine(r) + Body(r)
  }

  /**
   * The successful results, in arrival order: a subsequence of the results, all successes,
   * and one element short of `rs` for each failure, so no success is missing.
   */
  function Successes(rs: seq<CrawlResult>): (s: seq<CrawlResult>)
    ensures IsSubseq(s, rs)
    ensures forall i :: 0 <= i < |s| ==> s[i].success
    ensures |s| + Failures(rs) == |rs|
  {
    if rs == [] then []
    else
      var init, last := rs[..|rs| - 1], rs[|rs| - 1];
      assert rs == init + [last];
      var s' := Successes(init);
      SubseqRefl([last]);
      if last.success then
        SubseqConcat(s', init, [last], [last]);
        s' + [last]
      else
        SubseqConcat(s', init, [], [last]);
        assert s' + [] == s';
        s'
  }

  function Failures(rs: seq<CrawlResult>): nat {
    if rs == [] then 0
    else Failures(rs[..|rs| - 1]) + if rs[|rs| - 1].success then 0 else 1
  }

  /** The pieces `f` gives for each element, concatenated in order. */
  function ConcatMap<T>(xs: seq<T>, f: T -> string): string {
    if xs == [] then "" else ConcatMap(xs[..|xs| - 1], f) + f(xs[|xs| - 1])
  }

  /** The sections of the given results, concatenated in order. */
  function Sections(rs: seq<CrawlResult>): string {
    ConcatMap(rs, Section)
  }

  /** The file after the given results: the title line, then one section per success. */
  function Document(title: string, rs: seq<CrawlResult>): string {
    title + "\n\n" + Sections(Successes(rs))
  }

  /** The writes `run_crawl` makes for one successful result: heading, source line, content. */
  method WriteSection(file: string, result: CrawlResult) returns (file': string)
    ensures file' == file + Section(result)
  {
    var pageTitle := UnknownTitle;
    match result.metadata {
      case MetaDict(m) =>
        if m != map[] {
          pageTitle := if "title" in m then m["title"] else "Page from " + result.url;
        }
      case MetaStr(s) =>
        pageTitle := s;
      case _ =>
    }
    assert pageTitle == PageTitle(result);
    var heading := "\n## " + pageTitle + "\n\n";
    var source := "Source: " + result.url + "\n\n";
    var mdContent := "";
    if result.markdown.MarkdownObj? && result.markdown.truthy && result.markdown.raw.Some? {
      mdContent := result.markdown.raw.value;
    }
    assert mdContent == MarkdownText(result);
    var content := if mdContent != "" then mdContent + "\n\n" else "*(No markdown content extracted)*\n\n";
    assert content == Body(result);
    file' := file + heading;
    file' := file' + source;
    file' := file' + content;
    ConcatAssoc(file, heading, source, content);
  }

  lemma ConcatAssoc(a: string, b: string, c: string, d: string)
    ensures a + b + c + d == a + (b + c + d)
  {
  }

  /**
   * `run_crawl` without its throttle and printing: writes the title, folds the stream
   * into the file and the two counters, and exits with code 1 if the stream raises.
   */
  method RunCrawl(title: string, stream: Stream) returns (run: CrawlRun)
    ensures !stream.raises ==> run == Finished(Document(title, stream.results),
                                               |Successes(stream.results)|, Failures(stream.results))
    ensures stream.raises ==> run == Aborted(Document(title, stream.results), 1)
  {
    var file := title + "\n\n";
    var processed := 0;
    var errors := 0;
    var i := 0;
    while i < |stream.results|
      invariant 0 <= i <= |stream.results|
      invariant file == Document(title, stream.results[..i])
      invariant processed == |Successes(stream.results[..i])|
      invariant errors == Failures(stream.results[..i])
    {
      var result := stream.results[i];
      ghost var done := stream.results[..i];
      assert stream.results[..i + 1] == done + [result];
      CountsStep(done, result);
      if result.success {
        processed := processed + 1;
        file := WriteSection(file, result);
        SuccessAppendsSection(title, done, result);
      } else {
        errors := errors + 1;
        FailureAppendsNothing(title, done, result);
      }
      i := i + 1;
    }
    assert stream.results[..i] == stream.results;
    if stream.raises {
      return Aborted(file, 1);
    }
    return Finished(file, processed, errors);
  }

  lemma {:induction false} SuccessesAppend(a: seq<CrawlResult>, b: seq<CrawlResult>)
    ensures Successes(a + b) == Successes(a) + Successes(b)
    decreases |b|
  {
    if b == [] {
      assert a + b == a;
    } else {
      var b' := b[..|b| - 1];
      assert (a + b)[..|a + b| - 1] == a + b';
      SuccessesAppend(a, b');
    }
  }

  lemma {:induction false} FailuresAppend(a: seq<CrawlResult>, b: seq<CrawlResult>)
    ensures Failures(a + b) == Failures(a) + Failures(b)
    decreases |b|
  {
    if b == [] {
      assert a + b == a;
    } else {
      var b' := b[..|b| - 1];
      assert (a + b)[..|a + b| - 1] == a + b';
      FailuresAppend(a, b');
    }
  }

  lemma {:induction false} ConcatMapAppend<T>(a: seq<T>, b: seq<T>, f: T -> string)
    ensures ConcatMap(a + b, f) == ConcatMap(a, f) + ConcatMap(b, f)
    decreases |b|
  {
    if b == [] {
      assert a + b == a;
    } else {
      var b', x := b[..|b| - 1], b[|b| - 1];
      assert (a + b)[..|a + b| - 1] == a + b';
      assert (a + b)[|a + b| - 1] == x;
      ConcatMapAppend(a, b', f);
    }
  }

  /** One more result adds one to exactly one of the two counters. */
  lemma CountsStep(rs: seq<CrawlResult>, r: CrawlResult)
    ensures |Successes(rs + [r])| == |Successes(rs)| + (if r.success then 1 else 0)
    ensures Failures(rs + [r]) == Failures(rs) + (if r.success then 0 else 1)
  {
    assert (rs + [r])[..|rs|] == rs;
  }

  /** Every consumed result is counted exactly once, as a success or as an error. */
  lemma {:induction false} CountsCoverStream(rs: seq<CrawlResult>)
    ensures |Successes(rs)| + Failures(rs) == |rs|
  {
    if rs != [] {
      CountsCoverStream(rs[..|rs| - 1]);
    }
  }

  /** A failed result leaves the file as it was. */
  lemma FailureAppendsNothing(title: string, rs: seq<CrawlResult>, r: CrawlResult)
    requires !r.success
    ensures Document(title, rs + [r]) == Document(title, rs)
  {
    assert (rs + [r])[..|rs|] == rs;
  }

  /** A successful result appends exactly its own section at the end. */
  lemma SuccessAppendsSection(title: string, rs: seq<CrawlResult>, r: CrawlResult)
    requires r.success
    ensures Document(title, rs + [r]) == Document(title, rs) + Section(r)
  {
    assert (rs + [r])[..|rs|] == rs;
    ConcatMapAppend(Successes(rs), [r], Section);
    assert [r][..0] == [];
  }

  /** The file only grows: what is on disk after some results is a prefix of what follows. */
  lemma DocumentGrows(title: string, a: seq<CrawlResult>, b: seq<CrawlResult>)
    ensures Document(title, a + b) == Document(title, a) + Sections(Successes(b))
  {
    SuccessesAppend(a, b);
    ConcatMapAppend(Successes(a), Successes(b), Section);
  }

  /** The title line comes first, before any section. */
  lemma DocumentStartsWithTitle(title: string, rs: seq<CrawlResult>)
    ensures (title + "\n\n") <= Document(title, rs)
  {
  }

  /**
   * Title selection: a non-empty dict gives its "title" entry, or "Page from <url>" without one;
   * an empty dict and non-dict, non-str metadata give "Unknown Page"; a str is used even when empty.
   */
  lemma PageTitleCases(r: CrawlResult)
    ensures r.metadata.MetaDict? && "title" in r.metadata.entries ==> PageTitle(r) == r.metadata.entries["title"]
    ensures r.metadata == MetaDict(map[]) ==> PageTitle(r) == UnknownTitle
    ensures r.metadata.MetaNone? || r.metadata.MetaOther? ==> PageTitle(r) == UnknownTitle
    ensures r.metadata.MetaStr? ==> PageTitle(r) == r.metadata.s
    ensures r.metadata.MetaDict? && r.metadata.entries != map[] && "title" !in r.metadata.entries
            ==> PageTitle(r) == "Page from " + r.url
  {
  }
}

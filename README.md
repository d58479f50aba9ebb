# crawler_cli, modelled in Dafny

A model of the logic of MCPDocSearch's crawler command-line tool.

- **`remove_links`** (`Markdown.RemoveLinks`): the HTML clean-up run before Markdown conversion. It deletes:
  - every `nav`;
  - every `header` or `footer` whose lower-cased class string or id contains one of seven navigation indicators;
  - every list item left without visible text.

  Anchors are never a deletion target of their own, but they go with the subtree they sit in: a deleted nav, an indicated header or footer, or a list item without text (an icon-only link in an `li` is deleted, `MarkdownExamples.IconLinkItemRemoved`).
- **`LinkRemovingMarkdownGenerator.generate_markdown`** (`Markdown.GenerateMarkdown`). It finds the HTML among the call's arguments and cleans it. With a truthy `base_url` it joins every anchor's href against that URL. It then writes the result back into the call and forwards the call to the parent generator.
- **The configuration part of `main`** (module `Cli`):
  - list defaults;
  - the output file name built from the URL's host;
  - the filter chain;
  - the generator choice;
  - the `wait_for` and `js_code` fallbacks;
  - the page timeout;
  - the case-insensitive cache-mode lookup;
  - the exit status.
- **The document fold of `run_crawl`** (module `Crawler`). The title line comes first, then one section per successful result, while the success and error counters are kept.

The HTML document is a value tree (`Html.Node`). BeautifulSoup's `decompose`, applied to each element `find_all` returned, becomes `Html.Prune`: a top-down deletion of every subtree whose root satisfies a predicate. The two agree because `find_all` lists elements in document order, and each predicate depends only on an element's own subtree. By the time the loop reaches an element, nothing inside it has been deleted yet. Deleting an element inside a subtree that is already gone changes nothing, except where the loop reads that element's attributes. `decompose` wipes them, so a header nested in a deleted header, or a footer nested in a deleted footer, makes `remove_links` raise (`Markdown.RemoveLinksRaises`). `get_text` collects plain strings only. The parser stores every string at any depth below a `script`, `style`, `template`, `rt` or `rp` element as a special string type, so a text node carries a `plain` flag, `Html.TextOf` skips the strings that are not plain, and `Html.StringsMarked` states how the parser sets the flag.

Some things the tool does are not visible in its own files, so the model takes them as parameters:
- the parser and `str(soup)` (`Markdown.Library`);
- `urljoin`;
- the parent generator;
- `urlparse` (which gives the netloc, or None when it raises);
- the names in crawl4ai's `CacheMode`;
- the crawler's result stream (`Crawler.Stream`).

Writes to the output file become string concatenation.

Matching of the indicators is by substring:
- a footer of class `stock-ticker` is removed because it contains "toc" (`MarkdownExamples.StockTickerFooterRemoved`);
- a header of class `canvas` is kept, because "canvas" holds the letters n, a, v but not the substring "nav" (`MarkdownExamples.CanvasHeaderKept`).

## Model

| member | source | states |
|---|---|---|
| Html.Anchors | crawler_cli/markdown.py:66 | `find_all('a')` yields only `<a>` elements |
| Html.AnchorsInDocumentOrder | crawler_cli/markdown.py:66 | the anchors listed are exactly the `<a>` entries of the document-order listing, nested ones included, in that order; those with an href are the ones rewritten |
| Html.PruneFree | crawler_cli/markdown.py:14-15 | a deletion pass leaves no matching element anywhere, for every predicate that is not re-enabled by deletions below it |
| Html.PruneKeepsFree | crawler_cli/markdown.py:13-29 | a later pass never creates an element an earlier pass removed, when the earlier predicate looks only at the element itself |
| Html.PruneNoop | crawler_cli/markdown.py:13-29 | a pass over a tree with no matching element changes nothing |
| Html.PruneKeepsText | crawler_cli/markdown.py:26-29 | deleting only text-free subtrees keeps the stripped text of every enclosing element |
| Html.PruneOnlyDeletes | crawler_cli/markdown.py:31-35 | a pass only deletes: the document-order listing of the result is a subsequence of the original's |
| Html.PruneAppend | crawler_cli/markdown.py:14-15 | a pass treats sibling subtrees independently |
| Html.MarkedTextHidden | crawler_cli/markdown.py:28 | below a script, style, template, rt or rp element, `get_text(strip=True)` finds no text |
| Html.PruneKeepsMarked | crawler_cli/markdown.py:13-29 | a deletion pass retypes no string |
| Html.PruneSingle | crawler_cli/markdown.py:14-15 | a matching element disappears with its subtree, and any other node stays with its children pruned |
| Strings.StripEmptyIff | crawler_cli/markdown.py:28 | a text node's stripped text is empty exactly when it is all whitespace |
| Strings.Lower | crawler_cli/markdown.py:20-21 | lower-casing keeps the length and lower-cases each character |
| Strings.ContainsIff | crawler_cli/markdown.py:23 | `ind in s` holds exactly when `ind` occurs at some offset of `s` |
| Strings.ContainsChars | crawler_cli/markdown.py:23 | every character of a substring occurs in the string |
| Markdown.NoNavLeft | crawler_cli/markdown.py:14-15 | after `remove_links`, no `nav` element remains anywhere |
| Markdown.NoIndicatedRegionLeft | crawler_cli/markdown.py:17-24 | after `remove_links`, no header or footer carrying an indicator remains anywhere |
| Markdown.RegionRemovedIff | crawler_cli/markdown.py:17-24 | a header or footer is removed exactly when an indicator is a substring of its lower-cased class string or id; otherwise it stays, with its attributes and with its content cleaned |
| Markdown.NoEmptyItemLeft | crawler_cli/markdown.py:26-29 | every `li` left has non-empty stripped text |
| Markdown.ItemRemovedIff | crawler_cli/markdown.py:27-29 | an `li` is removed exactly when its cleaned content has no text; otherwise it stays |
| Markdown.ItemWithTextKept | crawler_cli/markdown.py:27-29 | an `li` with visible text and no navigation inside is kept |
| Markdown.EmptyItemsAreBlank | crawler_cli/markdown.py:27-29 | deleting empty `li`s removes no text, so it never empties an enclosing `li` |
| Markdown.RemoveLinksNode | crawler_cli/markdown.py:13-29 | what the passes do to one node: a removed element goes with its subtree; anything else stays with its children cleaned |
| Markdown.RemoveLinksAppend | crawler_cli/markdown.py:13-29 | `remove_links` treats sibling subtrees independently |
| Markdown.AnchorKept | crawler_cli/markdown.py:31-33 | an `<a>` is never removed where it stands; its href, classes and id survive |
| Markdown.RemoveLinksOnlyDeletes | crawler_cli/markdown.py:31-35 | `remove_links` only deletes: the surviving nodes keep their tags, attributes and relative order |
| Markdown.RemoveLinksFixpointIff | crawler_cli/markdown.py:13-29 | `remove_links` leaves a document unchanged exactly when it has no nav, no indicated header or footer and no empty `li` |
| Markdown.RemoveLinksIdempotent | crawler_cli/markdown.py:13-29 | a second run changes nothing |
| Markdown.ResolveSucceedsIff | crawler_cli/markdown.py:62-71 | href resolution succeeds exactly when every join of an anchor's href succeeds |
| Markdown.ResolveRewritesAnchors | crawler_cli/markdown.py:66-67 | every `<a>` with an href gets the joined href, those without keep none, and nothing else in the tree changes |
| Markdown.ReadWriteSlotsDiffer | crawler_cli/markdown.py:44-82 | the HTML is read from one slot and written to another exactly when a positional argument and a `cleaned_html` or `input_html` keyword are both given |
| Markdown.PositionalTargetExists | crawler_cli/markdown.py:78-81 | writing position 0 back never meets an empty `args` |
| Markdown.PutSlotChangesOnlyIt | crawler_cli/markdown.py:73-82 | the write-back changes exactly one slot; every other argument, `base_url` included, is unchanged |
| Markdown.NoIndicatedRegionNeverRaises | crawler_cli/markdown.py:17-24 | a document without a header or footer carrying an indicator never makes `remove_links` raise |
| Markdown.ProcessWithoutBaseUrl | crawler_cli/markdown.py:57-61 | without a truthy `base_url` the forwarded HTML is the `remove_links` output, or the call raises when `remove_links` does |
| Markdown.ProcessFallsBack | crawler_cli/markdown.py:62-71 | when any join raises, the forwarded HTML is the `remove_links` output, or the call raises when `remove_links` does |
| Markdown.NonStringBaseJoinsOnlyEmptyHrefs | crawler_cli/markdown.py:61-71 | with a truthy `base_url` that is not a string, resolution goes through exactly when every href is empty, and those hrefs become `str(base_url)`; any other href makes `urljoin` raise |
| Markdown.ProcessResolvesAnchors | crawler_cli/markdown.py:59-68 | with a string `base_url`, a parser that reads back what it wrote and a document `remove_links` does not raise on, the forwarded HTML is the cleaned tree with every anchor's href joined |
| Markdown.GenerateMarkdown | crawler_cli/markdown.py:42-85 | no HTML found (a positional None included): the parent gets the call unchanged; non-text markup raises, and so does a `remove_links` that raises; otherwise the parent gets the call with the target slot replaced by the processed HTML |
| MarkdownExamples.NoIndicatorLetters | crawler_cli/markdown.py:11 | each of the seven indicators holds one of n, b, o, m, so a class string without them never matches |
| MarkdownExamples.SiteHeaderKept | crawler_cli/markdown.py:17-24 | `<header class="site-header">` stays, with its content cleaned |
| MarkdownExamples.NavFooterRemoved | crawler_cli/markdown.py:17-24 | `<footer id="nav-footer">` is removed with its content |
| MarkdownExamples.StockTickerFooterRemoved | crawler_cli/markdown.py:17-24 | a footer of class `stock-ticker` is removed, since the match is by substring ("toc") |
| MarkdownExamples.CanvasHeaderKept | crawler_cli/markdown.py:17-24 | a header of class `canvas` stays: "canvas" does not contain "nav" |
| MarkdownExamples.BlankItemRemoved | crawler_cli/markdown.py:27-29 | an `li` holding only whitespace is removed |
| MarkdownExamples.ScriptOnlyItemRemoved | crawler_cli/markdown.py:27-29 | an `li` whose only text is inside a `<script>` is removed |
| MarkdownExamples.TemplateItemRemoved | crawler_cli/markdown.py:27-29 | an `li` inside a `<template>` is removed, since every string below the template is a template string |
| MarkdownExamples.IconLinkItemRemoved | crawler_cli/markdown.py:27-29 | an `li` holding only a link around an image has no text and is deleted, anchor included |
| MarkdownExamples.NestedHeaderRaises | crawler_cli/markdown.py:18-24 | a header inside a header carrying an indicator makes `remove_links` raise |
| Cli.FinalListCases | crawler_cli/main.py:249-258 | each list option falls back to its default only when absent; an explicit empty list stays empty |
| Cli.DefaultsNonEmpty | crawler_cli/config.py:5-34 | the default lists are non-empty; 11 include patterns and 13 keywords |
| Cli.DropWww | crawler_cli/main.py:271 | exactly one leading "www." is dropped, and only when present |
| Cli.ReplaceValid | crawler_cli/main.py:272-274 | after the replacement, every character is a word character, "." or "-" |
| Cli.ReplaceIdentity | crawler_cli/main.py:272-274 | a string of valid characters is left as it is |
| Cli.ReplaceRun | crawler_cli/main.py:272-274 | each maximal run of invalid characters becomes a single "_" |
| Cli.ReplaceEmptyIff | crawler_cli/main.py:272-274 | the replacement empties only the empty string |
| Cli.StripMarksEnds | crawler_cli/main.py:276 | `strip("._")` leaves neither end a "." or "_" |
| Cli.StripMarksKeepsNames | crawler_cli/main.py:276 | `strip("._")` removes only end characters, so valid strings stay valid |
| Cli.StripMarksNoop | crawler_cli/main.py:276 | a string with no mark at either end is unchanged |
| Cli.SanitizedWellFormed | crawler_cli/main.py:271-279 | the sanitised domain is never empty, holds only `[\w.-]` characters, and neither starts nor ends with "." or "_" |
| Cli.SanitizeKeepsCleanHost | crawler_cli/main.py:267-281 | a host that is already a clean name is used as the file name unchanged |
| Cli.SanitizeDropsOneWww | crawler_cli/main.py:271-279 | "www." + host is sanitised as the host itself; a second "www." stays |
| Cli.BuildFilters | crawler_cli/main.py:293-299 | the reversed exclude filter, the include filter and the content-type filter, each present iff its list is non-empty, in that order, nothing else, at most three |
| Cli.ChooseGenerator | crawler_cli/main.py:316-329 | the link-removing generator iff the flag is set; both get `{"ignore_images": ignore_images}` |
| Cli.FinalWaitForCases | crawler_cli/main.py:342 | a non-empty `--wait-for` wins; otherwise "5" iff JS rendering is awaited, else None; an empty value is never forwarded |
| Cli.FinalJsCodeCases | crawler_cli/main.py:359-386 | a non-empty `--js-code` wins; the built-in script iff JS rendering is awaited; otherwise None |
| Cli.FindCacheMode | crawler_cli/main.py:394-396 | the first name at or after a position whose lower case equals the input's |
| Cli.LookupCacheMode | crawler_cli/main.py:392-398 | the first enum member whose lower-cased name equals the lower-cased input; None exactly when no member matches |
| Cli.CacheModeIgnoresCase | crawler_cli/main.py:395 | inputs differing only in case select the same mode |
| Cli.DefaultCacheModeFound | crawler_cli/main.py:191 | the default "BYPASS" is found whenever the enum has that member |
| Cli.Configure | crawler_cli/main.py:249-404 | exit code 1 when `urlparse` raises or no cache mode matches, and a plan otherwise; the plan holds the output path, list defaults, exactly the filters built from the final lists (all three under the defaults), generator, wait condition, script, a 30000 ms page timeout whatever `--page-load-timeout` says, and the cache mode set after construction |
| Cli.RunMainAsWritten | crawler_cli/main.py:406-423 | as written: status 1 and no crawl exactly on a configuration error; otherwise the output is the document of the stream and the status is 0, even when the stream raised |
| Cli.RunMain | crawler_cli/main.py:406-426 | corrected: status 1 and no crawl exactly on a configuration error; otherwise the output is the document of the stream, with status 1 exactly when the stream raised |
| Cli.ExitStatusesDiffer | crawler_cli/main.py:420-422 | the status as written and the status the crawl asks for differ exactly on a crawl aborted with a non-zero code |
| Cli.RaisingStreamExitsOne | crawler_cli/crawler.py:100-102 | a crawl whose stream raises asks for status 1, and as written exits 0 |
| Crawler.Successes | crawler_cli/crawler.py:65-66 | the successful results, in arrival order: a subsequence of the results, every element a success, one element fewer than the results for each failure |
| Crawler.WriteSection | crawler_cli/crawler.py:70-90 | one success appends its heading, its source line and its content or the placeholder |
| Crawler.RunCrawl | crawler_cli/crawler.py:33-104 | the file is the title line followed by one section per success, in arrival order; `processed_count` counts the successes and `error_count` the failures; a raising stream exits with code 1, keeping what was written |
| Crawler.SuccessAppendsSection | crawler_cli/crawler.py:79-90 | a successful result appends exactly its own section at the end |
| Crawler.FailureAppendsNothing | crawler_cli/crawler.py:91-96 | a failed result leaves the file unchanged |
| Crawler.CountsCoverStream | crawler_cli/crawler.py:65-92 | `processed_count + error_count` equals the number of results consumed |
| Crawler.DocumentGrows | crawler_cli/crawler.py:70 | the file only grows: later results append after what is already written |
| Crawler.DocumentStartsWithTitle | crawler_cli/crawler.py:33-34 | the file starts with `output_title + "\n\n"` |
| Crawler.PageTitleCases | crawler_cli/crawler.py:71-77 | a non-empty dict gives its "title" entry; an empty dict and non-dict, non-str metadata give "Unknown Page"; str metadata is used even when empty; a dict without "title" gives "Page from " + url |

## Left out

- The in-place `decompose` on the soup's object graph is modelled as deletion on a value tree. Aliasing between elements is not modelled; the argument for why the two agree is given above.
- BeautifulSoup's parser and serialiser are parameters. `Markdown.ProcessResolvesAnchors` assumes as a hypothesis that parsing what was serialised gives the same tree; the other lemmas need nothing about them.
- Comments, doctypes and the other special strings except CDATA are text nodes that are not plain; their kinds are not told apart. A CDATA section is a plain text node, since `get_text` collects CDATA strings as well. Attributes other than `class`, `id` and `href`, and entity handling are not modelled.
- `urljoin` (section 5.2 of RFC 3986, as Python implements it) is a parameter for a string `base_url` and a non-empty href. Its first checks are written out in `Markdown.Joiner`: an empty href gives the base back, and a base that is not a string otherwise raises. A join that raises makes the whole resolution fall back, as the `try` does.
- BeautifulSoup's code is not part of this model. Three of its behaviours are built in from how that library works: `decompose` wipes the attributes of what it destroys (`Markdown.RemoveLinksRaises`), the parser types every string below a `script`, `style`, `template`, `rt` or `rp` element as a special string, which `get_text` skips (`Html.HidesText`, `Html.StringsMarked`; the lemmas that depend on this take `StringsMarked` as a hypothesis about the parser), and an attribute that is not a string is serialised by its `str()` (`Markdown.StrOf`).
- Markup passed as something other than a string (bytes, a file object) is modelled as raising. BeautifulSoup accepts some of these.
- Strings.Lower: lower-cases the ASCII range only. Python's `str.lower()` also maps non-ASCII capitals, such as the Kelvin sign to "k".
- Cli.IsWordChar: `\w` is ASCII letters, digits and "_". Python's `\w` also matches non-ASCII letters and digits.
- Crawler.Metadata: the values of a metadata dict are given by their `str()` form.
- The throttle in crawler.py:56-63 is not modelled, because it depends on the clock and `asyncio.sleep`. The same goes for verbose and error printing, `mkdir`, the `async with` crawler and the browser configuration.
- `keyword_weight` and `request_delay` are floats passed to the library and are not modelled. The same holds for the pass-through options `max_depth`, `include_external`, `verbose`, `stream`, `concurrency`, `exclude_markdown_external_links` and `only_text`.
- Typer's option parsing and its range checks are not modelled.
- `DefaultMarkdownGenerator`, the filters' and scorer's own behaviour, `BestFirstCrawlingStrategy` and the contents of `CacheMode` are crawl4ai's. The cache modes are an abstract list of names.
- The text of the built-in JavaScript is not modelled. `Cli.Script.ScrollAndExpandScript` stands for it.
- config.py has no logic. The defaults `main` uses are copied into `Cli`, and `HF_TOKEN` is not used.

## Findings

| source | as written | input that shows it | evidently intended | confidence | as-written member | corrected member |
|---|---|---|---|---|---|---|
| crawler_cli/main.py:420-422 | `except typer.Exit: pass` around `asyncio.run(run_crawl(...))` swallows the `typer.Exit(code=1)` that `run_crawl` raises when crawling fails (crawler.py:100-102), so the command exits with status 0 | a crawl whose result stream raises | the process exits with status 1, as `run_crawl` asks | medium, not executed | Cli.RunMainAsWritten, Cli.ExitStatusesDiffer | Cli.RunMain, Cli.RaisingStreamExitsOne |

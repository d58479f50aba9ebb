/**
 * `crawler_cli/markdown.py`: the HTML clean-up that runs before Markdown conversion
 * (`remove_links`) and the generator that wraps the library's Markdown generator
 * (`LinkRemovingMarkdownGenerator.generate_markdown`).
 */
module Markdown {
  import opened Wrappers
  import opened Strings
  import opened Seqs
  import opened Html

  // ---------------------------------------------------------------------------
  // remove_links

  /** The substrings whose presence in a header's or footer's class or id marks it as navigation. */
  const NavIndicators: seq<string> := ["nav", "navbar", "navigation", "sidebar", "toc", "breadcrumb", "menu"]

  /** The element's classes joined by single spaces and lower-cased ("" without classes). */
  function ClassString(classes: seq<string>): string {
    Lower(JoinWith(" ", classes))
  }

  /** The element's id lower-cased ("" without an id). */
  function IdString(id: Option<string>): string {
    Lower(id.GetOr(""))
  }

  /** Some indicator is a substring of the class string or of the id string. */
  predicate HasNavIndicator(classes: seq<string>, id: Option<string>) {
    exists k :: 0 <= k < |NavIndicators| &&
      (Contains(ClassString(classes), NavIndicators[k]) || Contains(IdString(id), NavIndicators[k]))
  }

  predicate IsNav(n: Node) {
    n.Elem? && n.tag == "nav"
  }

  predicate IsIndicatedHeader(n: Node) {
    n.Elem? && n.tag == "header" && HasNavIndicator(n.classes, n.id)
  }

  predicate IsIndicatedFooter(n: Node) {
    n.Elem? && n.tag == "footer" && HasNavIndicator(n.classes, n.id)
  }

  predicate IsHeader(n: Node) {
    n.Elem? && n.tag == "header"
  }

  predicate IsFooter(n: Node) {
    n.Elem? && n.tag == "footer"
  }

  /** A list item whose `get_text(strip=True)` is empty. */
  predicate IsEmptyItem(n: Node) {
    n.Elem? && n.tag == "li" && TextOf(n.children) == []
  }

  /**
   * The four deletion loops, in the source's order: every `nav`; then every `header`,
   * then every `footer`, carrying a navigation indicator; then every list item left
   * without text. Anchors are never a target.
   */
  function RemoveLinks(doc: Forest): Forest {
    var noNav := Prune(doc, IsNav);
    var noHeader := Prune(noNav, IsIndicatedHeader);
    var noFooter := Prune(noHeader, IsIndicatedFooter);
    Prune(noFooter, IsEmptyItem)
  }

  /**
   * Whether `remove_links` raises instead of returning. `decompose` wipes the attributes of
   * every element it destroys, and `find_all` has already listed the headers (then the
   * footers), so reading the class of a header inside a deleted header (a footer inside a
   * deleted footer) fails.
   */
  predicate RemoveLinksRaises(doc: Forest) {
    var noNav := Prune(doc, IsNav);
    || EnclosesSome(noNav, IsIndicatedHeader, IsHeader)
    || EnclosesSome(Prune(noNav, IsIndicatedHeader), IsIndicatedFooter, IsFooter)
  }

  /** A document with no header or footer carrying an indicator never makes `remove_links` raise. */
  lemma NoIndicatedRegionNeverRaises(doc: Forest)
    requires Free(doc, IsIndicatedHeader) && Free(doc, IsIndicatedFooter)
    ensures !RemoveLinksRaises(doc)
  {
    RegionsHeadOnly();
    var noNav := Prune(doc, IsNav);
    PruneKeepsFree(doc, IsNav, IsIndicatedHeader);
    PruneKeepsFree(doc, IsNav, IsIndicatedFooter);
    PruneKeepsFree(noNav, IsIndicatedHeader, IsIndicatedFooter);
    FreeEnclosesNothing(noNav, IsIndicatedHeader, IsHeader);
    FreeEnclosesNothing(Prune(noNav, IsIndicatedHeader), IsIndicatedFooter, IsFooter);
  }

  /** Whether `RemoveLinks` deletes the element `n` (with its subtree) where it stands. */
  predicate Removed(n: Node) {
    || IsNav(n) || IsIndicatedHeader(n) || IsIndicatedFooter(n)
    || (n.Elem? && n.tag == "li" && TextOf(RemoveLinks(n.children)) == [])
  }

  lemma NavHeadOnly()
    ensures HeadOnly(IsNav)
  {
  }

  lemma RegionsHeadOnly()
    ensures HeadOnly(IsIndicatedHeader) && HeadOnly(IsIndicatedFooter)
  {
  }

  lemma HeadOnlySettled(p: Node -> bool)
    requires HeadOnly(p)
    ensures Settled(p)
  {
  }

  /** Deleting an empty list item removes no text, so it never empties an enclosing item. */
  lemma EmptyItemsAreBlank()
    ensures DropsOnlyBlank(IsEmptyItem)
    ensures Settled(IsEmptyItem)
  {
    forall n: Node | IsEmptyItem(n) ensures TextOf([n]) == [] {
      assert [n][1..] == [];
    }
    forall n: Node | n.Elem? && !IsEmptyItem(n)
      ensures !IsEmptyItem(n.(children := Prune(n.children, IsEmptyItem)))
    {
      PruneKeepsText(n.children, IsEmptyItem);
    }
  }

  /** `RemoveLinks` treats sibling subtrees independently. */
  lemma RemoveLinksAppend(a: Forest, b: Forest)
    ensures RemoveLinks(a + b) == RemoveLinks(a) + RemoveLinks(b)
  {
    PruneAppend(a, b, IsNav);
    PruneAppend(Prune(a, IsNav), Prune(b, IsNav), IsIndicatedHeader);
    var a2, b2 := Prune(Prune(a, IsNav), IsIndicatedHeader), Prune(Prune(b, IsNav), IsIndicatedHeader);
    PruneAppend(a2, b2, IsIndicatedFooter);
    PruneAppend(Prune(a2, IsIndicatedFooter), Prune(b2, IsIndicatedFooter), IsEmptyItem);
  }

  /**
   * What `RemoveLinks` does to one node: a removed element disappears with its subtree;
   * any other node stays, with its tag and attributes, and its children cleaned the same way.
   */
  lemma RemoveLinksNode(n: Node)
    ensures RemoveLinks([n]) == if Removed(n) then [] else if n.TextNode? then [n]
                                 else [n.(children := RemoveLinks(n.children))]
  {
    NavHeadOnly();
    RegionsHeadOnly();
    EmptyItemsAreBlank();
    PruneSingle(n, IsNav);
    if !IsNav(n) {
      var n1 := if n.TextNode? then n else n.(children := Prune(n.children, IsNav));
      PruneSingle(n1, IsIndicatedHeader);
      if !IsIndicatedHeader(n1) {
        var n2 := if n.TextNode? then n else n1.(children := Prune(n1.children, IsIndicatedHeader));
        PruneSingle(n2, IsIndicatedFooter);
        if !IsIndicatedFooter(n2) {
          var n3 := if n.TextNode? then n else n2.(children := Prune(n2.children, IsIndicatedFooter));
          PruneSingle(n3, IsEmptyItem);
          if n.Elem? {
            PruneKeepsText(n3.children, IsEmptyItem);
          }
        }
      }
    }
  }

  /** `RemoveLinks` keeps the parser's string types. */
  lemma RemoveLinksKeepsMarked(doc: Forest, below: bool)
    requires StringsMarked(doc, below)
    ensures StringsMarked(RemoveLinks(doc), below)
  {
    var f1 := Prune(doc, IsNav);
    var f2 := Prune(f1, IsIndicatedHeader);
    PruneKeepsMarked(doc, IsNav, below);
    PruneKeepsMarked(f1, IsIndicatedHeader, below);
    PruneKeepsMarked(f2, IsIndicatedFooter, below);
    PruneKeepsMarked(Prune(f2, IsIndicatedFooter), IsEmptyItem, below);
  }

  /** No `nav` element is left anywhere. */
  lemma NoNavLeft(doc: Forest)
    ensures Free(RemoveLinks(doc), IsNav)
  {
    NavHeadOnly();
    HeadOnlySettled(IsNav);
    var f1 := Prune(doc, IsNav);
    PruneFree(doc, IsNav);
    PruneKeepsFree(f1, IsIndicatedHeader, IsNav);
    var f2 := Prune(f1, IsIndicatedHeader);
    PruneKeepsFree(f2, IsIndicatedFooter, IsNav);
    PruneKeepsFree(Prune(f2, IsIndicatedFooter), IsEmptyItem, IsNav);
  }

  /** No header or footer carrying a navigation indicator is left anywhere. */
  lemma NoIndicatedRegionLeft(doc: Forest)
    ensures Free(RemoveLinks(doc), IsIndicatedHeader)
    ensures Free(RemoveLinks(doc), IsIndicatedFooter)
  {
    RegionsHeadOnly();
    HeadOnlySettled(IsIndicatedHeader);
    HeadOnlySettled(IsIndicatedFooter);
    var f1 := Prune(doc, IsNav);
    var f2 := Prune(f1, IsIndicatedHeader);
    var f3 := Prune(f2, IsIndicatedFooter);
    PruneFree(f1, IsIndicatedHeader);
    PruneKeepsFree(f2, IsIndicatedFooter, IsIndicatedHeader);
    PruneKeepsFree(f3, IsEmptyItem, IsIndicatedHeader);
    PruneFree(f2, IsIndicatedFooter);
    PruneKeepsFree(f3, IsEmptyItem, IsIndicatedFooter);
  }

  /** Every list item that is left has non-empty stripped text. */
  lemma NoEmptyItemLeft(doc: Forest)
    ensures Free(RemoveLinks(doc), IsEmptyItem)
  {
    EmptyItemsAreBlank();
    PruneFree(Prune(Prune(Prune(doc, IsNav), IsIndicatedHeader), IsIndicatedFooter), IsEmptyItem);
  }

  /** `RemoveLinks` changes a document exactly when it holds something the passes delete. */
  lemma RemoveLinksFixpointIff(doc: Forest)
    ensures RemoveLinks(doc) == doc <==>
      Free(doc, IsNav) && Free(doc, IsIndicatedHeader) && Free(doc, IsIndicatedFooter) && Free(doc, IsEmptyItem)
  {
    if Free(doc, IsNav) && Free(doc, IsIndicatedHeader) && Free(doc, IsIndicatedFooter) && Free(doc, IsEmptyItem) {
      PruneNoop(doc, IsNav);
      PruneNoop(doc, IsIndicatedHeader);
      PruneNoop(doc, IsIndicatedFooter);
      PruneNoop(doc, IsEmptyItem);
    }
    NoNavLeft(doc);
    NoIndicatedRegionLeft(doc);
    NoEmptyItemLeft(doc);
  }

  /** A second run finds nothing more to delete. */
  lemma RemoveLinksIdempotent(doc: Forest)
    ensures RemoveLinks(RemoveLinks(doc)) == RemoveLinks(doc)
  {
    var once := RemoveLinks(doc);
    NoNavLeft(doc);
    NoIndicatedRegionLeft(doc);
    NoEmptyItemLeft(doc);
    RemoveLinksFixpointIff(once);
  }

  /** `RemoveLinks` only deletes: what is left keeps its document order, tags and attributes. */
  lemma RemoveLinksOnlyDeletes(doc: Forest)
    ensures IsSubseq(Flatten(RemoveLinks(doc)), Flatten(doc))
  {
    var f1 := Prune(doc, IsNav);
    var f2 := Prune(f1, IsIndicatedHeader);
    var f3 := Prune(f2, IsIndicatedFooter);
    PruneOnlyDeletes(doc, IsNav);
    PruneOnlyDeletes(f1, IsIndicatedHeader);
    PruneOnlyDeletes(f2, IsIndicatedFooter);
    PruneOnlyDeletes(f3, IsEmptyItem);
    SubseqTrans(Flatten(f2), Flatten(f1), Flatten(doc));
    SubseqTrans(Flatten(f3), Flatten(f2), Flatten(doc));
    SubseqTrans(Flatten(RemoveLinks(doc)), Flatten(f3), Flatten(doc));
  }

  /**
   * A header or footer is deleted exactly when some indicator occurs in its class string
   * or its id; otherwise it stays, attributes intact, with its content cleaned.
   */
  lemma RegionRemovedIff(n: Node)
    requires n.Elem? && (n.tag == "header" || n.tag == "footer")
    ensures RemoveLinks([n]) == [] <==> HasNavIndicator(n.classes, n.id)
    ensures !HasNavIndicator(n.classes, n.id) ==> RemoveLinks([n]) == [n.(children := RemoveLinks(n.children))]
  {
    RemoveLinksNode(n);
  }

  /** A list item is deleted exactly when no text is left in it once its content is cleaned. */
  lemma ItemRemovedIff(n: Node)
    requires n.Elem? && n.tag == "li"
    ensures RemoveLinks([n]) == [] <==> TextOf(RemoveLinks(n.children)) == []
    ensures TextOf(RemoveLinks(n.children)) != [] ==> RemoveLinks([n]) == [n.(children := RemoveLinks(n.children))]
  {
    RemoveLinksNode(n);
  }

  /** A list item with visible text and no navigation inside it is kept. */
  lemma ItemWithTextKept(n: Node)
    requires n.Elem? && n.tag == "li" && TextOf(n.children) != []
    requires Free(n.children, IsNav) && Free(n.children, IsIndicatedHeader) && Free(n.children, IsIndicatedFooter)
    ensures RemoveLinks([n]) == [n.(children := RemoveLinks(n.children))]
  {
    var kids := n.children;
    PruneNoop(kids, IsNav);
    PruneNoop(kids, IsIndicatedHeader);
    PruneNoop(kids, IsIndicatedFooter);
    EmptyItemsAreBlank();
    PruneKeepsText(kids, IsEmptyItem);
    RemoveLinksNode(n);
  }

  /**
   * An anchor is never deleted where it stands: its href, classes and id survive, and with
   * nothing to delete inside it, it survives verbatim.
   */
  lemma AnchorKept(n: Node)
    requires IsAnchor(n)
    ensures RemoveLinks([n]) == [n.(children := RemoveLinks(n.children))]
    ensures RemoveLinks(n.children) == n.children ==> RemoveLinks([n]) == [n]
  {
    RemoveLinksNode(n);
  }

  // ---------------------------------------------------------------------------
  // Resolving hrefs against base_url

  /**
   * Rewrites the href of every `<a>` that has one to `join(href)`; `None` when some join
   * raises, in which case the source discards the whole re-parsed tree.
   */
  function ResolveHrefs(f: Forest, join: string -> Option<string>): Option<Forest> {
    if f == [] then Some([])
    else match ResolveHrefs(f[1..], join)
      case None => None
      case Some(rest) =>
        match f[0]
        case TextNode(_, _) => Some([f[0]] + rest)
        case Elem(t, c, i, h, kids) =>
          match ResolveHrefs(kids, join)
          case None => None
          case Some(kids') =>
            if t == "a" && h.Some? then
              match join(h.value)
              case None => None
              case Some(joined) => Some([Elem(t, c, i, Some(joined), kids')] + rest)
            else Some([Elem(t, c, i, h, kids')] + rest)
  }

  /** Every `<a>` of `anchors` that has an href gets a successful join. */
  predicate AllJoin(anchors: seq<Node>, join: string -> Option<string>) {
    forall k :: 0 <= k < |anchors| && anchors[k].Elem? && anchors[k].href.Some? ==> join(anchors[k].href.value).Some?
  }

  /** `after` is `before` with each href joined; anchors without an href untouched. */
  predicate HrefsJoined(before: seq<Node>, after: seq<Node>, join: string -> Option<string>) {
    && |before| == |after|
    && forall k :: 0 <= k < |before| ==>
         && before[k].Elem? && after[k].Elem?
         && after[k].tag == before[k].tag && after[k].classes == before[k].classes && after[k].id == before[k].id
         && (before[k].href.None? ==> after[k].href.None?)
         && (before[k].href.Some? ==> after[k].href == join(before[k].href.value))
  }

  /** The tree with the href of every `<a>` erased: what resolution must leave alone. */
  function EraseAnchorHrefs(f: Forest): Forest {
    if f == [] then []
    else match f[0]
      case TextNode(_, _) => [f[0]] + EraseAnchorHrefs(f[1..])
      case Elem(t, c, i, h, kids) =>
        [Elem(t, c, i, if t == "a" then None else h, EraseAnchorHrefs(kids))] + EraseAnchorHrefs(f[1..])
  }

  lemma AllJoinAppend(a: seq<Node>, b: seq<Node>, join: string -> Option<string>)
    ensures AllJoin(a + b, join) <==> AllJoin(a, join) && AllJoin(b, join)
  {
    if AllJoin(a, join) && AllJoin(b, join) {
      forall k | 0 <= k < |a + b| && (a + b)[k].Elem? && (a + b)[k].href.Some?
        ensures join((a + b)[k].href.value).Some?
      {
        if k >= |a| {
          assert (a + b)[k] == b[k - |a|];
        }
      }
    }
    if AllJoin(a + b, join) {
      forall k | 0 <= k < |a| && a[k].Elem? && a[k].href.Some? ensures join(a[k].href.value).Some? {
        assert (a + b)[k] == a[k];
      }
      forall k | 0 <= k < |b| && b[k].Elem? && b[k].href.Some? ensures join(b[k].href.value).Some? {
        assert (a + b)[|a| + k] == b[k];
      }
    }
  }

  lemma HrefsJoinedAppend(a: seq<Node>, a': seq<Node>, b: seq<Node>, b': seq<Node>, join: string -> Option<string>)
    requires HrefsJoined(a, a', join) && HrefsJoined(b, b', join)
    ensures HrefsJoined(a + b, a' + b', join)
  {
    forall k | |a| <= k < |a + b| ensures (a + b)[k] == b[k - |a|] && (a' + b')[k] == b'[k - |a|] {
    }
  }

  /** Resolution succeeds exactly when every join it attempts succeeds. */
  lemma {:induction false} ResolveSucceedsIff(f: Forest, join: string -> Option<string>)
    ensures ResolveHrefs(f, join).Some? <==> AllJoin(Anchors(f), join)
  {
    if f != [] {
      ResolveSucceedsIff(f[1..], join);
      var n := f[0];
      if n.Elem? {
        ResolveSucceedsIff(n.children, join);
        var own := if IsAnchor(n) then [n] else [];
        AllJoinAppend(own, Anchors(n.children), join);
        AllJoinAppend(own + Anchors(n.children), Anchors(f[1..]), join);
      }
    }
  }

  /**
   * On success, every `<a>` with an href carries the joined href, every other anchor
   * keeps its missing href, and nothing else in the tree changes.
   */
  lemma {:induction false} ResolveRewritesAnchors(f: Forest, join: string -> Option<string>)
    requires ResolveHrefs(f, join).Some?
    ensures HrefsJoined(Anchors(f), Anchors(ResolveHrefs(f, join).value), join)
    ensures EraseAnchorHrefs(ResolveHrefs(f, join).value) == EraseAnchorHrefs(f)
  {
    if f == [] {
    } else {
      var rest := ResolveHrefs(f[1..], join).value;
      ResolveRewritesAnchors(f[1..], join);
      var n := f[0];
      if n.TextNode? {
        assert ResolveHrefs(f, join).value == [n] + rest;
        assert ([n] + rest)[1..] == rest;
      } else {
        var kids' := ResolveHrefs(n.children, join).value;
        ResolveRewritesAnchors(n.children, join);
        var n' := if IsAnchor(n) && n.href.Some? then Elem(n.tag, n.classes, n.id, join(n.href.value), kids')
                  else Elem(n.tag, n.classes, n.id, n.href, kids');
        var g := [n'] + rest;
        assert ResolveHrefs(f, join).value == g;
        assert g[0] == n' && g[1..] == rest;
        var own := if IsAnchor(n) then [n] else [];
        var own' := if IsAnchor(n') then [n'] else [];
        assert HrefsJoined(own, own', join);
        HrefsJoinedAppend(own, own', Anchors(n.children), Anchors(kids'), join);
        HrefsJoinedAppend(own + Anchors(n.children), own' + Anchors(kids'), Anchors(f[1..]), Anchors(rest), join);
      }
    }
  }

  // ---------------------------------------------------------------------------
  // LinkRemovingMarkdownGenerator.generate_markdown

  /** A Python argument value, as far as the generator looks at it. */
  datatype Value = NoneValue | Str(s: string) | Other(truthy: bool, text: string)

  /** `str(v)`; `text` is the `str()` of a value that is not a string. */
  function StrOf(v: Value): string {
    match v
    case NoneValue => "None"
    case Str(s) => s
    case Other(_, text) => text
  }

  /** Python truthiness. */
  predicate Truthy(v: Value) {
    match v
    case NoneValue => false
    case Str(s) => s != []
    case Other(t, _) => t
  }

  /** A call `generate_markdown(*args, **kwargs)`. */
  datatype Call = Call(args: seq<Value>, kwargs: map<string, Value>)

  /** Where the HTML argument of a call can sit. */
  datatype Slot = Positional | CleanedHtmlKeyword | InputHtmlKeyword

  /** The libraries the generator relies on: BeautifulSoup's parser and `str(soup)`, and `urljoin`. */
  datatype Library = Library(
    parse: string -> Forest,
    serialize: Forest -> string,
    urljoin: (string, string) -> Option<string>)

  /** What a call does: return the parent's result, or raise. */
  datatype Outcome<R> = Returned(value: R) | Raised

  /** `kwargs.get(key)` */
  function Keyword(c: Call, key: string): Value {
    if key in c.kwargs then c.kwargs[key] else NoneValue
  }

  function GetSlot(c: Call, s: Slot): Value {
    match s
    case Positional => if |c.args| > 0 then c.args[0] else NoneValue
    case CleanedHtmlKeyword => Keyword(c, "cleaned_html")
    case InputHtmlKeyword => Keyword(c, "input_html")
  }

  /** The same call with the value in slot `s` replaced by `v`. */
  function PutSlot(c: Call, s: Slot, v: Value): Call
    requires s == Positional ==> |c.args| > 0
  {
    match s
    case Positional => c.(args := c.args[0 := v])
    case CleanedHtmlKeyword => c.(kwargs := c.kwargs["cleaned_html" := v])
    case InputHtmlKeyword => c.(kwargs := c.kwargs["input_html" := v])
  }

  /** Where the HTML is read from: a positional argument first, then `cleaned_html`, then `input_html`. */
  function SourceSlot(c: Call): Option<Slot> {
    if |c.args| >= 1 then Some(Positional)
    else if "cleaned_html" in c.kwargs then Some(CleanedHtmlKeyword)
    else if "input_html" in c.kwargs then Some(InputHtmlKeyword)
    else None
  }

  /** The HTML argument located in a call (`NoneValue` if there is none). */
  function Located(c: Call): Value {
    match SourceSlot(c)
    case None => NoneValue
    case Some(s) => GetSlot(c, s)
  }

  /** Where the processed HTML is written: `cleaned_html` first, then `input_html`, then position 0. */
  function TargetSlot(c: Call): Slot {
    if "cleaned_html" in c.kwargs then CleanedHtmlKeyword
    else if "input_html" in c.kwargs then InputHtmlKeyword
    else Positional
  }

  /**
   * `urljoin(base_url, href)` for a truthy `base_url`, as the href is then serialised: an
   * empty href gives the base itself, before any type check; otherwise a base that is not a
   * string raises, since `urljoin` refuses to mix str and non-str arguments.
   */
  function Joiner(baseUrl: Value, lib: Library): string -> Option<string> {
    (href: string) =>
      if href == [] then Some(StrOf(baseUrl))
      else if baseUrl.Str? then lib.urljoin(baseUrl.s, href)
      else None
  }

  /** The HTML after `remove_links` and, when `base_url` is truthy, href resolution. */
  function ProcessHtml(html: string, baseUrl: Value, lib: Library): Outcome<string> {
    var doc := lib.parse(html);
    if RemoveLinksRaises(doc) then Raised
    else
      var cleaned := lib.serialize(RemoveLinks(doc));
      if !Truthy(baseUrl) then Returned(cleaned)
      else match ResolveHrefs(lib.parse(cleaned), Joiner(baseUrl, lib))
        case None => Returned(cleaned)
        case Some(resolved) => Returned(lib.serialize(resolved))
  }

  /** The HTML is read from one slot and written to another exactly when a positional argument and an HTML keyword are both given. */
  lemma ReadWriteSlotsDiffer(c: Call)
    requires SourceSlot(c).Some?
    ensures SourceSlot(c) != Some(TargetSlot(c)) <==>
      |c.args| >= 1 && ("cleaned_html" in c.kwargs || "input_html" in c.kwargs)
  {
  }

  /** When the HTML was found, writing it back to position 0 never meets an empty `args`. */
  lemma PositionalTargetExists(c: Call)
    requires Located(c) != NoneValue && TargetSlot(c) == Positional
    ensures |c.args| > 0
  {
  }

  /** Writing a slot changes that slot and nothing else of the call. */
  lemma PutSlotChangesOnlyIt(c: Call, s: Slot, v: Value)
    requires s == Positional ==> |c.args| > 0
    ensures GetSlot(PutSlot(c, s, v), s) == v
    ensures |PutSlot(c, s, v).args| == |c.args|
    ensures forall i :: 0 <= i < |c.args| && !(s == Positional && i == 0) ==> PutSlot(c, s, v).args[i] == c.args[i]
    ensures PutSlot(c, s, v).kwargs.Keys == c.kwargs.Keys + (if s == Positional then {} else {SlotKeyword(s)})
    ensures forall k :: k in c.kwargs && !(s != Positional && k == SlotKeyword(s)) ==> PutSlot(c, s, v).kwargs[k] == c.kwargs[k]
  {
  }

  function SlotKeyword(s: Slot): string
    requires s != Positional
  {
    if s == CleanedHtmlKeyword then "cleaned_html" else "input_html"
  }

  /** Without a truthy `base_url`, the forwarded HTML is exactly `remove_links`' output. */
  lemma ProcessWithoutBaseUrl(html: string, baseUrl: Value, lib: Library)
    requires !Truthy(baseUrl)
    ensures ProcessHtml(html, baseUrl, lib) ==
      if RemoveLinksRaises(lib.parse(html)) then Raised else Returned(lib.serialize(RemoveLinks(lib.parse(html))))
  {
  }

  /** When some join raises, the forwarded HTML falls back to `remove_links`' output. */
  lemma ProcessFallsBack(html: string, baseUrl: Value, lib: Library)
    requires !AllJoin(Anchors(lib.parse(lib.serialize(RemoveLinks(lib.parse(html))))), Joiner(baseUrl, lib))
    ensures ProcessHtml(html, baseUrl, lib) ==
      if RemoveLinksRaises(lib.parse(html)) then Raised else Returned(lib.serialize(RemoveLinks(lib.parse(html))))
  {
    ResolveSucceedsIff(lib.parse(lib.serialize(RemoveLinks(lib.parse(html)))), Joiner(baseUrl, lib));
  }

  /** Parsing what was serialised gives back the same tree. */
  ghost predicate RoundTrips(lib: Library) {
    forall t: Forest :: lib.parse(lib.serialize(t)) == t
  }

  /**
   * With a string `base_url` and every join succeeding, the forwarded HTML is the cleaned
   * tree with every anchor's href joined against `base_url` and nothing else changed.
   */
  lemma ProcessResolvesAnchors(html: string, base: string, lib: Library)
    requires RoundTrips(lib) && base != [] && !RemoveLinksRaises(lib.parse(html))
    requires AllJoin(Anchors(RemoveLinks(lib.parse(html))), Joiner(Str(base), lib))
    ensures ResolveHrefs(RemoveLinks(lib.parse(html)), Joiner(Str(base), lib)).Some?
    ensures ProcessHtml(html, Str(base), lib)
         == Returned(lib.serialize(ResolveHrefs(RemoveLinks(lib.parse(html)), Joiner(Str(base), lib)).value))
    ensures HrefsJoined(Anchors(RemoveLinks(lib.parse(html))),
                        Anchors(ResolveHrefs(RemoveLinks(lib.parse(html)), Joiner(Str(base), lib)).value),
                        Joiner(Str(base), lib))
  {
    var cleaned := RemoveLinks(lib.parse(html));
    assert lib.parse(lib.serialize(cleaned)) == cleaned;
    ResolveSucceedsIff(cleaned, Joiner(Str(base), lib));
    ResolveRewritesAnchors(cleaned, Joiner(Str(base), lib));
  }

  /**
   * With a truthy `base_url` that is not a string, resolution goes through exactly when
   * every href it meets is empty; those hrefs then become `str(base_url)`.
   */
  lemma NonStringBaseJoinsOnlyEmptyHrefs(f: Forest, baseUrl: Value, lib: Library)
    requires baseUrl.Other?
    ensures ResolveHrefs(f, Joiner(baseUrl, lib)).Some? <==>
      forall k :: 0 <= k < |Anchors(f)| && Anchors(f)[k].href.Some? ==> Anchors(f)[k].href.value == []
    ensures ResolveHrefs(f, Joiner(baseUrl, lib)).Some? ==>
      var after := Anchors(ResolveHrefs(f, Joiner(baseUrl, lib)).value);
      && |after| == |Anchors(f)|
      && forall k :: 0 <= k < |Anchors(f)| && Anchors(f)[k].href.Some? ==> after[k].href == Some(baseUrl.text)
  {
    var join := Joiner(baseUrl, lib);
    ResolveSucceedsIff(f, join);
    if ResolveHrefs(f, join).Some? {
      ResolveRewritesAnchors(f, join);
      var before, after := Anchors(f), Anchors(ResolveHrefs(f, join).value);
      forall k | 0 <= k < |before| && before[k].href.Some? ensures after[k].href == Some(baseUrl.text) {
        assert join(before[k].href.value).Some?;
        assert before[k].href.value == [];
        assert after[k].href == join(before[k].href.value);
        assert join([]) == Some(StrOf(baseUrl));
      }
    }
  }

  /**
   * `generate_markdown(*args, **kwargs)`: locate the HTML, clean it, resolve its hrefs,
   * write it back and call the parent generator `parent`.
   */
  method GenerateMarkdown<R>(args: seq<Value>, kwargs: map<string, Value>, lib: Library,
                             parent: (seq<Value>, map<string, Value>) -> R)
    returns (out: Outcome<R>)
    ensures Located(Call(args, kwargs)) == NoneValue ==> out == Returned(parent(args, kwargs))
    ensures Located(Call(args, kwargs)).Other? ==> out == Raised
    ensures Located(Call(args, kwargs)).Str? ==>
      var c := Call(args, kwargs);
      match ProcessHtml(Located(c).s, Keyword(c, "base_url"), lib)
      case Raised => out == Raised
      case Returned(html) =>
        var c' := PutSlot(c, TargetSlot(c), Str(html));
        out == Returned(parent(c'.args, c'.kwargs))
  {
    var cleanedHtml := NoneValue;
    if |args| >= 1 {
      cleanedHtml := args[0];
    } else if "cleaned_html" in kwargs {
      cleanedHtml := kwargs["cleaned_html"];
    } else if "input_html" in kwargs {
      cleanedHtml := kwargs["input_html"];
    }
    if cleanedHtml == NoneValue {
      return Returned(parent(args, kwargs));
    }
    if !cleanedHtml.Str? {
      // BeautifulSoup refuses markup that is not text
      return Raised;
    }
    var soup := lib.parse(cleanedHtml.s);
    if RemoveLinksRaises(soup) {
      // reading the attributes of an element already decomposed
      return Raised;
    }
    var processedHtml := lib.serialize(RemoveLinks(soup));
    var baseUrl := if "base_url" in kwargs then kwargs["base_url"] else NoneValue;
    if Truthy(baseUrl) {
      var resolved := ResolveHrefs(lib.parse(processedHtml), Joiner(baseUrl, lib));
      if resolved.Some? {
        processedHtml := lib.serialize(resolved.value);
      }
    }
    var newArgs, newKwargs := args, kwargs;
    if "cleaned_html" in kwargs {
      newKwargs := kwargs["cleaned_html" := Str(processedHtml)];
    } else if "input_html" in kwargs {
      newKwargs := kwargs["input_html" := Str(processedHtml)];
    } else {
      newArgs := args[0 := Str(processedHtml)];
    }
    out := Returned(parent(newArgs, newKwargs));
  }
}

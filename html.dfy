/**
 * The parsed HTML document as a tree, with the queries the crawler uses on it:
 * deleting whole subtrees (BeautifulSoup's `decompose` applied to what `find_all`
 * returned), the stripped text of a subtree (`get_text(strip=True)`) and the
 * `<a>` elements in document order (`find_all('a')`).
 */
module Html {
  import opened Wrappers
  import opened Strings
  import opened Seqs

  /** A node of the parsed document. Only the attributes the crawler reads are kept. */
  datatype Node =
    | TextNode(s: string, plain: bool)
    | Elem(tag: string, classes: seq<string>, id: Option<string>, href: Option<string>, children: seq<Node>)

  /** The top-level nodes of a document, or the children of an element. */
  type Forest = seq<Node>

  /** What a node looks like, children aside: one entry of the document-order listing. */
  datatype Label =
    | TextLabel(s: string, plain: bool)
    | ElemLabel(tag: string, classes: seq<string>, id: Option<string>, href: Option<string>)

  predicate IsAnchor(n: Node) {
    n.Elem? && n.tag == "a"
  }

  /**
   * Deletes, top-down, every node for which `drop` holds, together with its subtree;
   * every other element keeps its tag and attributes and has its children pruned the
   * same way. `drop` is asked about a node before anything below it is deleted.
   */
  function Prune(f: Forest, drop: Node -> bool): Forest {
    if f == [] then []
    else if drop(f[0]) then Prune(f[1..], drop)
    else match f[0]
      case TextNode(_, _) => [f[0]] + Prune(f[1..], drop)
      case Elem(t, c, i, h, kids) => [Elem(t, c, i, h, Prune(kids, drop))] + Prune(f[1..], drop)
  }

  /** No node anywhere in `f` satisfies `p`. */
  predicate Free(f: Forest, p: Node -> bool) {
    f == [] || (!p(f[0]) && (f[0].Elem? ==> Free(f[0].children, p)) && Free(f[1..], p))
  }

  /** `get_text(strip=True)`: every text piece stripped of surrounding whitespace, concatenated. */
  function TextOf(f: Forest): string
    decreases f, 1
  {
    if f == [] then [] else NodeText(f[0]) + TextOf(f[1..])
  }

  /** The stripped text of one node and everything below it; `get_text` collects plain strings only. */
  function NodeText(n: Node): string
    decreases n, 0
  {
    match n
    case TextNode(s, plain) => if plain then Strip(s) else []
    case Elem(_, _, _, _, kids) => TextOf(kids)
  }

  /**
   * The elements whose strings the parser stores as special string types (script, style,
   * template and ruby annotations) rather than as plain strings.
   */
  predicate HidesText(tag: string) {
    tag in {"script", "style", "template", "rt", "rp"}
  }

  /**
   * The string types the parser assigns: every string at any depth below one of those
   * elements is not plain (`below` says whether `f` itself lies below one). Other strings,
   * such as comments, may be non-plain too.
   */
  predicate StringsMarked(f: Forest, below: bool) {
    f == [] ||
    (&& (match f[0]
         case TextNode(_, plain) => below ==> !plain
         case Elem(t, _, _, _, kids) => StringsMarked(kids, below || HidesText(t)))
     && StringsMarked(f[1..], below))
  }

  /** The document-order (pre-order) listing of every node of `f`. */
  function Flatten(f: Forest): seq<Label> {
    if f == [] then []
    else match f[0]
      case TextNode(s, p) => [TextLabel(s, p)] + Flatten(f[1..])
      case Elem(t, c, i, h, kids) => [ElemLabel(t, c, i, h)] + Flatten(kids) + Flatten(f[1..])
  }

  /** The `<a>` elements of `f` in document order, nested ones included (`find_all('a')`). */
  function Anchors(f: Forest): (r: seq<Node>)
    ensures forall k :: 0 <= k < |r| ==> IsAnchor(r[k])
  {
    if f == [] then []
    else match f[0]
      case TextNode(_, _) => Anchors(f[1..])
      case Elem(_, _, _, _, kids) =>
        (if IsAnchor(f[0]) then [f[0]] else []) + Anchors(kids) + Anchors(f[1..])
  }

  /** What a node looks like in the document-order listing. */
  function LabelOf(n: Node): Label {
    match n
    case TextNode(s, p) => TextLabel(s, p)
    case Elem(t, c, i, h, _) => ElemLabel(t, c, i, h)
  }

  function Labels(ns: seq<Node>): (r: seq<Label>)
    ensures |r| == |ns|
  {
    if ns == [] then [] else [LabelOf(ns[0])] + Labels(ns[1..])
  }

  /** The `<a>` entries of a document-order listing, in order. */
  function AnchorLabels(ls: seq<Label>): seq<Label> {
    if ls == [] then []
    else (if ls[0].ElemLabel? && ls[0].tag == "a" then [ls[0]] else []) + AnchorLabels(ls[1..])
  }

  /** Some node strictly inside a node satisfying `outer` satisfies `inner`. */
  predicate EnclosesSome(f: Forest, outer: Node -> bool, inner: Node -> bool) {
    && f != []
    && ((f[0].Elem? && outer(f[0]) && !Free(f[0].children, inner))
        || (f[0].Elem? && EnclosesSome(f[0].children, outer, inner))
        || EnclosesSome(f[1..], outer, inner))
  }

  /** Whether `p` ignores the children of an element: it looks only at tag and attributes. */
  ghost predicate HeadOnly(p: Node -> bool) {
    forall n: Node, kids: seq<Node> :: n.Elem? ==> p(n.(children := kids)) == p(n)
  }

  /** Pruning the children of a node that `drop` keeps never makes `drop` reject it. */
  ghost predicate Settled(drop: Node -> bool) {
    forall n: Node :: n.Elem? && !drop(n) ==> !drop(n.(children := Prune(n.children, drop)))
  }

  /** Every node `drop` rejects carries no stripped text. */
  ghost predicate DropsOnlyBlank(drop: Node -> bool) {
    forall n: Node :: drop(n) ==> TextOf([n]) == []
  }

  // ---------------------------------------------------------------------------
  // Distribution over concatenation

  lemma {:induction false} PruneAppend(a: Forest, b: Forest, drop: Node -> bool)
    ensures Prune(a + b, drop) == Prune(a, drop) + Prune(b, drop)
  {
    if a == [] {
      assert a + b == b;
    } else {
      assert (a + b)[0] == a[0] && (a + b)[1..] == a[1..] + b;
      PruneAppend(a[1..], b, drop);
    }
  }

  lemma {:induction false} FreeAppend(a: Forest, b: Forest, p: Node -> bool)
    ensures Free(a + b, p) <==> Free(a, p) && Free(b, p)
  {
    if a == [] {
      assert a + b == b;
    } else {
      assert (a + b)[0] == a[0] && (a + b)[1..] == a[1..] + b;
      FreeAppend(a[1..], b, p);
    }
  }

  lemma {:induction false} TextOfAppend(a: Forest, b: Forest)
    ensures TextOf(a + b) == TextOf(a) + TextOf(b)
  {
    if a == [] {
      assert a + b == b;
    } else {
      assert (a + b)[0] == a[0] && (a + b)[1..] == a[1..] + b;
      TextOfAppend(a[1..], b);
      var h := NodeText(a[0]);
      assert TextOf(a) == h + TextOf(a[1..]);
      assert TextOf(a + b) == h + TextOf(a[1..] + b);
    }
  }

  lemma {:induction false} FlattenAppend(a: Forest, b: Forest)
    ensures Flatten(a + b) == Flatten(a) + Flatten(b)
  {
    if a == [] {
      assert a + b == b;
    } else {
      assert (a + b)[0] == a[0] && (a + b)[1..] == a[1..] + b;
      FlattenAppend(a[1..], b);
    }
  }

  lemma {:induction false} AnchorsAppend(a: Forest, b: Forest)
    ensures Anchors(a + b) == Anchors(a) + Anchors(b)
  {
    if a == [] {
      assert a + b == b;
    } else {
      assert (a + b)[0] == a[0] && (a + b)[1..] == a[1..] + b;
      AnchorsAppend(a[1..], b);
    }
  }

  // ---------------------------------------------------------------------------
  // What a prune pass guarantees

  /** A single node is either deleted or kept with its children pruned. */
  lemma PruneSingle(n: Node, drop: Node -> bool)
    ensures Prune([n], drop) == if drop(n) then [] else if n.TextNode? then [n]
                                 else [n.(children := Prune(n.children, drop))]
  {
    assert [n][1..] == [];
  }

  /** After the pass, no node that `drop` rejects is left anywhere. */
  lemma {:induction false} PruneFree(f: Forest, drop: Node -> bool)
    requires Settled(drop)
    ensures Free(Prune(f, drop), drop)
  {
    if f != [] {
      PruneFree(f[1..], drop);
      if !drop(f[0]) {
        var n := f[0];
        var kept := if n.TextNode? then n else n.(children := Prune(n.children, drop));
        if n.Elem? {
          PruneFree(n.children, drop);
        }
        assert [kept][1..] == [];
        assert Free([kept], drop);
        FreeAppend([kept], Prune(f[1..], drop), drop);
      }
    }
  }

  /** A pass keeps a property that looks only at tags and attributes absent. */
  lemma {:induction false} PruneKeepsFree(f: Forest, drop: Node -> bool, p: Node -> bool)
    requires HeadOnly(p) && Free(f, p)
    ensures Free(Prune(f, drop), p)
  {
    if f != [] {
      PruneKeepsFree(f[1..], drop, p);
      if !drop(f[0]) {
        var n := f[0];
        var kept := if n.TextNode? then n else n.(children := Prune(n.children, drop));
        if n.Elem? {
          PruneKeepsFree(n.children, drop, p);
        }
        assert [kept][1..] == [];
        assert Free([kept], p);
        FreeAppend([kept], Prune(f[1..], drop), p);
      }
    }
  }

  /** A pass over a tree with nothing to delete changes nothing. */
  lemma {:induction false} PruneNoop(f: Forest, drop: Node -> bool)
    requires Free(f, drop)
    ensures Prune(f, drop) == f
  {
    if f != [] {
      PruneNoop(f[1..], drop);
      if f[0].Elem? {
        PruneNoop(f[0].children, drop);
      }
    }
  }

  /** Deleting only blank subtrees leaves the stripped text of the whole unchanged. */
  lemma {:induction false} PruneKeepsText(f: Forest, drop: Node -> bool)
    requires DropsOnlyBlank(drop)
    ensures TextOf(Prune(f, drop)) == TextOf(f)
  {
    if f != [] {
      PruneKeepsText(f[1..], drop);
      var n := f[0];
      assert TextOf(f) == TextOf([n]) + TextOf(f[1..]) by {
        assert [n][1..] == [];
        assert TextOf([n]) == NodeText(n);
      }
      if !drop(n) {
        if n.Elem? {
          PruneKeepsText(n.children, drop);
        }
        var kept := if n.TextNode? then n else n.(children := Prune(n.children, drop));
        assert [kept][1..] == [];
        TextOfAppend([kept], Prune(f[1..], drop));
      }
    }
  }

  /** A pass only deletes: the surviving nodes, in document order, are a subsequence of the original ones. */
  lemma {:induction false} PruneOnlyDeletes(f: Forest, drop: Node -> bool)
    ensures IsSubseq(Flatten(Prune(f, drop)), Flatten(f))
  {
    if f != [] {
      PruneOnlyDeletes(f[1..], drop);
      var n := f[0];
      var rest := Prune(f[1..], drop);
      if drop(n) {
        if n.TextNode? {
          SubseqSkip(Flatten(rest), [TextLabel(n.s, n.plain)], Flatten(f[1..]));
        } else {
          SubseqSkip(Flatten(rest), [ElemLabel(n.tag, n.classes, n.id, n.href)] + Flatten(n.children), Flatten(f[1..]));
          assert Flatten(f) == ([ElemLabel(n.tag, n.classes, n.id, n.href)] + Flatten(n.children)) + Flatten(f[1..]);
        }
      } else if n.TextNode? {
        assert ([n] + rest)[1..] == rest;
        SubseqRefl([TextLabel(n.s, n.plain)]);
        SubseqConcat([TextLabel(n.s, n.plain)], [TextLabel(n.s, n.plain)], Flatten(rest), Flatten(f[1..]));
      } else {
        var kept := n.(children := Prune(n.children, drop));
        assert ([kept] + rest)[1..] == rest;
        var lab := [ElemLabel(n.tag, n.classes, n.id, n.href)];
        PruneOnlyDeletes(n.children, drop);
        SubseqRefl(lab);
        SubseqConcat(lab, lab, Flatten(kept.children), Flatten(n.children));
        SubseqConcat(lab + Flatten(kept.children), lab + Flatten(n.children), Flatten(rest), Flatten(f[1..]));
      }
    }
  }

  lemma {:induction false} LabelsAppend(a: seq<Node>, b: seq<Node>)
    ensures Labels(a + b) == Labels(a) + Labels(b)
  {
    if a == [] {
      assert a + b == b;
    } else {
      assert (a + b)[0] == a[0] && (a + b)[1..] == a[1..] + b;
      LabelsAppend(a[1..], b);
    }
  }

  lemma {:induction false} AnchorLabelsAppend(a: seq<Label>, b: seq<Label>)
    ensures AnchorLabels(a + b) == AnchorLabels(a) + AnchorLabels(b)
  {
    if a == [] {
      assert a + b == b;
    } else {
      assert (a + b)[0] == a[0] && (a + b)[1..] == a[1..] + b;
      AnchorLabelsAppend(a[1..], b);
    }
  }

  /**
   * `find_all('a')` is complete and ordered: the anchors listed are exactly the `<a>`
   * entries of the document-order listing, nested ones included, in that order.
   */
  lemma {:induction false} AnchorsInDocumentOrder(f: Forest)
    ensures Labels(Anchors(f)) == AnchorLabels(Flatten(f))
  {
    if f != [] {
      AnchorsInDocumentOrder(f[1..]);
      var n := f[0];
      if n.TextNode? {
        assert Flatten(f) == [TextLabel(n.s, n.plain)] + Flatten(f[1..]);
        AnchorLabelsAppend([TextLabel(n.s, n.plain)], Flatten(f[1..]));
        assert AnchorLabels([TextLabel(n.s, n.plain)]) == [];
      } else {
        AnchorsInDocumentOrder(n.children);
        var lab := [LabelOf(n)];
        var own := if IsAnchor(n) then [n] else [];
        assert Flatten(f) == lab + Flatten(n.children) + Flatten(f[1..]);
        AnchorLabelsAppend(lab + Flatten(n.children), Flatten(f[1..]));
        AnchorLabelsAppend(lab, Flatten(n.children));
        assert AnchorLabels(lab) == Labels(own) by {
          assert lab[1..] == [];
        }
        assert Anchors(f) == own + Anchors(n.children) + Anchors(f[1..]);
        LabelsAppend(own + Anchors(n.children), Anchors(f[1..]));
        LabelsAppend(own, Anchors(n.children));
      }
    }
  }

  /** A tree with no node satisfying `outer` has nothing enclosed by one. */
  lemma {:induction false} FreeEnclosesNothing(f: Forest, outer: Node -> bool, inner: Node -> bool)
    requires Free(f, outer)
    ensures !EnclosesSome(f, outer, inner)
  {
    if f != [] {
      FreeEnclosesNothing(f[1..], outer, inner);
      if f[0].Elem? {
        FreeEnclosesNothing(f[0].children, outer, inner);
      }
    }
  }

  /** Below a script, style, template, rt or rp element, `get_text` finds no text at all. */
  lemma {:induction false} MarkedTextHidden(f: Forest)
    requires StringsMarked(f, true)
    ensures TextOf(f) == []
  {
    if f != [] {
      MarkedTextHidden(f[1..]);
      if f[0].Elem? {
        MarkedTextHidden(f[0].children);
      }
    }
  }

  /** A pass keeps the parser's string types: it deletes nodes but retypes none. */
  lemma {:induction false} PruneKeepsMarked(f: Forest, drop: Node -> bool, below: bool)
    requires StringsMarked(f, below)
    ensures StringsMarked(Prune(f, drop), below)
  {
    if f != [] {
      PruneKeepsMarked(f[1..], drop, below);
      var n := f[0];
      if !drop(n) {
        var kept := if n.TextNode? then n else n.(children := Prune(n.children, drop));
        if n.Elem? {
          PruneKeepsMarked(n.children, drop, below || HidesText(n.tag));
        }
        var g := [kept] + Prune(f[1..], drop);
        assert g[0] == kept && g[1..] == Prune(f[1..], drop);
      }
    }
  }
}

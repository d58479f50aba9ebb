/**
 * Concrete documents run through `RemoveLinks`: a content header that stays, a footer
 * whose id marks it as navigation, matching by substring, and a whitespace-only list item.
 */
module MarkdownExamples {
  import opened Wrappers
  import opened Strings
  import opened Html
  import opened Markdown

  /** `c` occurs in `sub` but not in `s`, so `sub` is not a substring of `s`. */
  lemma Lacks(s: string, sub: string, c: char)
    requires c in sub && c !in s
    ensures !Contains(s, sub)
  {
    if Contains(s, sub) {
      ContainsChars(s, sub, c);
    }
  }

  lemma NoIdIndicator()
    ensures forall k :: 0 <= k < |NavIndicators| ==> !Contains(IdString(None), NavIndicators[k])
  {
    assert IdString(None) == "";
  }

  /** An indicator-free class string and no id: no indicator matches. */
  lemma NoIndicatorIn(s: string)
    requires ClassString([s]) == s
    requires !Contains(s, "nav") && !Contains(s, "navbar") && !Contains(s, "navigation")
    requires !Contains(s, "sidebar") && !Contains(s, "toc") && !Contains(s, "breadcrumb") && !Contains(s, "menu")
    ensures !HasNavIndicator([s], None)
  {
    NoIdIndicator();
  }

  /** Every indicator holds one of the letters n, b, o, m; a class without them cannot match. */
  lemma NoIndicatorLetters(s: string)
    requires ClassString([s]) == s
    requires 'n' !in s && 'b' !in s && 'o' !in s && 'm' !in s
    ensures !HasNavIndicator([s], None)
  {
    Lacks(s, "nav", 'n');
    Lacks(s, "navbar", 'n');
    Lacks(s, "navigation", 'n');
    Lacks(s, "sidebar", 'b');
    Lacks(s, "toc", 'o');
    Lacks(s, "breadcrumb", 'b');
    Lacks(s, "menu", 'm');
    NoIndicatorIn(s);
  }

  lemma SiteHeaderClass()
    ensures ClassString(["site-header"]) == "site-header"
  {
    var s := "site-header";
    assert JoinWith(" ", [s]) == s;
    LowerKeepsLowercase(s);
  }

  lemma SiteHeaderLetters()
    ensures 'n' !in "site-header" && 'b' !in "site-header" && 'o' !in "site-header" && 'm' !in "site-header"
  {
  }

  lemma SiteHeaderHasNoIndicator()
    ensures !HasNavIndicator(["site-header"], None)
  {
    SiteHeaderClass();
    SiteHeaderLetters();
    NoIndicatorLetters("site-header");
  }

  /** `<header class="site-header">` is page content: it stays, with its content cleaned. */
  lemma SiteHeaderKept(kids: Forest)
    ensures RemoveLinks([Elem("header", ["site-header"], None, None, kids)])
         == [Elem("header", ["site-header"], None, None, RemoveLinks(kids))]
  {
    SiteHeaderHasNoIndicator();
    RegionRemovedIff(Elem("header", ["site-header"], None, None, kids));
  }

  /** An indicator in the class string is enough. */
  lemma IndicatorInClass(s: string, k: nat, ind: string)
    requires ClassString([s]) == s && k < |NavIndicators| && NavIndicators[k] == ind && Contains(s, ind)
    ensures HasNavIndicator([s], None)
  {
  }

  /** An indicator in the id string is enough. */
  lemma IndicatorInId(s: string, k: nat, ind: string)
    requires IdString(Some(s)) == s && k < |NavIndicators| && NavIndicators[k] == ind && Contains(s, ind)
    ensures HasNavIndicator([], Some(s))
  {
  }

  lemma NavFooterId()
    ensures IdString(Some("nav-footer")) == "nav-footer"
  {
    var id := "nav-footer";
    var o := Some(id);
    assert o.GetOr("") == id;
    LowerKeepsLowercase(id);
  }

  lemma NavFooterHasNav()
    ensures Contains("nav-footer", "nav")
  {
    var id := "nav-footer";
    assert IsPrefix("nav", id);
  }

  /** `<footer id="nav-footer">` is navigation: it goes, with everything inside it. */
  lemma NavFooterRemoved(kids: Forest)
    ensures RemoveLinks([Elem("footer", [], Some("nav-footer"), None, kids)]) == []
  {
    NavFooterId();
    NavFooterHasNav();
    IndicatorInId("nav-footer", 0, "nav");
    RegionRemovedIff(Elem("footer", [], Some("nav-footer"), None, kids));
  }

  lemma StockTickerClass()
    ensures ClassString(["stock-ticker"]) == "stock-ticker"
  {
    var s := "stock-ticker";
    assert JoinWith(" ", [s]) == s;
    LowerKeepsLowercase(s);
  }

  lemma StockTickerContainsToc()
    ensures Contains("stock-ticker", "toc")
  {
    var s := "stock-ticker";
    ContainsIff(s, "toc");
    assert s[1..4] == "toc";
    assert OccursAt(s, "toc", 1);
  }

  lemma TocIsIndicator()
    ensures NavIndicators[4] == "toc"
  {
  }

  lemma StockTickerIndicated()
    ensures HasNavIndicator(["stock-ticker"], None)
  {
    StockTickerClass();
    StockTickerContainsToc();
    TocIsIndicator();
    IndicatorInClass("stock-ticker", 4, "toc");
  }

  /** Matching is by substring: class `stock-ticker` holds "toc", so such a footer is removed. */
  lemma StockTickerFooterRemoved(kids: Forest)
    ensures RemoveLinks([Elem("footer", ["stock-ticker"], None, None, kids)]) == []
  {
    StockTickerIndicated();
    RegionRemovedIff(Elem("footer", ["stock-ticker"], None, None, kids));
  }

  lemma CanvasLacksNav()
    ensures !Contains("canvas", "nav")
  {
    var s := "canvas";
    ContainsIff(s, "nav");
    forall k | 0 <= k <= 3 ensures !OccursAt(s, "nav", k) {
      assert s[k..k + 3][1] == s[k + 1];
      assert s[k..k + 3][2] == s[k + 2];
    }
  }

  lemma CanvasLacksLongIndicators()
    ensures !Contains("canvas", "navbar") && !Contains("canvas", "navigation")
    ensures !Contains("canvas", "sidebar") && !Contains("canvas", "breadcrumb")
  {
    var s := "canvas";
    Lacks(s, "navbar", 'b');
    Lacks(s, "navigation", 'g');
    Lacks(s, "sidebar", 'b');
    Lacks(s, "breadcrumb", 'b');
  }

  lemma CanvasLacksShortIndicators()
    ensures !Contains("canvas", "toc") && !Contains("canvas", "menu")
  {
    var s := "canvas";
    Lacks(s, "toc", 't');
    Lacks(s, "menu", 'm');
  }

  lemma CanvasClass()
    ensures ClassString(["canvas"]) == "canvas"
  {
    var s := "canvas";
    assert JoinWith(" ", [s]) == s;
    LowerKeepsLowercase(s);
  }

  lemma CanvasHasNoIndicator()
    ensures !HasNavIndicator(["canvas"], None)
  {
    CanvasClass();
    CanvasLacksNav();
    CanvasLacksLongIndicators();
    CanvasLacksShortIndicators();
    NoIndicatorIn("canvas");
  }

  /** Class `canvas` holds the letters of "nav" but not the substring, so such a header stays. */
  lemma CanvasHeaderKept(kids: Forest)
    ensures RemoveLinks([Elem("header", ["canvas"], None, None, kids)])
         == [Elem("header", ["canvas"], None, None, RemoveLinks(kids))]
  {
    CanvasHasNoIndicator();
    RegionRemovedIff(Elem("header", ["canvas"], None, None, kids));
  }

  /** A list item holding only whitespace is removed. */
  lemma BlankItemRemoved()
    ensures RemoveLinks([Elem("li", [], None, None, [TextNode(" \n\t", true)])]) == []
  {
    var kids := [TextNode(" \n\t", true)];
    StripEmptyIff(" \n\t");
    assert TextOf(kids) == [];
    assert Free(kids, IsNav) && Free(kids, IsIndicatedHeader) && Free(kids, IsIndicatedFooter) && Free(kids, IsEmptyItem);
    RemoveLinksFixpointIff(kids);
    ItemRemovedIff(Elem("li", [], None, None, kids));
  }

  /** A list item whose only text sits in a `<script>` is removed: `get_text` passes over script strings. */
  lemma ScriptOnlyItemRemoved(t: Node)
    requires t.TextNode? && StringsMarked([Elem("script", [], None, None, [t])], false)
    ensures RemoveLinks([Elem("li", [], None, None, [Elem("script", [], None, None, [t])])]) == []
  {
    var script := Elem("script", [], None, None, [t]);
    RemoveLinksNode(script);
    var kept := RemoveLinks([script]);
    assert kept == [script.(children := RemoveLinks([t]))];
    RemoveLinksNode(t);
    assert TextOf(kept) == [] by {
      assert !Removed(t) && RemoveLinks([t]) == [t];
      assert !t.plain && TextOf([t]) == [] by {
        assert [t][1..] == [];
      }
      assert kept[1..] == [];
    }
    ItemRemovedIff(Elem("li", [], None, None, [script]));
  }

  /**
   * A list item anywhere inside a `<template>` is removed: the parser stores every string
   * below the template as a template string, which `get_text` on the item passes over.
   */
  lemma TemplateItemRemoved(kids: Forest)
    requires StringsMarked([Elem("template", [], None, None, [Elem("li", [], None, None, kids)])], false)
    ensures RemoveLinks([Elem("template", [], None, None, [Elem("li", [], None, None, kids)])])
         == [Elem("template", [], None, None, [])]
  {
    var li := Elem("li", [], None, None, kids);
    var template := Elem("template", [], None, None, [li]);
    assert StringsMarked(kids, true);
    RemoveLinksNode(template);
    RemoveLinksNode(li);
    RemoveLinksKeepsMarked(kids, true);
    MarkedTextHidden(RemoveLinks(kids));
  }

  /** An icon-only link in a list item carries no text, so the item goes, anchor and all. */
  lemma IconLinkItemRemoved(href: string)
    ensures RemoveLinks([Elem("li", [], None, None,
                              [Elem("a", [], None, Some(href), [Elem("img", [], None, None, [])])])]) == []
  {
    var img := Elem("img", [], None, None, []);
    var a := Elem("a", [], None, Some(href), [img]);
    RemoveLinksNode(img);
    assert RemoveLinks([]) == [];
    assert RemoveLinks([img]) == [img];
    AnchorKept(a);
    assert RemoveLinks([a]) == [a];
    assert TextOf([a]) == [] by {
      assert [a][1..] == [] && [img][1..] == [];
      assert TextOf([img]) == [];
    }
    ItemRemovedIff(Elem("li", [], None, None, [a]));
  }

  /**
   * A header inside a header that carries an indicator makes `remove_links` raise: the inner
   * one is still listed when its class is read, after the outer one was decomposed.
   */
  lemma NestedHeaderRaises(classes: seq<string>, id: Option<string>, kids: Forest)
    requires HasNavIndicator(classes, id)
    ensures RemoveLinksRaises([Elem("header", classes, id, None, [Elem("header", [], None, None, kids)])])
  {
    var inner := Elem("header", [], None, None, kids);
    var outer := Elem("header", classes, id, None, [inner]);
    PruneSingle(inner, IsNav);
    PruneSingle(outer, IsNav);
    var noNav := Prune([outer], IsNav);
    assert noNav[0].children[0] == inner.(children := Prune(kids, IsNav));
    assert !Free(noNav[0].children, IsHeader);
    assert EnclosesSome(noNav, IsIndicatedHeader, IsHeader);
  }
}

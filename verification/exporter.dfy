/** The HTML exporter: a project's component trees become page markup, a
    style sheet and a script. Siblings are laid out in z-index order, text
    nodes print as their text, and every element carries its id, its style
    as CSS text and its other attributes. */
module Exporter {
  import opened Wrappers
  import opened Text
  import opened ODict
  import opened Dom
  import opened Casing
  import opened Sorting
  import opened Components

  /** One `prop: value;` entry of an inline style. */
  function Declaration(key: string, value: string): string
  {
    Kebab(key) + ": " + value + ";"
  }

  /** The entries `style_to_css` emits: one per key with a non-empty value,
      in the style's order. */
  function CssRules(style: Dict<string>): (r: seq<string>)
    ensures |r| <= |style|
    ensures forall j :: 0 <= j < |r| ==>
      exists i :: 0 <= i < |style| && style[i].1 != "" && r[j] == Declaration(style[i].0, style[i].1)
    ensures forall i :: 0 <= i < |style| && style[i].1 != "" ==> Declaration(style[i].0, style[i].1) in r
  {
    if style == [] then []
    else
      var rest := CssRules(style[1..]);
      var here := if style[0].1 != "" then [Declaration(style[0].0, style[0].1)] else [];
      assert forall i :: 1 <= i < |style| ==> style[i] == style[1..][i - 1];
      here + rest
  }

  /** `style_to_css`: the entries joined by single spaces; `""` for an
      empty style. */
  function StyleToCss(style: Dict<string>): string
  {
    Join(CssRules(style), " ")
  }

  /** A key with an empty value contributes nothing. */
  lemma {:induction false} EmptyValuesOmitted(style: Dict<string>, k: string)
    requires HasKey(style, k) && UniqueKeys(style)
    ensures CssRules(Put(style, k, "")) == CssRules(Remove(style, k))
  {
    if style[0].0 == k {
      assert Put(style, k, "") == [(k, "")] + style[1..];
      assert forall j :: 1 <= j < |style| ==> style[j].0 != k;
      RemoveAbsent(style[1..], k);
    } else {
      assert HasKey(style[1..], k) by {
        var i :| 0 <= i < |style| && style[i].0 == k;
        assert style[1..][i - 1].0 == k;
      }
      EmptyValuesOmitted(style[1..], k);
    }
  }

  /** The style without key `k`. */
  function Remove(style: Dict<string>, k: string): (r: Dict<string>)
    ensures !HasKey(r, k)
  {
    if style == [] then []
    else if style[0].0 == k then Remove(style[1..], k)
    else [style[0]] + Remove(style[1..], k)
  }

  lemma {:induction false} RemoveAbsent(style: Dict<string>, k: string)
    requires forall j :: 0 <= j < |style| ==> style[j].0 != k
    ensures Remove(style, k) == style
  {
    if style != [] {
      RemoveAbsent(style[1..], k);
    }
  }

  /** Round trip with the importer: declarations with distinct kebab-case
      names and non-empty values, camel-cased into a style, print as the
      original `name: value;` pairs, in their order. */
  lemma StyleRoundTrip(decls: seq<(string, string)>)
    requires forall i :: 0 <= i < |decls| ==> IsKebabName(decls[i].0) && decls[i].1 != ""
    requires forall i, j :: 0 <= i < j < |decls| ==> decls[i].0 != decls[j].0
    ensures StyleToCss(Camelized(decls)) == Join(seq(|decls|, i requires 0 <= i < |decls| => decls[i].0 + ": " + decls[i].1 + ";"), " ")
  {
    var style := Camelized(decls);
    assert UniqueKeys(style) by {
      forall i, j | 0 <= i < j < |style| ensures style[i].0 != style[j].0 {
        KebabOfCamelCase(decls[i].0);
        KebabOfCamelCase(decls[j].0);
      }
    }
    PutAllFresh(style);
    CamelizedRules(decls);
  }

  /** The declarations with camel-case keys, as the importer stores them. */
  function Camelized(decls: seq<(string, string)>): (r: Dict<string>)
    ensures |r| == |decls|
    ensures forall i :: 0 <= i < |decls| ==> r[i] == (CamelCase(decls[i].0), decls[i].1)
  {
    seq(|decls|, i requires 0 <= i < |decls| => (CamelCase(decls[i].0), decls[i].1))
  }

  lemma CamelizedRules(decls: seq<(string, string)>)
    requires forall i :: 0 <= i < |decls| ==> IsKebabName(decls[i].0) && decls[i].1 != ""
    ensures CssRules(Camelized(decls)) == seq(|decls|, i requires 0 <= i < |decls| => decls[i].0 + ": " + decls[i].1 + ";")
  {
    var style := Camelized(decls);
    AllDeclared(style);
    forall i | 0 <= i < |decls|
      ensures Declaration(style[i].0, style[i].1) == decls[i].0 + ": " + decls[i].1 + ";"
    {
      KebabOfCamelCase(decls[i].0);
    }
  }

  /** The declaration of every entry, in order. */
  function Declared(style: Dict<string>): (r: seq<string>)
    ensures |r| == |style|
  {
    seq(|style|, i requires 0 <= i < |style| => Declaration(style[i].0, style[i].1))
  }

  /** With no empty value, every entry is printed. */
  lemma {:induction false} AllDeclared(style: Dict<string>)
    requires forall i :: 0 <= i < |style| ==> style[i].1 != ""
    ensures CssRules(style) == Declared(style)
  {
    if style != [] {
      assert forall i :: 0 <= i < |style[1..]| ==> style[1..][i] == style[i + 1];
      AllDeclared(style[1..]);
      CssRulesCons(style);
      DeclaredCons(style);
    }
  }

  lemma CssRulesCons(style: Dict<string>)
    requires style != [] && style[0].1 != ""
    ensures CssRules(style) == [Declaration(style[0].0, style[0].1)] + CssRules(style[1..])
  {
  }

  lemma DeclaredCons(style: Dict<string>)
    requires style != []
    ensures Declared(style) == [Declaration(style[0].0, style[0].1)] + Declared(style[1..])
  {
    var r := [Declaration(style[0].0, style[0].1)] + Declared(style[1..]);
    forall i | 0 <= i < |style| ensures Declared(style)[i] == r[i] {
      if i > 0 { assert style[1..][i - 1] == style[i]; }
    }
  }

  /** Assigning pairs with distinct keys into an empty dictionary keeps
      them as they are. */
  lemma {:induction false} PutAllFresh(ps: Dict<string>)
    requires UniqueKeys(ps)
    ensures PutAll([], ps) == ps
  {
    if ps != [] {
      var init := ps[..|ps| - 1];
      PutAllFresh(init);
      assert !HasKey(init, ps[|ps| - 1].0) by {
        forall i | 0 <= i < |init| ensures init[i].0 != ps[|ps| - 1].0 {
          assert init[i] == ps[i];
        }
      }
      assert init + [ps[|ps| - 1]] == ps;
    }
  }

  /** The sort key of `build_elements_recursive`: `int(style zIndex)`, 0
      when absent, 0 for text nodes. */
  function ZIndex(c: Comp): int
  {
    if IsTextNode(c) then 0
    else match Get(c.style, "zIndex")
      case None => 0
      case Some(v) => match ParseInt(v) case Some(n) => n case None => 0
  }

  /** Every element's `zIndex`, where present, is an integer, as `int()`
      demands; below a text node nothing is sorted, so nothing is
      demanded. */
  predicate ZIndexesOk(cs: seq<Comp>)
  {
    forall i :: 0 <= i < |cs| && !IsTextNode(cs[i]) ==>
      (HasKey(cs[i].style, "zIndex") ==> ParseInt(GetOr(cs[i].style, "zIndex", "")).Some?)
      && ZIndexesOk(cs[i].children)
  }

  function ByZIndex(): (le: (Comp, Comp) -> bool)
    ensures TotalPreorder(le)
    ensures forall a, b :: le(a, b) == (ZIndex(a) <= ZIndex(b))
  {
    (a: Comp, b: Comp) => ZIndex(a) <= ZIndex(b)
  }

  const VoidTags: seq<string> := ["img", "input", "br", "hr"]

  /** A rendered attribute value: a token list joined by spaces. */
  function AttrText(v: AttrValue): string
  {
    match v
    case Str(s) => s
    case Tokens(items) => Join(items, " ")
  }

  /** The attributes rendered after `id` and `style`: all but those whose
      lower-cased key is `id` or `style`, in order. */
  function OtherAttributes(attrs: Dict<AttrValue>): (r: seq<(string, string)>)
    ensures |r| <= |attrs|
    ensures forall j :: 0 <= j < |r| ==> Lower(r[j].0) != "id" && Lower(r[j].0) != "style"
    ensures forall i :: 0 <= i < |attrs| && Lower(attrs[i].0) != "id" && Lower(attrs[i].0) != "style" ==>
      (attrs[i].0, AttrText(attrs[i].1)) in r
  {
    if attrs == [] then []
    else
      var (k, v) := attrs[0];
      assert forall i :: 1 <= i < |attrs| ==> attrs[i] == attrs[1..][i - 1];
      (if Lower(k) != "id" && Lower(k) != "style" then [(k, AttrText(v))] else []) + OtherAttributes(attrs[1..])
  }

  /** The attribute pairs of an element's opening tag: `id`, `style`, then
      the others. */
  function AttributePairs(c: Comp): (r: seq<(string, string)>)
    ensures |r| >= 2 && r[0] == ("id", c.id) && r[1] == ("style", StyleToCss(c.style))
    ensures forall j :: 2 <= j < |r| ==> Lower(r[j].0) != "id" && Lower(r[j].0) != "style"
  {
    [("id", c.id), ("style", StyleToCss(c.style))] + OtherAttributes(c.attributes)
  }

  function AttributeText(pairs: seq<(string, string)>): string
  {
    Join(seq(|pairs|, i requires 0 <= i < |pairs| => pairs[i].0 + "=\"" + pairs[i].1 + "\""), " ")
  }

  function OpenTag(c: Comp): string
  {
    "<" + c.tag + " " + AttributeText(AttributePairs(c)) + ">"
  }

  /** One component's markup: a text node is its text; a void element is
      its opening tag alone; any other element encloses its children. */
  function Render(c: Comp): string
    decreases c, 1
  {
    if IsTextNode(c) then c.text
    else if c.tag in VoidTags then OpenTag(c)
    else OpenTag(c) + BuildElements(c.children) + "</" + c.tag + ">"
  }

  /** The markup of a text node is its text; an element's starts with its
      opening tag, which is all of it for a void element, and any other
      element's ends with its closing tag. */
  lemma RenderShape(c: Comp)
    ensures IsTextNode(c) ==> Render(c) == c.text
    ensures !IsTextNode(c) ==> StartsWith(Render(c), OpenTag(c))
    ensures !IsTextNode(c) && c.tag in VoidTags ==> Render(c) == OpenTag(c)
    ensures !IsTextNode(c) && c.tag !in VoidTags ==> EndsWith(Render(c), "</" + c.tag + ">")
  {
    if !IsTextNode(c) {
      if c.tag in VoidTags {
        StartsWithPrefix(OpenTag(c), []);
        assert OpenTag(c) + [] == OpenTag(c);
      } else {
        Enclosed(OpenTag(c), BuildElements(c.children), "</" + c.tag + ">");
      }
    }
  }

  lemma Enclosed(open: string, inner: string, close: string)
    ensures StartsWith(open + inner + close, open) && EndsWith(open + inner + close, close)
  {
    StartsWithPrefix(open, inner + close);
    EndsWithSuffix(open + inner, close);
    assert open + inner + close == open + (inner + close);
  }

  /** `build_elements_recursive`: the siblings in z-index order, rendered
      and joined by line breaks. */
  function BuildElements(cs: seq<Comp>): string
    decreases cs, 1
  {
    Join(Pieces(cs), "\n")
  }

  /** The rendered siblings, in the order `sorted` leaves them. */
  function Pieces(cs: seq<Comp>): (r: seq<string>)
    ensures |r| == |cs|
    decreases cs, 0
  {
    var sorted := Sort(cs, ByZIndex());
    seq(|sorted|, i requires 0 <= i < |sorted| =>
      assert sorted[i] in multiset(cs);
      Render(sorted[i]))
  }

  /** Siblings render in z-index order, a permutation of the list that
      keeps components with equal z-index in their document order. */
  lemma SiblingOrder(cs: seq<Comp>)
    ensures var sorted := Sort(cs, ByZIndex());
      && multiset(sorted) == multiset(cs)
      && (forall i, j :: 0 <= i < j < |sorted| ==> ZIndex(sorted[i]) <= ZIndex(sorted[j]))
      && (forall e :: Equivs(sorted, e, ByZIndex()) == Equivs(cs, e, ByZIndex()))
      && (forall i :: 0 <= i < |cs| ==> Pieces(cs)[i] == Render(sorted[i]))
  {
    var le := ByZIndex();
    SortSorted(cs, le);
    forall e ensures Equivs(Sort(cs, le), e, le) == Equivs(cs, e, le) {
      SortStable(cs, e, le);
    }
  }

  /** Siblings already in z-index order, in particular siblings with no
      `zIndex` at all, render in document order. */
  lemma DocumentOrderKept(cs: seq<Comp>)
    requires forall i, j :: 0 <= i < j < |cs| ==> ZIndex(cs[i]) <= ZIndex(cs[j])
    ensures forall i :: 0 <= i < |cs| ==> Pieces(cs)[i] == Render(cs[i])
  {
    SortOfSorted(cs, ByZIndex());
  }

  /** The entries of a per-element map that are emitted: those with a
      non-empty value, in order. */
  function NonEmptyEntries(m: Dict<string>): (r: Dict<string>)
    ensures |r| <= |m|
    ensures forall j :: 0 <= j < |r| ==> r[j].1 != "" && r[j] in m
    ensures forall i :: 0 <= i < |m| && m[i].1 != "" ==> m[i] in r
  {
    if m == [] then []
    else
      assert forall i :: 1 <= i < |m| ==> m[i] == m[1..][i - 1];
      (if m[0].1 != "" then [m[0]] else []) + NonEmptyEntries(m[1..])
  }

  /** `#id { css }` for every element with CSS of its own. */
  function ElementCssRules(m: Dict<string>): (r: seq<string>)
    ensures |r| == |NonEmptyEntries(m)|
  {
    var es := NonEmptyEntries(m);
    seq(|es|, i requires 0 <= i < |es| => "#" + es[i].0 + " { " + es[i].1 + " }")
  }

  /** The page's style sheet: the global CSS, a line break, then the
      per-element rules one per line. */
  function FullCss(globalCss: string, elementCss: Dict<string>): (r: string)
    ensures StartsWith(r, globalCss + "\n")
  {
    var r := globalCss + "\n" + Join(ElementCssRules(elementCss), "\n");
    assert r[..|globalCss + "\n"|] == globalCss + "\n";
    r
  }

  /** The guarded call of one element's script: it runs with the element
      bound to `el`, only when the element exists, and an exception is
      logged instead of propagating. */
  function ElementScript(id: string, script: string): string
  {
    "try{ const el=document.getElementById('" + id + "'); if(el){ (function(el){ " + script
      + " })(el); } }catch(e){console.error('Error in script for " + id + ":',e)}"
  }

  function ElementScripts(m: Dict<string>): (r: seq<string>)
    ensures |r| == |NonEmptyEntries(m)|
  {
    var es := NonEmptyEntries(m);
    seq(|es|, i requires 0 <= i < |es| => ElementScript(es[i].0, es[i].1))
  }

  /** The page's script: the global script, then one listener for
      `DOMContentLoaded` that runs every element's guarded script. */
  function FullScript(globalJs: string, elementJs: Dict<string>): (r: string)
    ensures StartsWith(r, globalJs + "\ndocument.addEventListener('DOMContentLoaded',()=>{")
    ensures EndsWith(r, "});")
  {
    var head := globalJs + "\ndocument.addEventListener('DOMContentLoaded',()=>{";
    var r := head + Concat(ElementScripts(elementJs)) + "});";
    assert r[..|head|] == head;
    r
  }

  /** Each element with a non-empty script has its guarded call in the
      page script, and each with non-empty CSS its rule in the style sheet. */
  lemma ElementCodeEmitted(p: Project, i: nat)
    ensures i < |p.elementCss| && p.elementCss[i].1 != "" ==>
      Contains(FullCss(p.globalCss, p.elementCss), "#" + p.elementCss[i].0 + " { " + p.elementCss[i].1 + " }")
    ensures i < |p.elementJs| && p.elementJs[i].1 != "" ==>
      Contains(FullScript(p.globalJs, p.elementJs), ElementScript(p.elementJs[i].0, p.elementJs[i].1))
  {
    if i < |p.elementCss| && p.elementCss[i].1 != "" {
      var es := NonEmptyEntries(p.elementCss);
      var j :| 0 <= j < |es| && es[j] == p.elementCss[i];
      var rules := ElementCssRules(p.elementCss);
      JoinContains(rules, "\n", j);
      ContainsInfix(p.globalCss + "\n", Join(rules, "\n"), "", rules[j]);
      assert p.globalCss + "\n" + Join(rules, "\n") + "" == FullCss(p.globalCss, p.elementCss);
    }
    if i < |p.elementJs| && p.elementJs[i].1 != "" {
      var es := NonEmptyEntries(p.elementJs);
      var j :| 0 <= j < |es| && es[j] == p.elementJs[i];
      var scripts := ElementScripts(p.elementJs);
      assert Concat(scripts) == Join(scripts, "");
      JoinContains(scripts, "", j);
      ContainsInfix(p.globalJs + "\ndocument.addEventListener('DOMContentLoaded',()=>{", Concat(scripts), "});", scripts[j]);
    }
  }

  /** Every part of a joined list occurs in the result. */
  lemma {:induction false} JoinContains(parts: seq<string>, sep: string, j: nat)
    requires j < |parts|
    ensures Contains(Join(parts, sep), parts[j])
  {
    if |parts| == 1 {
      assert OccursAt(Join(parts, sep), parts[j], 0);
    } else if j == 0 {
      assert OccursAt(Join(parts, sep), parts[0], 0);
    } else {
      JoinContains(parts[1..], sep, j - 1);
      ContainsInfix(parts[0] + sep, Join(parts[1..], sep), "", parts[j]);
      assert parts[0] + sep + Join(parts[1..], sep) + "" == Join(parts, sep);
    }
  }

  /** What occurs in the middle piece occurs in the whole. */
  lemma ContainsInfix(a: string, b: string, c: string, p: string)
    requires Contains(b, p)
    ensures Contains(a + b + c, p)
  {
    var i :| 0 <= i <= |b| - |p| && OccursAt(b, p, i);
    assert (a + b + c)[|a| + i..|a| + i + |p|] == b[i..i + |p|];
    assert OccursAt(a + b + c, p, |a| + i);
  }

  const Doctype := "<!DOCTYPE html>"

  /** The page up to the style sheet. */
  const PageHead := Doctype + "\n<html lang=\"en\">\n<head>\n    <meta charset=\"UTF-8\">\n"
    + "    <meta name=\"viewport\" content=\"width=device-width, initial-scale=1.0\">\n"
    + "    <title>Exported Page</title>\n    <style>\n"
    + "        body { margin: 0; padding: 0; font-family: sans-serif; }\n        "

  /** Between the style sheet and the body markup. */
  const PageBody := "\n    </style>\n</head>\n<body>\n    "

  /** Between the body markup and the script. */
  const PageScript := "\n    <script>\n        "

  const PageTail := "\n    </script>\n</body>\n</html>"

  /** The exported page around the body markup, the style sheet and the
      script. */
  function Page(bodyHtml: string, fullCss: string, fullScript: string): (r: string)
    ensures StartsWith(r, "<!DOCTYPE html>")
    ensures Contains(r, bodyHtml) && Contains(r, fullCss) && Contains(r, fullScript)
  {
    var r := PageHead + fullCss + PageBody + bodyHtml + PageScript + fullScript + PageTail;
    StartsWithPrefix(Doctype, PageHead[|Doctype|..] + fullCss + PageBody + bodyHtml + PageScript + fullScript + PageTail);
    assert PageHead == Doctype + PageHead[|Doctype|..];
    Regroup7(Doctype, PageHead[|Doctype|..], fullCss, PageBody, bodyHtml, PageScript, fullScript, PageTail);
    Infixes(PageHead, fullCss, PageBody, bodyHtml, PageScript, fullScript, PageTail);
    r
  }

  lemma StartsWithPrefix(p: string, s: string)
    ensures StartsWith(p + s, p)
  {
    assert (p + s)[..|p|] == p;
  }

  lemma EndsWithSuffix(s: string, p: string)
    ensures EndsWith(s + p, p)
  {
    assert (s + p)[|s|..] == p;
  }

  lemma Regroup7(d: string, h: string, a: string, b: string, c: string, e: string, f: string, g: string)
    ensures (d + h) + a + b + c + e + f + g == d + (h + a + b + c + e + f + g)
  {
  }

  /** The second, fourth and sixth of seven concatenated strings occur in
      the whole. */
  lemma Infixes(a: string, b: string, c: string, d: string, e: string, f: string, g: string)
    ensures Contains(a + b + c + d + e + f + g, b)
    ensures Contains(a + b + c + d + e + f + g, d)
    ensures Contains(a + b + c + d + e + f + g, f)
  {
    var r := a + b + c + d + e + f + g;
    assert r[|a|..|a| + |b|] == b;
    assert OccursAt(r, b, |a|);
    assert r[|a + b + c|..|a + b + c| + |d|] == d;
    assert OccursAt(r, d, |a + b + c|);
    assert r[|a + b + c + d + e|..|a + b + c + d + e| + |f|] == f;
    assert OccursAt(r, f, |a + b + c + d + e|);
  }

  /** `generate_html`: the body markup and the whole page. */
  function GenerateHtml(p: Project): (r: (string, string))
    requires ZIndexesOk(p.components)
    ensures r.0 == BuildElements(p.components)
    ensures Contains(r.1, r.0)
  {
    var body := BuildElements(p.components);
    (body, Page(body, FullCss(p.globalCss, p.elementCss), FullScript(p.globalJs, p.elementJs)))
  }
}

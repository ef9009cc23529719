/** The exporter of the first editor (`generate_html` in `MMM.py`;
    `python.py` is the same file). Siblings are laid out in z-index order;
    every element carries its id, its style as CSS text and all of its
    attributes; `svg`, `path` and `g` elements drop their text. Only the
    components of the top level get a script of their own, because the
    children are rendered with an empty script map. */
module LegacyExport {
  import opened Wrappers
  import opened Text
  import opened ODict
  import opened Dom
  import opened Sorting
  import opened Components
  import opened Exporter

  /** The sort key: `int(style.get('zIndex', 0))`. Text nodes are not
      special here, unlike in the newer exporter. */
  function LegacyZ(c: Comp): int
  {
    match Get(c.style, "zIndex")
    case None => 0
    case Some(v) => match ParseInt(v) case Some(n) => n case None => 0
  }

  /** Every present `zIndex`, at every level, is an integer, as `int()`
      demands. */
  predicate LegacyZOk(cs: seq<Comp>)
    decreases cs
  {
    forall i :: 0 <= i < |cs| ==>
      (HasKey(cs[i].style, "zIndex") ==> ParseInt(GetOr(cs[i].style, "zIndex", "")).Some?)
      && LegacyZOk(cs[i].children)
  }

  function ByLegacyZ(): (le: (Comp, Comp) -> bool)
    ensures TotalPreorder(le)
    ensures forall a, b :: le(a, b) == (LegacyZ(a) <= LegacyZ(b))
  {
    (a: Comp, b: Comp) => LegacyZ(a) <= LegacyZ(b)
  }

  /** One ` key="value"` pair appended after `id` and `style`. */
  function AttrPair(k: string, v: AttrValue): string
  {
    " " + k + "=\"" + AttrText(v) + "\""
  }

  /** The pairs of the attribute loop, in the attributes' order; `id` and
      `style` are not filtered out. */
  function ExtraAttrs(attrs: Dict<AttrValue>): string
  {
    if attrs == [] then ""
    else ExtraAttrs(attrs[..|attrs| - 1]) + AttrPair(attrs[|attrs| - 1].0, attrs[|attrs| - 1].1)
  }

  /** The `id` and `style` pairs every opening tag starts with. */
  function AttrsHead(c: Comp): string
  {
    "id=\"" + c.id + "\" style=\"" + StyleToCss(c.style) + "\""
  }

  /** The attribute text of an opening tag. */
  function AttrsText(c: Comp): string
  {
    AttrsHead(c) + ExtraAttrs(c.attributes)
  }

  /** Every attribute of the component is printed, in its order, after the
      `id` and `style` pairs. */
  lemma {:induction false} AttributesListed(attrs: Dict<AttrValue>, i: nat)
    requires i < |attrs|
    ensures Contains(ExtraAttrs(attrs), AttrPair(attrs[i].0, attrs[i].1))
  {
    var init := attrs[..|attrs| - 1];
    var last := AttrPair(attrs[|attrs| - 1].0, attrs[|attrs| - 1].1);
    ExtraAttrsStep(attrs, |attrs| - 1);
    assert attrs[..|attrs|] == attrs;
    if i == |attrs| - 1 {
      assert OccursAt(last, last, 0);
      ContainsRight(ExtraAttrs(init), last, last);
    } else {
      assert attrs[i] == init[i];
      AttributesListed(init, i);
      ContainsLeft(ExtraAttrs(init), last, AttrPair(init[i].0, init[i].1));
    }
  }

  lemma ContainsLeft(a: string, b: string, p: string)
    requires Contains(a, p)
    ensures Contains(a + b, p)
  {
    var i :| 0 <= i <= |a| - |p| && OccursAt(a, p, i);
    assert (a + b)[i..i + |p|] == a[i..i + |p|];
    assert OccursAt(a + b, p, i);
  }

  lemma ContainsRight(a: string, b: string, p: string)
    requires Contains(b, p)
    ensures Contains(a + b, p)
  {
    var i :| 0 <= i <= |b| - |p| && OccursAt(b, p, i);
    assert (a + b)[|a| + i..|a| + i + |p|] == b[i..i + |p|];
    assert OccursAt(a + b, p, |a| + i);
  }

  /** The opening tag's attributes start with `id`, then `style`. */
  lemma AttrsTextStarts(c: Comp)
    ensures StartsWith(AttrsText(c), "id=\"" + c.id + "\" style=\"" + StyleToCss(c.style) + "\"")
  {
    StartsWithPrefix(AttrsHead(c), ExtraAttrs(c.attributes));
  }

  /** The elements whose text is not printed. */
  const NoTextTags: seq<string> := ["svg", "path", "g"]

  function OpenTagOf(c: Comp): string
  {
    "<" + c.tag + " " + AttrsText(c) + ">"
  }

  /** One component's markup: its opening tag, its text unless it is an
      `svg`, `path` or `g`, its children, its closing tag. */
  function Markup(c: Comp): string
    decreases c, 2
  {
    if c.tag in NoTextTags then OpenTagOf(c) + BodyHtml(c.children) + "</" + c.tag + ">"
    else OpenTagOf(c) + c.text + BodyHtml(c.children) + "</" + c.tag + ">"
  }

  /** The body markup of `generate_html`: the siblings in z-index order,
      rendered and joined by line breaks. */
  function BodyHtml(cs: seq<Comp>): string
    decreases cs, 2
  {
    Join(MarkupPieces(cs), "\n")
  }

  /** The rendered siblings, in the order `sorted` leaves them. */
  function MarkupPieces(cs: seq<Comp>): (r: seq<string>)
    decreases cs, 1
  {
    var sorted := Sort(cs, ByLegacyZ());
    assert forall i :: 0 <= i < |sorted| ==> sorted[i] in multiset(cs);
    RenderList(sorted, cs)
  }

  /** The markup of each component of a list, in its order. The list is
      drawn from `within`, which bounds the recursion. */
  function RenderList(ss: seq<Comp>, ghost within: seq<Comp>): (r: seq<string>)
    requires forall i :: 0 <= i < |ss| ==> ss[i] in within
    ensures |r| == |ss|
    decreases within, 0, |ss|
  {
    if ss == [] then [] else RenderList(ss[..|ss| - 1], within) + [Markup(ss[|ss| - 1])]
  }

  lemma {:induction false} RenderListAt(ss: seq<Comp>, within: seq<Comp>, i: nat)
    requires forall i :: 0 <= i < |ss| ==> ss[i] in within
    requires i < |ss|
    ensures RenderList(ss, within)[i] == Markup(ss[i])
  {
    if i < |ss| - 1 {
      RenderListAt(ss[..|ss| - 1], within, i);
    }
  }

  lemma RenderListStep(ss: seq<Comp>, within: seq<Comp>, i: nat)
    requires forall i :: 0 <= i < |ss| ==> ss[i] in within
    requires i < |ss|
    ensures RenderList(ss[..i + 1], within) == RenderList(ss[..i], within) + [Markup(ss[i])]
  {
    assert ss[..i + 1][..i] == ss[..i];
  }

  /** Siblings render in z-index order, a permutation of the list that
      keeps components with equal z-index in their original order. */
  lemma LegacySiblingOrder(cs: seq<Comp>)
    ensures var sorted := Sort(cs, ByLegacyZ());
      && multiset(sorted) == multiset(cs)
      && (forall i, j :: 0 <= i < j < |sorted| ==> LegacyZ(sorted[i]) <= LegacyZ(sorted[j]))
      && (forall e :: Equivs(sorted, e, ByLegacyZ()) == Equivs(cs, e, ByLegacyZ()))
      && (forall i :: 0 <= i < |cs| ==> MarkupPieces(cs)[i] == Markup(sorted[i]))
  {
    var le := ByLegacyZ();
    var sorted := Sort(cs, le);
    SortSorted(cs, le);
    forall e ensures Equivs(sorted, e, le) == Equivs(cs, e, le) {
      SortStable(cs, e, le);
    }
    assert forall i :: 0 <= i < |sorted| ==> sorted[i] in multiset(cs);
    forall i | 0 <= i < |cs| ensures MarkupPieces(cs)[i] == Markup(sorted[i]) {
      RenderListAt(sorted, cs, i);
    }
  }

  /** The text of a component changes its markup exactly when the
      component is not an `svg`, `path` or `g`. */
  lemma TextShown(c: Comp, t: string)
    ensures Markup(c.(text := t)) == Markup(c) <==> c.tag in NoTextTags || t == c.text
  {
    var c' := c.(text := t);
    var open, kids, close := OpenTagOf(c), BodyHtml(c.children), "</" + c.tag + ">";
    assert OpenTagOf(c') == open && BodyHtml(c'.children) == kids;
    if c.tag !in NoTextTags && t != c.text {
      assert Markup(c) == open + c.text + kids + close;
      assert Markup(c') == open + t + kids + close;
      TextDecides(open, c.text, t, kids, close);
    }
  }

  /** Two strings that differ only in a middle part differ. */
  lemma TextDecides(a: string, x: string, y: string, b: string, d: string)
    requires x != y
    ensures a + x + b + d != a + y + b + d
  {
    if |x| == |y| {
      var k :| 0 <= k < |x| && x[k] != y[k];
      assert (a + x + b + d)[|a| + k] == x[k];
      assert (a + y + b + d)[|a| + k] == y[k];
    } else {
      assert |a + x + b + d| != |a + y + b + d|;
    }
  }

  // The scripts

  const ScriptOpen := "\n            try {\n                const el = document.getElementById('"
  const ScriptGuard := "');\n                if(el) { "
  const ScriptCatch := " }\n            } catch (e) { console.error(\"Error in custom script for "
  const ScriptClose := ":\", e); }\n            "

  /** The guarded call of one component's script: it runs only when the
      element exists, and an exception is logged with the id. */
  function ScriptFor(id: string, code: string): string
  {
    ScriptOpen + id + ScriptGuard + code + ScriptCatch + id + ScriptClose
  }

  /** The script of a component: its non-empty entry in the map, if any. */
  function ScriptOf(c: Comp, js: Dict<string>): (r: seq<string>)
    ensures |r| <= 1
  {
    if HasScript(c, js) then [ScriptFor(c.id, Get(js, c.id).value)] else []
  }

  /** The scripts of a list of siblings, in their order. */
  function ScriptsOf(cs: seq<Comp>, js: Dict<string>): (r: seq<string>)
    ensures |r| <= |cs|
  {
    if cs == [] then [] else ScriptsOf(cs[..|cs| - 1], js) + ScriptOf(cs[|cs| - 1], js)
  }

  /** The component has a non-empty script in the map. */
  predicate HasScript(c: Comp, js: Dict<string>)
  {
    Get(js, c.id).Some? && Get(js, c.id).value != ""
  }

  /** Every script is the script of a component of the list. */
  lemma {:induction false} ScriptsOwned(cs: seq<Comp>, js: Dict<string>)
    ensures forall j :: 0 <= j < |ScriptsOf(cs, js)| ==>
      exists i :: 0 <= i < |cs| && ScriptOf(cs[i], js) == [ScriptsOf(cs, js)[j]]
  {
    forall j | 0 <= j < |ScriptsOf(cs, js)|
      ensures exists i :: 0 <= i < |cs| && ScriptOf(cs[i], js) == [ScriptsOf(cs, js)[j]]
    {
      var i := ScriptOwner(cs, js, j);
      assert 0 <= i < |cs| && ScriptOf(cs[i], js) == [ScriptsOf(cs, js)[j]];
    }
    assert forall j :: 0 <= j < |ScriptsOf(cs, js)| ==>
      exists i :: 0 <= i < |cs| && ScriptOf(cs[i], js) == [ScriptsOf(cs, js)[j]];
  }

  /** The component a script belongs to. */
  lemma {:induction false} ScriptOwner(cs: seq<Comp>, js: Dict<string>, j: nat) returns (i: nat)
    requires j < |ScriptsOf(cs, js)|
    ensures i < |cs| && ScriptOf(cs[i], js) == [ScriptsOf(cs, js)[j]]
  {
    var init := cs[..|cs| - 1];
    ScriptsStep(cs, js, |cs| - 1);
    assert cs[..|cs|] == cs;
    if j < |ScriptsOf(init, js)| {
      i := ScriptOwner(init, js, j);
      assert cs[i] == init[i];
    } else {
      i := |cs| - 1;
      OnlyOfTail(ScriptsOf(init, js), ScriptOf(cs[i], js), j);
    }
  }

  lemma OnlyOfTail<T>(a: seq<T>, b: seq<T>, j: nat)
    requires |b| <= 1 && |a| <= j < |a + b|
    ensures b == [(a + b)[j]]
  {
  }

  /** Every component of the list that has a script gets it, in the
      components' order. */
  lemma {:induction false} ScriptsComplete(cs: seq<Comp>, js: Dict<string>, i: nat)
    requires i < |cs| && HasScript(cs[i], js)
    ensures ScriptFor(cs[i].id, Get(js, cs[i].id).value) in ScriptsOf(cs, js)
  {
    var init := cs[..|cs| - 1];
    ScriptsStep(cs, js, |cs| - 1);
    assert cs[..|cs|] == cs;
    if i < |cs| - 1 {
      assert cs[i] == init[i];
      ScriptsComplete(init, js, i);
    } else {
      assert ScriptOf(cs[i], js) == [ScriptFor(cs[i].id, Get(js, cs[i].id).value)];
    }
  }

  /** With an empty map there are no scripts: this is why the children,
      rendered with `{}`, contribute none. */
  lemma {:induction false} NoMapNoScripts(cs: seq<Comp>)
    ensures ScriptsOf(cs, []) == []
  {
    if cs != [] {
      NoMapNoScripts(cs[..|cs| - 1]);
    }
  }

  // The page

  const LegacyHead := Doctype + "\n<html lang=\"en\">\n<head>\n    <meta charset=\"UTF-8\">\n"
    + "    <meta name=\"viewport\" content=\"width=device-width, initial-scale=1.0\">\n"
    + "    <title>Exported Page</title>\n    <style>\n"
    + "        body { margin: 0; padding: 0; font-family: sans-serif; }\n        "

  const LegacyBody := "\n    </style>\n</head>\n<body>\n    "

  const LegacyScript := "\n    <script>\n        document.addEventListener('DOMContentLoaded', () => {\n            "

  const LegacyTail := "\n        });\n    </script>\n</body>\n</html>"

  /** The page around the custom CSS, the body markup and the scripts. */
  function PageTemplate(customCss: string, bodyHtml: string, scriptHtml: string): (r: string)
    ensures StartsWith(r, "<!DOCTYPE html>")
    ensures Contains(r, customCss) && Contains(r, bodyHtml) && Contains(r, scriptHtml)
  {
    var r := LegacyHead + customCss + LegacyBody + bodyHtml + LegacyScript + scriptHtml + LegacyTail;
    StartsWithPrefix(Doctype, LegacyHead[|Doctype|..] + customCss + LegacyBody + bodyHtml + LegacyScript + scriptHtml + LegacyTail);
    assert LegacyHead == Doctype + LegacyHead[|Doctype|..];
    Regroup7(Doctype, LegacyHead[|Doctype|..], customCss, LegacyBody, bodyHtml, LegacyScript, scriptHtml, LegacyTail);
    Infixes(LegacyHead, customCss, LegacyBody, bodyHtml, LegacyScript, scriptHtml, LegacyTail);
    r
  }

  /** `generate_html(components, custom_css, custom_js_map)`: the body
      markup and the page. The loop appends one piece of markup per
      sibling, in z-index order, and the script of every sibling that has
      one. */
  method GenerateHtml(components: seq<Comp>, customCss: string, jsMap: Dict<string>)
    returns (bodyHtml: string, page: string)
    requires LegacyZOk(components)
    ensures bodyHtml == BodyHtml(components)
    ensures page == PageTemplate(customCss, bodyHtml, Join(ScriptsOf(Sort(components, ByLegacyZ()), jsMap), "\n"))
    decreases components, 1
  {
    var sorted := Sort(components, ByLegacyZ());
    SortedIn(components);
    var bodyElements: seq<string> := [];
    var scripts: seq<string> := [];
    for i := 0 to |sorted|
      invariant bodyElements == RenderList(sorted[..i], components)
      invariant scripts == ScriptsOf(sorted[..i], jsMap)
    {
      var comp := sorted[i];
      ScriptsStep(sorted, jsMap, i);
      scripts := scripts + ScriptOf(comp, jsMap);
      LegacyZOkIn(components, comp);
      var element := RenderComponent(comp);
      RenderListStep(sorted, components, i);
      bodyElements := bodyElements + [element];
    }
    assert sorted[..|sorted|] == sorted;
    bodyHtml := Join(bodyElements, "\n");
    page := PageTemplate(customCss, bodyHtml, Join(scripts, "\n"));
  }

  /** The body of the loop for one component: its attributes, its
      children rendered by the recursive call with no CSS and an empty map
      (only their markup is kept), and its markup. */
  method RenderComponent(comp: Comp) returns (element: string)
    requires LegacyZOk(comp.children)
    ensures element == Markup(comp)
    decreases comp, 0
  {
    var childrenHtml := "";
    if comp.children != [] {
      var childPage;
      childrenHtml, childPage := GenerateHtml(comp.children, "", []);
    } else {
      assert MarkupPieces([]) == [];
    }
    var attributes := Attributes(comp);
    if comp.tag in NoTextTags {
      element := "<" + comp.tag + " " + attributes + ">" + childrenHtml + "</" + comp.tag + ">";
    } else {
      element := "<" + comp.tag + " " + attributes + ">" + comp.text + childrenHtml + "</" + comp.tag + ">";
    }
  }

  lemma ScriptsStep(cs: seq<Comp>, js: Dict<string>, i: nat)
    requires i < |cs|
    ensures ScriptsOf(cs[..i + 1], js) == ScriptsOf(cs[..i], js) + ScriptOf(cs[i], js)
  {
    assert cs[..i + 1][..i] == cs[..i];
  }



  /** The sorted siblings are siblings. */
  lemma SortedIn(cs: seq<Comp>)
    ensures forall i :: 0 <= i < |Sort(cs, ByLegacyZ())| ==> Sort(cs, ByLegacyZ())[i] in cs
  {
    var sorted := Sort(cs, ByLegacyZ());
    assert forall i :: 0 <= i < |sorted| ==> sorted[i] in multiset(cs);
  }

  lemma LegacyZOkIn(cs: seq<Comp>, c: Comp)
    requires LegacyZOk(cs) && c in cs
    ensures LegacyZOk(c.children)
  {
  }

  /** The attribute loop of `generate_html`. */
  method Attributes(c: Comp) returns (attributes: string)
    ensures attributes == AttrsText(c)
  {
    attributes := "id=\"" + c.id + "\" style=\"" + StyleToCss(c.style) + "\"";
    assert attributes == AttrsHead(c) + ExtraAttrs(c.attributes[..0]);
    for i := 0 to |c.attributes|
      invariant attributes == AttrsHead(c) + ExtraAttrs(c.attributes[..i])
    {
      var (key, value) := c.attributes[i];
      ghost var before := attributes;
      attributes := attributes + " " + key + "=\"" + AttrText(value) + "\"";
      assert attributes == AttrsHead(c) + ExtraAttrs(c.attributes[..i + 1]) by {
        ExtraAttrsStep(c.attributes, i);
        PairAppended(before, key, value);
      }
    }
    assert c.attributes[..|c.attributes|] == c.attributes;
  }

  lemma PairAppended(s: string, k: string, v: AttrValue)
    ensures s + " " + k + "=\"" + AttrText(v) + "\"" == s + AttrPair(k, v)
  {
  }

  lemma ExtraAttrsStep(attrs: Dict<AttrValue>, i: nat)
    requires i < |attrs|
    ensures ExtraAttrs(attrs[..i + 1]) == ExtraAttrs(attrs[..i]) + AttrPair(attrs[i].0, attrs[i].1)
  {
    assert attrs[..i + 1][..i] == attrs[..i];
  }
}

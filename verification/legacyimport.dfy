/** The importer of the first editor (`MMM.py`; `python.py` is the same
    file): an inline style string becomes a style dictionary, and the
    direct children of the document's body become component trees whose
    ids come from a counter that every element consumes. */
module LegacyImport {
  import opened Wrappers
  import opened Text
  import opened ODict
  import opened Dom
  import opened Casing
  import opened Components
  import opened Exporter
  import Importer

  // Inline styles

  /** `s.split(c, 1)` for a string that contains `c`: the text before the
      first `c` and the text after it. */
  function SplitFirst(s: string, c: char): (r: (string, string))
    requires c in s
    ensures r.0 + [c] + r.1 == s && c !in r.0
  {
    if s[0] == c then ([], s[1..])
    else
      var (a, b) := SplitFirst(s[1..], c);
      ([s[0]] + a, b)
  }

  lemma {:induction false} SplitFirstAt(a: string, b: string, c: char)
    requires c !in a
    ensures c in a + [c] + b && SplitFirst(a + [c] + b, c) == (a, b)
    decreases |a|
  {
    var s := a + [c] + b;
    assert s[|a|] == c;
    if a != [] {
      assert s[1..] == a[1..] + [c] + b;
      assert a[0] in a;
      SplitFirstAt(a[1..], b, c);
      assert a == [a[0]] + a[1..];
    }
  }

  /** The assignment `css_to_json` makes for one `;`-separated rule: the
      key before the first `:`, stripped and camel-cased, and the stripped
      value after it; none for a rule without `:`. */
  function RuleDecl(rule: string): (r: seq<(string, string)>)
    ensures |r| <= 1
    ensures r == [] <==> ':' !in rule
  {
    if ':' in rule then
      var (key, value) := SplitFirst(rule, ':');
      [(CamelCase(Strip(key)), Strip(value))]
    else []
  }

  function RuleDecls(rules: seq<string>): (r: seq<(string, string)>)
    ensures |r| <= |rules|
  {
    if rules == [] then [] else RuleDecls(rules[..|rules| - 1]) + RuleDecl(rules[|rules| - 1])
  }

  lemma {:induction false} RuleDeclsAppend(a: seq<string>, b: seq<string>)
    ensures RuleDecls(a + b) == RuleDecls(a) + RuleDecls(b)
    decreases |b|
  {
    if b == [] {
      assert a + b == a;
      AppendEmpty(RuleDecls(a));
    } else {
      var b', last := b[..|b| - 1], b[|b| - 1];
      var ab := a + b;
      assert ab[..|ab| - 1] == a + b' && ab[|ab| - 1] == last;
      RuleDeclsAppend(a, b');
      RuleDeclsUnfold(ab);
      RuleDeclsUnfold(b);
      Assoc(RuleDecls(a), RuleDecls(b'), RuleDecl(last));
    }
  }

  lemma RuleDeclsUnfold(rules: seq<string>)
    requires rules != []
    ensures RuleDecls(rules) == RuleDecls(rules[..|rules| - 1]) + RuleDecl(rules[|rules| - 1])
  {
  }

  /** The assignments of `css_to_json`, in order; none for `""`. */
  function StyleDecls(css: string): seq<(string, string)>
  {
    if css == "" then [] else RuleDecls(Split(css, ';'))
  }

  /** `css_to_json`: every key the rules assign, with the value of its last
      assignment, in the order of first assignment. */
  function StyleJson(css: string): (r: Dict<string>)
    ensures css == "" ==> r == []
    ensures UniqueKeys(r)
    ensures forall k :: Get(r, k) == LastValue(StyleDecls(css), k)
  {
    PutAllKeepsKeysUnique([], StyleDecls(css));
    PutAll([], StyleDecls(css))
  }

  /** The loop of `css_to_json`, which assigns into `style_json` rule by
      rule. */
  method CssToJson(css: string) returns (style: Dict<string>)
    ensures style == StyleJson(css)
  {
    style := [];
    if css == "" {
      return;
    }
    var rules := Split(css, ';');
    for i := 0 to |rules|
      invariant style == PutAll([], RuleDecls(rules[..i]))
    {
      assert rules[..i + 1][..i] == rules[..i];
      ghost var done := RuleDecls(rules[..i]);
      var rule := rules[i];
      assert RuleDecls(rules[..i + 1]) == done + RuleDecl(rule);
      if ':' in rule {
        var (key, value) := SplitFirst(rule, ':');
        PutAllSnoc([], done, CamelCase(Strip(key)), Strip(value));
        style := Put(style, CamelCase(Strip(key)), Strip(value));
      } else {
        assert done + RuleDecl(rule) == done;
      }
    }
    assert rules[..|rules|] == rules;
  }

  /** A value that `style_to_css` prints and `css_to_json` reads back
      unchanged. */
  predicate CleanValue(v: string)
  {
    v != "" && ';' !in v && !IsSpace(v[0]) && !IsSpace(v[|v| - 1])
  }

  /** A style entry that survives printing and reading back. */
  predicate Printable(e: (string, string))
  {
    IsCamelKey(e.0) && CleanValue(e.1)
  }

  predicate AllPrintable(style: Dict<string>)
  {
    style == [] || (Printable(style[0]) && AllPrintable(style[1..]))
  }

  lemma {:induction false} AllPrintableOf(style: Dict<string>)
    requires forall i :: 0 <= i < |style| ==> Printable(style[i])
    ensures AllPrintable(style)
  {
    if style != [] {
      assert forall i :: 0 <= i < |style| - 1 ==> style[1..][i] == style[i + 1];
      AllPrintableOf(style[1..]);
    }
  }

  predicate PlainChar(c: char) { IsLetter(c) || IsDigit(c) || c == '-' }

  lemma {:induction false} HyphenatePlain(s: string, atStart: bool)
    requires forall c :: c in s ==> IsLetter(c) || IsDigit(c)
    ensures forall c :: c in Hyphenate(s, atStart) ==> PlainChar(c)
    decreases |s|
  {
    if s != [] {
      assert s[0] in s;
      assert forall c :: c in s[1..] ==> c in s;
      HyphenatePlain(s[1..], false);
    }
  }

  lemma KebabPlain(key: string)
    requires IsCamelKey(key)
    ensures forall c :: c in Kebab(key) ==> PlainChar(c)
  {
    var h := Hyphenate(key, true);
    HyphenatePlain(key, true);
    forall c | c in Kebab(key) ensures PlainChar(c) {
      var i :| 0 <= i < |Kebab(key)| && Kebab(key)[i] == c;
      assert h[i] in h;
    }
  }

  lemma StripLeadingSpace(s: string)
    ensures Strip(" " + s) == Strip(s)
  {
    assert (" " + s)[1..] == s;
  }

  lemma StripPlain(pre: string, k: string)
    requires pre == "" || pre == " "
    requires forall c :: c in k ==> PlainChar(c)
    ensures Strip(pre + k) == k
  {
    if k != [] {
      assert k[0] in k && k[|k| - 1] in k;
      PlainNotSpace(k[0]);
      PlainNotSpace(k[|k| - 1]);
    }
    assert Strip(k) == k;
    if pre == " " {
      StripLeadingSpace(k);
    } else {
      assert pre + k == k;
    }
  }

  lemma PlainNotSpace(c: char)
    requires PlainChar(c)
    ensures !IsSpace(c)
  {
  }

  /** One printed declaration, after `""` or the `" "` that separates it
      from the previous one, reads back as its key and value. */
  lemma RuleDeclOf(pre: string, key: string, value: string)
    requires pre == "" || pre == " "
    requires IsCamelKey(key) && CleanValue(value)
    ensures RuleDecl(pre + Kebab(key) + ": " + value) == [(key, value)]
  {
    var name := pre + Kebab(key);
    KebabPlain(key);
    assert !PlainChar(':');
    assert ':' !in name;
    assert pre + Kebab(key) + ": " + value == name + [':'] + (" " + value);
    SplitFirstAt(name, " " + value, ':');
    StripLeadingSpace(value);
    assert Strip(value) == value;
    StripPlain(pre, Kebab(key));
    KebabThenCamelCase(key);
  }

  lemma {:induction false} DeclsOfPrinted(pre: string, style: Dict<string>)
    requires pre == "" || pre == " "
    requires |style| >= 1
    requires AllPrintable(style)
    ensures RuleDecls(Split(pre + Join(Declared(style), " "), ';')) == style
    decreases |style|
  {
    var (k, v) := style[0];
    var first := pre + Kebab(k) + ": " + v;
    FirstRuleOf(pre, k, v);
    var tail := PrintedTail(style);
    PrintedSplit(pre, style);
    assert ";" == [';'];
    SplitAfter(first, tail, ';');
    RuleDeclsCons(first, Split(tail, ';'));
    if |style| == 1 {
      assert RuleDecls([[]]) == RuleDecls([]) + RuleDecl([]);
    } else {
      DeclsOfPrinted(" ", style[1..]);
    }
    ConsSplit(style);
  }

  /** The first printed declaration is one rule. */
  lemma FirstRuleOf(pre: string, k: string, v: string)
    requires pre == "" || pre == " "
    requires IsCamelKey(k) && CleanValue(v)
    ensures ';' !in pre + Kebab(k) + ": " + v
    ensures RuleDecl(pre + Kebab(k) + ": " + v) == [(k, v)]
  {
    KebabPlain(k);
    assert !PlainChar(';');
    assert ';' !in pre && ';' !in Kebab(k) && ';' !in ": " && ';' !in v;
    RuleDeclOf(pre, k, v);
  }

  /** What follows the first `;` of a printed style. */
  function PrintedTail(style: Dict<string>): string
    requires |style| >= 1
  {
    if |style| == 1 then [] else " " + Join(Declared(style[1..]), " ")
  }

  lemma PrintedSplit(pre: string, style: Dict<string>)
    requires |style| >= 1
    ensures pre + Join(Declared(style), " ") == pre + Kebab(style[0].0) + ": " + style[0].1 + ";" + PrintedTail(style)
  {
    var (k, v) := style[0];
    var ps := Declared(style);
    assert ps[0] == Kebab(k) + ": " + v + ";";
    if |style| == 1 {
      assert Join(ps, " ") == ps[0];
      Regroup(pre, Kebab(k), ": ", v, ";", []);
      AppendEmpty(ps[0]);
      AppendEmpty(pre + Kebab(k) + ": " + v + ";");
    } else {
      assert Declared(style[1..]) == ps[1..];
      assert Join(ps, " ") == ps[0] + " " + Join(ps[1..], " ");
      Assoc(ps[0], " ", Join(ps[1..], " "));
      Regroup(pre, Kebab(k), ": ", v, ";", PrintedTail(style));
    }
  }

  lemma RuleDeclsCons(a: string, rest: seq<string>)
    ensures RuleDecls([a] + rest) == RuleDecl(a) + RuleDecls(rest)
  {
    RuleDeclsAppend([a], rest);
    assert [a][..0] == [];
    assert RuleDecls([a]) == [] + RuleDecl(a);
    EmptyAppend(RuleDecl(a));
  }

  lemma Regroup<T>(p: seq<T>, k: seq<T>, s: seq<T>, v: seq<T>, e: seq<T>, t: seq<T>)
    ensures p + (k + s + v + e + t) == p + k + s + v + e + t
  {
  }

  lemma Assoc<T>(a: seq<T>, b: seq<T>, c: seq<T>)
    ensures a + b + c == a + (b + c)
  {
  }

  lemma AppendEmpty<T>(s: seq<T>)
    ensures s + [] == s
  {
  }

  lemma AppendBoth<T>(a: seq<T>, b: seq<T>, c: seq<T>, d: seq<T>)
    requires a == c && b == d
    ensures a + b == c + d
  {
  }

  lemma EmptyAppend<T>(s: seq<T>)
    ensures [] + s == s
  {
  }

  /** Moving `mid` from the front of the rest to the end of the prefix. */
  lemma Shift<T>(whole: seq<T>, prefix: seq<T>, rest: seq<T>, mid: seq<T>, tail: seq<T>, prefix': seq<T>)
    requires whole == prefix + rest && rest == mid + tail && prefix' == prefix + mid
    ensures whole == prefix' + tail
  {
  }

  lemma ConsSplit<T>(s: seq<T>)
    requires |s| >= 1
    ensures [s[0]] + s[1..] == s
  {
  }

  /** Splitting at the first separator, when it follows `a`. */
  lemma {:induction false} SplitAfter(a: string, b: string, sep: char)
    requires sep !in a
    ensures Split(a + [sep] + b, sep) == [a] + Split(b, sep)
    decreases |a|
  {
    var s := a + [sep] + b;
    if a == [] {
      assert s == [sep] + b;
      assert s[1..] == b;
    } else {
      assert s[1..] == a[1..] + [sep] + b;
      assert s[0] == a[0] && a[0] in a;
      SplitAfter(a[1..], b, sep);
      SplitUnfold(s, sep);
      HeadTail(Split(s[1..], sep), a[1..], Split(b, sep));
      assert [a[0]] + a[1..] == a;
    }
  }

  /** `Split` on a string that does not start with the separator. */
  lemma SplitUnfold(s: string, sep: char)
    requires s != [] && s[0] != sep
    ensures Split(s, sep) == [[s[0]] + Split(s[1..], sep)[0]] + Split(s[1..], sep)[1..]
  {
  }

  lemma HeadTail<T>(s: seq<T>, h: T, t: seq<T>)
    requires s == [h] + t
    ensures s[0] == h && s[1..] == t
  {
  }

  /** Round trip with `style_to_css`: a style with camel-case keys and
      values that are non-empty, free of `;` and not padded with white
      space is read back as itself, keys, values and order. */
  lemma StyleJsonOfStyleToCss(style: Dict<string>)
    requires UniqueKeys(style)
    requires forall i :: 0 <= i < |style| ==> IsCamelKey(style[i].0) && CleanValue(style[i].1)
    ensures StyleJson(StyleToCss(style)) == style
  {
    AllDeclared(style);
    if style != [] {
      assert forall i :: 0 <= i < |style| ==> Printable(style[i]);
      AllPrintableOf(style);
      DeclsOfPrinted("", style);
      assert "" + StyleToCss(style) == StyleToCss(style);
      PutAllFresh(style);
    }
  }

  // Elements

  /** `type_map.get(tag, 'div')`: the dictionary maps `p` to `text`,
      `main` to `content`, `header`, `footer` and `button` to themselves,
      and `div`, `svg`, `g` and `path` to `div`, the default. */
  function LegacyType(name: string): string
  {
    if name == "p" then "text"
    else if name == "main" then "content"
    else if name == "header" || name == "footer" || name == "button" then name
    else "div"
  }

  /** `element.get('id', f"element-{next_id_func()}")` with the counter at
      `n`: the element's own id, even an empty one, or a numbered one. */
  function LegacyId(t: Tag, n: nat): (r: string)
    ensures StrAttr(t, "id").Some? ==> r == StrAttr(t, "id").value
    ensures StrAttr(t, "id").None? ==> r == "element-" + NatToString(n)
  {
    match StrAttr(t, "id")
    case Some(v) => v
    case None => "element-" + NatToString(n)
  }

  /** `element.get('style', '')` */
  function StyleAttr(t: Tag): string
  {
    match StrAttr(t, "style")
    case Some(s) => s
    case None => ""
  }

  /** The attributes whose key is not exactly `id` or `style`, in order. */
  function KeptAttributes(attrs: Dict<AttrValue>): (r: Dict<AttrValue>)
    ensures forall i :: 0 <= i < |r| ==> r[i].0 != "id" && r[i].0 != "style" && r[i] in attrs
    ensures forall i :: 0 <= i < |attrs| && attrs[i].0 != "id" && attrs[i].0 != "style" ==> attrs[i] in r
  {
    if attrs == [] then []
    else
      var rest := KeptAttributes(attrs[1..]);
      assert forall i :: 1 <= i < |attrs| ==> attrs[i] == attrs[1..][i - 1];
      if attrs[0].0 == "id" || attrs[0].0 == "style" then rest else [attrs[0]] + rest
  }

  /** How many times parsing the node draws from the counter: once for a
      named element, whatever its attributes (the default of
      `element.get('id', ...)` is evaluated before the call), and once for
      every element parsed inside it; never for a string node. */
  function Weight(n: Node): nat
    decreases n, 1
  {
    match n
    case Text(_) => 0
    case Element(t, kids) => if t.name == "" then 0 else 1 + ElementCount(kids)
  }

  /** The number of draws for a run of nodes. */
  function ElementCount(cs: seq<Node>): nat
    decreases cs, 0
  {
    if cs == [] then 0 else Weight(cs[0]) + ElementCount(cs[1..])
  }

  /** What the recursion of `parse_html_element` settles for one element
      before any of it is converted: the tag, the number drawn for it, the
      stripped non-blank text runs and the child elements, in order. */
  datatype Walked = Walked(tag: Tag, number: nat, texts: seq<string>, children: seq<Walked>)

  /** The walk of a named element, the counter standing at `next`: the
      element draws `next`, its contents are walked from `next + 1` on. */
  function Walk(t: Tag, kids: seq<Node>, next: nat): Walked
    decreases kids, 1
  {
    Walked(t, next, TextRuns(kids), Subtrees(kids, next + 1))
  }

  /** The child one node of the contents adds, the counter standing at
      `next`: a walked element for a named element, nothing otherwise. */
  function Trees(n: Node, next: nat): seq<Walked>
    decreases n, 2
  {
    match n
    case Text(_) => []
    case Element(t, kids) => if t.name == "" then [] else [Walk(t, kids, next)]
  }

  /** The children the loop over an element's contents collects, the
      counter standing at `next`. Each node starts where the draws of the
      nodes before it end. */
  function Subtrees(cs: seq<Node>, next: nat): seq<Walked>
    decreases cs, 0
  {
    if cs == [] then [] else Trees(cs[0], next) + Subtrees(cs[1..], next + Weight(cs[0]))
  }

  /** The text run one node adds: a string node that is not blank after
      `strip()`, stripped. */
  function Runs(n: Node): seq<string>
  {
    match n
    case Text(s) => if Strip(s) != [] then [Strip(s)] else []
    case Element(_, _) => []
  }

  /** The text runs the loop over an element's contents collects. */
  function TextRuns(cs: seq<Node>): seq<string>
  {
    if cs == [] then [] else Runs(cs[0]) + TextRuns(cs[1..])
  }

  /** The component `parse_html_element` returns for a walked element: the
      id is the element's own or `element-` and its number, the text runs
      are joined by single spaces. */
  function ToComp(w: Walked): Comp
    decreases w, 1
  {
    var id := LegacyId(w.tag, w.number);
    Comp(id, LegacyType(w.tag.name), w.tag.name, id, StyleJson(StyleAttr(w.tag)), Join(w.texts, " "), KeptAttributes(w.tag.attrs), ToComps(w.children), NoInteraction)
  }

  function ToComps(ws: seq<Walked>): (r: seq<Comp>)
    ensures |r| == |ws|
    decreases ws, 0
  {
    if ws == [] then [] else ToComps(ws[..|ws| - 1]) + [ToComp(ws[|ws| - 1])]
  }

  lemma ToCompsSnoc(ws: seq<Walked>, w: Walked)
    ensures ToComps(ws + [w]) == ToComps(ws) + [ToComp(w)]
  {
    assert (ws + [w])[..|ws|] == ws;
  }

  /** `parse_html_element` on a named element, the counter at `next`. */
  function ParseLegacy(t: Tag, kids: seq<Node>, next: nat): Comp
  {
    ToComp(Walk(t, kids, next))
  }

  /** `parse_html_element` on any node: nothing for a string node or an
      element without a name. */
  function ParseNode(n: Node, next: nat): (r: Option<Comp>)
    ensures r.Some? <==> n.Element? && n.tag.name != ""
    ensures r.Some? ==> r.value.tag == n.tag.name && r.value.id == LegacyId(n.tag, next)
  {
    match n
    case Text(_) => None
    case Element(t, kids) => if t.name == "" then None else Some(ParseLegacy(t, kids, next))
  }

  /** Every text run is stripped and not blank: `texts.append` is guarded by
      `if text`. */
  lemma {:induction false} TextRunsStripped(cs: seq<Node>)
    ensures forall s :: s in TextRuns(cs) ==> StrippedRun(s)
  {
    if cs != [] {
      TextRunsStripped(cs[1..]);
      assert TextRuns(cs) == Runs(cs[0]) + TextRuns(cs[1..]);
      assert forall s :: s in Runs(cs[0]) ==> StrippedRun(s);
    }
  }

  // The numbering

  /** How many elements a walked tree holds. */
  function Size(w: Walked): nat
    decreases w, 1
  {
    1 + SizeAll(w.children)
  }

  function SizeAll(ws: seq<Walked>): nat
    decreases ws, 0
  {
    if ws == [] then 0 else Size(ws[0]) + SizeAll(ws[1..])
  }

  /** `w` carries `lo`, its subtrees carry the following numbers in
      preorder, each subtree a block right after its older siblings. */
  predicate NumberedFrom(w: Walked, lo: nat)
    decreases w, 1
  {
    w.number == lo && AllNumberedFrom(w.children, lo + 1)
  }

  predicate AllNumberedFrom(ws: seq<Walked>, lo: nat)
    decreases ws, 0
  {
    ws == [] || (NumberedFrom(ws[0], lo) && AllNumberedFrom(ws[1..], lo + Size(ws[0])))
  }

  /** An element walked from `next` is numbered from `next` and holds one
      element per named element of its subtree. */
  lemma {:induction false} WalkNumbered(t: Tag, kids: seq<Node>, next: nat)
    ensures NumberedFrom(Walk(t, kids, next), next)
    ensures Size(Walk(t, kids, next)) == 1 + ElementCount(kids)
    decreases kids, 1
  {
    SubtreesNumbered(kids, next + 1);
  }

  lemma {:induction false} SubtreesNumbered(cs: seq<Node>, next: nat)
    ensures AllNumberedFrom(Subtrees(cs, next), next)
    ensures SizeAll(Subtrees(cs, next)) == ElementCount(cs)
    decreases cs, 0
  {
    if cs != [] {
      var rest := Subtrees(cs[1..], next + Weight(cs[0]));
      SubtreesNumbered(cs[1..], next + Weight(cs[0]));
      TreesNumbered(cs[0], next, rest);
    }
  }

  /** A tree followed by the trees numbered right after it. */
  lemma ConsNumbered(w: Walked, rest: seq<Walked>, lo: nat)
    requires NumberedFrom(w, lo) && AllNumberedFrom(rest, lo + Size(w))
    ensures AllNumberedFrom([w] + rest, lo)
    ensures SizeAll([w] + rest) == Size(w) + SizeAll(rest)
  {
    var ws := [w] + rest;
    assert ws[0] == w && ws[1..] == rest;
  }

  /** The child a node adds, put before the ones after it. */
  lemma {:induction false} TreesNumbered(n: Node, next: nat, rest: seq<Walked>)
    requires AllNumberedFrom(rest, next + Weight(n))
    ensures AllNumberedFrom(Trees(n, next) + rest, next)
    ensures SizeAll(Trees(n, next) + rest) == Weight(n) + SizeAll(rest)
    decreases n, 2
  {
    match n {
      case Text(_) =>
        EmptyAppend(rest);
      case Element(t, kids) =>
        if t.name == "" {
          EmptyAppend(rest);
        } else {
          WalkNumbered(t, kids, next);
          ConsNumbered(Walk(t, kids, next), rest, next);
        }
    }
  }

  /** The numbers drawn in a walked element, in preorder. */
  function Numbers(w: Walked): seq<nat>
    decreases w, 1
  {
    [w.number] + AllNumbers(w.children)
  }

  function AllNumbers(ws: seq<Walked>): seq<nat>
    decreases ws, 0
  {
    if ws == [] then [] else Numbers(ws[0]) + AllNumbers(ws[1..])
  }

  /** A tree numbered from `lo` draws exactly `lo` up to its size. */
  lemma {:induction false} NumberedRange(w: Walked, lo: nat)
    requires NumberedFrom(w, lo)
    ensures Numbers(w) == Importer.Range(lo, lo + Size(w))
    decreases w, 1
  {
    AllNumberedRange(w.children, lo + 1);
  }

  lemma {:induction false} AllNumberedRange(ws: seq<Walked>, lo: nat)
    requires AllNumberedFrom(ws, lo)
    ensures AllNumbers(ws) == Importer.Range(lo, lo + SizeAll(ws))
    decreases ws, 0
  {
    if ws != [] {
      var mid := lo + Size(ws[0]);
      var hi := lo + SizeAll(ws);
      NumberedRange(ws[0], lo);
      AllNumberedRange(ws[1..], mid);
      Importer.RangeAppend(lo, mid, hi);
    }
  }

  /** The counter numbers the elements in document order, each parent
      before its children, without gaps: an element walked from `next`
      draws exactly `next` up to its weight, so no two elements share a
      number and no two `element-` ids collide. */
  lemma WalkNumbers(t: Tag, kids: seq<Node>, next: nat)
    ensures Numbers(Walk(t, kids, next)) == Importer.Range(next, next + 1 + ElementCount(kids))
  {
    WalkNumbered(t, kids, next);
    NumberedRange(Walk(t, kids, next), next);
  }

  /** No number is drawn twice. */
  lemma WalkNumbersDistinct(t: Tag, kids: seq<Node>, next: nat)
    ensures forall i, j :: 0 <= i < j < |Numbers(Walk(t, kids, next))| ==> Numbers(Walk(t, kids, next))[i] != Numbers(Walk(t, kids, next))[j]
  {
    WalkNumbers(t, kids, next);
    Importer.RangeValues(next, next + 1 + ElementCount(kids));
  }

  // The method

  /** One node off the front of the contents: the children it adds, then
      the ones of the nodes after it, walked from where its draws end. */
  lemma SubtreesStep(cs: seq<Node>, i: nat, at: nat, next: nat)
    requires i < |cs| && next == at + Weight(cs[i])
    ensures Subtrees(cs[i..], at) == Trees(cs[i], at) + Subtrees(cs[i + 1..], next)
  {
    assert cs[i..][1..] == cs[i + 1..];
    assert cs[i..][0] == cs[i];
  }

  lemma TextRunsStep(cs: seq<Node>, i: nat)
    requires i < |cs|
    ensures TextRuns(cs[i..]) == Runs(cs[i]) + TextRuns(cs[i + 1..])
  {
    assert cs[i..][1..] == cs[i + 1..];
    assert cs[i..][0] == cs[i];
  }

  lemma ElementCountStep(cs: seq<Node>, i: nat)
    requires i < |cs|
    ensures ElementCount(cs[i..]) == Weight(cs[i]) + ElementCount(cs[i + 1..])
  {
    assert cs[i..][1..] == cs[i + 1..];
    assert cs[i..][0] == cs[i];
  }

  /** The contents loop keeps its invariant over one more node. */
  lemma ContentsLoopStep(kids: seq<Node>, i: nat, start: nat, at: nat, next: nat, walked: seq<Walked>, texts: seq<string>, walked': seq<Walked>, texts': seq<string>)
    requires i < |kids|
    requires Subtrees(kids, start) == walked + Subtrees(kids[i..], at)
    requires TextRuns(kids) == texts + TextRuns(kids[i..])
    requires start + ElementCount(kids) == at + ElementCount(kids[i..])
    requires walked' == walked + Trees(kids[i], at)
    requires texts' == texts + Runs(kids[i])
    requires next == at + Weight(kids[i])
    ensures Subtrees(kids, start) == walked' + Subtrees(kids[i + 1..], next)
    ensures TextRuns(kids) == texts' + TextRuns(kids[i + 1..])
    ensures start + ElementCount(kids) == next + ElementCount(kids[i + 1..])
  {
    SubtreesStep(kids, i, at, next);
    Shift(Subtrees(kids, start), walked, Subtrees(kids[i..], at), Trees(kids[i], at), Subtrees(kids[i + 1..], next), walked');
    TextRunsStep(kids, i);
    Shift(TextRuns(kids), texts, TextRuns(kids[i..]), Runs(kids[i]), TextRuns(kids[i + 1..]), texts');
    ElementCountStep(kids, i);
  }

  /** `parse_html_element` as the source runs it: the counter is the
      `get_next_id` closure, drawn before the style is converted and the
      contents are walked. It draws `Weight(n)` numbers. */
  method ParseHtmlElement(n: Node, counter: Importer.IdCounter) returns (r: Option<Comp>)
    modifies counter
    ensures r == ParseNode(n, old(counter.next))
    ensures counter.next == old(counter.next) + Weight(n)
    decreases n, 1
  {
    if n.Text? || n.tag.name == "" {
      return None;
    }
    var t := n.tag;
    var idNumber := counter.Take();
    var id := LegacyId(t, idNumber);
    var style := CssToJson(StyleAttr(t));
    var children, texts := ParseContents(n.contents, counter);
    r := Some(Comp(id, LegacyType(t.name), t.name, id, style, Join(texts, " "), KeptAttributes(t.attrs), children, NoInteraction));
  }

  /** The loop of `parse_html_element` over the element's contents: a
      string that is not blank after `strip()` is collected, an element is
      parsed with the same counter and appended to the children. */
  method ParseContents(kids: seq<Node>, counter: Importer.IdCounter) returns (children: seq<Comp>, texts: seq<string>)
    modifies counter
    ensures children == ToComps(Subtrees(kids, old(counter.next)))
    ensures texts == TextRuns(kids)
    ensures counter.next == old(counter.next) + ElementCount(kids)
    decreases kids, 0
  {
    ghost var start := counter.next;
    children := [];
    texts := [];
    ghost var walked: seq<Walked> := [];
    assert kids[0..] == kids;
    EmptyAppend(Subtrees(kids, start));
    EmptyAppend(TextRuns(kids));
    for i := 0 to |kids|
      invariant Subtrees(kids, start) == walked + Subtrees(kids[i..], counter.next)
      invariant TextRuns(kids) == texts + TextRuns(kids[i..])
      invariant start + ElementCount(kids) == counter.next + ElementCount(kids[i..])
      invariant children == ToComps(walked)
    {
      ghost var at := counter.next;
      ghost var walked0, texts0 := walked, texts;
      var content := kids[i];
      match content {
        case Text(s) =>
          AppendEmpty(walked);
          if Strip(s) != [] {
            texts := texts + [Strip(s)];
          } else {
            AppendEmpty(texts);
          }
        case Element(ct, ckids) =>
          AppendEmpty(texts);
          var child := ParseHtmlElement(content, counter);
          if child.Some? {
            ToCompsSnoc(walked, Walk(ct, ckids, at));
            children := children + [child.value];
            walked := walked + [Walk(ct, ckids, at)];
          } else {
            AppendEmpty(walked);
          }
      }
      ContentsLoopStep(kids, i, start, at, counter.next, walked0, texts0, walked, texts);
    }
    assert kids[|kids|..] == [];
    AppendEmpty(walked);
    AppendEmpty(texts);
  }

  // The import

  /** What `import_html` returns on success. */
  datatype ImportedPage = ImportedPage(components: seq<Comp>, globalCss: string, nextId: nat)

  /** The text of every `style` element below the head, each followed by
      the two characters `\n`, its strings joined by the same two. */
  function StyleTexts(styles: seq<Node>): string
  {
    if styles == [] then ""
    else StyleTexts(styles[..|styles| - 1]) + GetText(styles[|styles| - 1], "\\n") + "\\n"
  }

  function HeadStyles(doc: seq<Node>): seq<Node>
  {
    match FindFirst(doc, "head", [])
    case None => []
    case Some((head, _)) => FindAll(head.contents, "style")
  }

  function BodyContents(doc: seq<Node>): seq<Node>
  {
    match FindFirst(doc, "body", [])
    case None => []
    case Some((body, _)) => body.contents
  }

  /** `Api.import_html` on the parsed document: the body's direct children
      through one counter starting at 1, then the head's style text. The
      counter left over is one more than the number of elements parsed. */
  function ImportPage(doc: seq<Node>): ImportedPage
  {
    var body := BodyContents(doc);
    ImportedPage(ToComps(Subtrees(body, 1)), StyleTexts(HeadStyles(doc)), 1 + ElementCount(body))
  }

  /** `import_html` numbers the elements of the body `1, 2, ...` in
      document order, without gaps, and leaves the counter one past the
      last: no two imported ids of the form `element-<n>` collide. */
  lemma ImportNumbers(doc: seq<Node>)
    ensures AllNumbers(Subtrees(BodyContents(doc), 1)) == Importer.Range(1, ImportPage(doc).nextId)
  {
    var body := BodyContents(doc);
    SubtreesNumbered(body, 1);
    AllNumberedRange(Subtrees(body, 1), 1);
  }

  /** With no body there is nothing to import and the counter stays at 1. */
  lemma NoBody(doc: seq<Node>)
    requires FindFirst(doc, "body", []).None?
    ensures ImportPage(doc) == ImportedPage([], StyleTexts(HeadStyles(doc)), 1)
  {
  }

  /** The loop of `import_html` over the head's `style` elements. */
  method CollectStyles(styles: seq<Node>) returns (globalCss: string)
    ensures globalCss == StyleTexts(styles)
  {
    globalCss := "";
    for i := 0 to |styles|
      invariant globalCss == StyleTexts(styles[..i])
    {
      assert styles[..i + 1][..i] == styles[..i];
      globalCss := globalCss + GetText(styles[i], "\\n") + "\\n";
    }
    assert styles[..|styles|] == styles;
  }

  /** `Api.import_html` after the file is read and parsed: the body's
      elements through one counter, then the head's style text. */
  method ImportHtml(doc: seq<Node>) returns (page: ImportedPage)
    ensures page == ImportPage(doc)
  {
    var counter := new Importer.IdCounter(1);
    var components, _ := ParseContents(BodyContents(doc), counter);
    var globalCss := CollectStyles(HeadStyles(doc));
    page := ImportedPage(components, globalCss, counter.next);
  }
}

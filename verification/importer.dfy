/** The HTML importer: a parsed document becomes the editor's component
    tree. Each element gets a type, an id (its own, or one made from a
    running counter), its cascaded and inline style, its attributes and its
    direct text; elements below it become its children.

    What the importer reads from outside is passed in: the style sheet
    parser, the inline style parser, reading a text file and reading an
    image file as base64. */
module Importer {
  import opened Wrappers
  import opened Text
  import opened ODict
  import opened Dom
  import opened Cascade
  import opened Components

  /** The outcome of reading a text file: its contents, a missing file
      (reported and skipped), or any other failure (which propagates). */
  datatype ReadResult = Content(text: string) | NotFound | Failed(msg: string)

  /** What the element parser works with. `styles` computes an element's
      cascaded style from the style sheet (`ByCascade` below); `encodeFile`
      gives the base64 text of an image file, `None` for any failure to read
      it; `parseStyle` gives the declarations of an inline `style`
      attribute, `None` when the parser raises. */
  datatype Env = Env(
    styles: (Tag, seq<Tag>) -> Result<Dict<string>>,
    parseStyle: string -> Option<Declarations>,
    encodeFile: string -> Option<string>)

  /** Tags whose name is their component type. */
  const OwnTypeTags: seq<string> := [
    "header", "footer", "main", "button", "svg", "img", "p", "span",
    "h1", "h2", "h3", "h4", "h5", "h6", "div", "style", "g", "path",
    "line", "circle", "rect", "filter", "fegaussianblur", "fecolormatrix", "feblend"]

  /** `_determine_type`: a listed tag is its own type, an `input` has the
      type of its `type` attribute (`text` when absent), anything else is a
      `div`. */
  function DetermineType(t: Tag): (r: string)
    ensures t.name in OwnTypeTags ==> r == t.name
    ensures t.name == "input" && StrAttr(t, "type").Some? ==> r == StrAttr(t, "type").value
    ensures t.name == "input" && StrAttr(t, "type").None? ==> r == "text"
    ensures t.name !in OwnTypeTags && t.name != "input" ==> r == "div"
  {
    if t.name in OwnTypeTags then t.name
    else if t.name == "input" then
      match StrAttr(t, "type")
      case Some(v) => v
      case None => "text"
    else "div"
  }

  /** The element has an `id` attribute that is not empty. */
  predicate HasOwnId(t: Tag)
    ensures HasOwnId(t) ==> StrAttr(t, "id").Some?
  {
    match StrAttr(t, "id")
    case Some(v) => v != ""
    case None => false
  }

  /** The id an element receives when the counter stands at `n`. */
  function ElementId(t: Tag, n: nat): (r: string)
    ensures HasOwnId(t) ==> Some(r) == StrAttr(t, "id")
    ensures !HasOwnId(t) ==> r == DetermineType(t) + "-" + NatToString(n)
  {
    if HasOwnId(t) then StrAttr(t, "id").value
    else DetermineType(t) + "-" + NatToString(n)
  }

  /** The declarations of the inline `style` attribute; none when it is
      absent or empty, or when the parser rejects it. */
  function InlineDecls(t: Tag, parseStyle: string -> Option<Declarations>): (r: Declarations)
    ensures r != [] ==> exists s :: StrAttr(t, "style") == Some(s) && s != "" && parseStyle(s) == Some(r)
  {
    match StrAttr(t, "style")
    case None => []
    case Some(s) =>
      if s == "" then []
      else match parseStyle(s)
        case None => []
        case Some(decls) => decls
  }

  /** Inline declarations are assigned after the cascade, so they override
      any style sheet value for the same property. */
  function ApplyInline(cascaded: Dict<string>, t: Tag, parseStyle: string -> Option<Declarations>): (r: Dict<string>)
    ensures forall k :: LastValue(CamelDecls(InlineDecls(t, parseStyle)), k).Some? ==>
      Get(r, k) == LastValue(CamelDecls(InlineDecls(t, parseStyle)), k)
    ensures forall k :: LastValue(CamelDecls(InlineDecls(t, parseStyle)), k).None? ==> Get(r, k) == Get(cascaded, k)
  {
    PutAll(cascaded, CamelDecls(InlineDecls(t, parseStyle)))
  }

  /** A reference is local when it is neither a web address nor a data URL. */
  predicate IsLocalRef(s: string)
  {
    s != "" && !StartsWith(s, "http") && !StartsWith(s, "data:")
  }

  /** The data URL that replaces an image's `src`: for an `img` component
      with a local `src` whose file can be read. */
  function InlinedSrc(t: Tag, ctype: string, encodeFile: string -> Option<string>): (r: Option<string>)
    ensures r.Some? ==> ctype == "img" && StrAttr(t, "src").Some? && IsLocalRef(StrAttr(t, "src").value)
    ensures r.Some? ==>
      encodeFile(StrAttr(t, "src").value).Some?
      && r.value == "data:image/png;base64," + encodeFile(StrAttr(t, "src").value).value
  {
    if ctype != "img" then None
    else match StrAttr(t, "src")
      case None => None
      case Some(src) =>
        if !IsLocalRef(src) then None
        else match encodeFile(src)
          case None => None
          case Some(b64) => Some("data:image/png;base64," + b64)
  }

  /** `element['src'] = data URL` for an image: the attribute keeps its
      place, and no other attribute changes. */
  function RewriteImgSrc(t: Tag, ctype: string, encodeFile: string -> Option<string>): (r: Tag)
    ensures r.name == t.name
    ensures forall k :: k != "src" ==> Get(r.attrs, k) == Get(t.attrs, k)
    ensures InlinedSrc(t, ctype, encodeFile).Some? ==> Get(r.attrs, "src") == Some(Str(InlinedSrc(t, ctype, encodeFile).value))
    ensures InlinedSrc(t, ctype, encodeFile).None? ==> r == t
  {
    match InlinedSrc(t, ctype, encodeFile)
    case None => t
    case Some(u) => Tag(t.name, Put(t.attrs, "src", Str(u)))
  }

  /** The position just after the first `)` at or after `k`, when one comes
      before the end of the line: where the lazy `(.*?)\)` stops. */
  function CloseParen(s: string, k: nat): (r: Option<nat>)
    requires k <= |s|
    ensures r.Some? ==> k <= r.value < |s| && s[r.value] == ')'
    ensures r.Some? ==> forall m :: k <= m < r.value ==> s[m] != ')' && s[m] != '\n'
    decreases |s| - k
  {
    if k == |s| || s[k] == '\n' then None
    else if s[k] == ')' then Some(k)
    else CloseParen(s, k + 1)
  }

  /** `re.search(r'url\((.*?)\)', s).group(1)`, searching from `i`. */
  function UrlGroupFrom(s: string, i: nat): (r: Option<string>)
    requires i <= |s|
    decreases |s| - i
  {
    if i + 4 > |s| then None
    else if s[i..i + 4] == "url(" then
      match CloseParen(s, i + 4)
      case Some(j) => Some(s[i + 4..j])
      case None => UrlGroupFrom(s, i + 1)
    else UrlGroupFrom(s, i + 1)
  }

  /** The text between `url(` and the next `)` of the first such pair on
      one line. */
  function UrlGroup(s: string): (r: Option<string>)
    ensures r.Some? ==> ')' !in r.value && '\n' !in r.value && Contains(s, "url(" + r.value + ")")
  {
    var r := UrlGroupFrom(s, 0);
    if r.Some? then UrlGroupFound(s, 0); r else r
  }

  lemma {:induction false} UrlGroupFound(s: string, i: nat)
    requires i <= |s| && UrlGroupFrom(s, i).Some?
    ensures var g := UrlGroupFrom(s, i).value; ')' !in g && '\n' !in g && Contains(s, "url(" + g + ")")
    decreases |s| - i
  {
    if s[i..i + 4] == "url(" && CloseParen(s, i + 4).Some? {
      var g := UrlGroupFrom(s, i).value;
      var j := CloseParen(s, i + 4).value;
      assert s[i..j + 1] == "url(" + g + ")";
      assert OccursAt(s, "url(" + g + ")", i);
    } else {
      UrlGroupFound(s, i + 1);
    }
  }

  predicate IsQuoteChar(c: char) { c == '\'' || c == '"' }

  /** `s.strip('\'"')` */
  function StripQuotes(s: string): (r: string)
    ensures r != [] ==> !IsQuoteChar(r[0]) && !IsQuoteChar(r[|r| - 1])
    ensures forall c :: c in r ==> c in s
    decreases |s|
  {
    if s == [] then s
    else if IsQuoteChar(s[0]) then StripQuotes(s[1..])
    else if IsQuoteChar(s[|s| - 1]) then StripQuotes(s[..|s| - 1])
    else s
  }

  /** A local `url(...)` in `backgroundImage` whose file can be read is
      replaced by an inline data URL; nothing else changes. */
  function InlineBackground(style: Dict<string>, encodeFile: string -> Option<string>): (r: Dict<string>)
    ensures forall k :: k != "backgroundImage" ==> Get(r, k) == Get(style, k)
    ensures r != style ==>
      var bg := GetOr(style, "backgroundImage", "");
      Contains(bg, "url(") && UrlGroup(bg).Some? && IsLocalRef(StripQuotes(UrlGroup(bg).value))
      && encodeFile(StripQuotes(UrlGroup(bg).value)).Some?
      && Get(r, "backgroundImage") == Some("url('data:image/png;base64," + encodeFile(StripQuotes(UrlGroup(bg).value)).value + "')")
  {
    var bg := GetOr(style, "backgroundImage", "");
    if !Find(bg, "url(") then style
    else match UrlGroup(bg)
      case None => style
      case Some(g) =>
        var url := StripQuotes(g);
        if !IsLocalRef(url) then style
        else match encodeFile(url)
          case None => style
          case Some(b64) => Put(style, "backgroundImage", "url('data:image/png;base64," + b64 + "')")
  }

  /** The attributes a component keeps: all but `id` and `style`, compared
      without regard to case. */
  function CopiedAttributes(attrs: Dict<AttrValue>): (r: Dict<AttrValue>)
    ensures forall i :: 0 <= i < |r| ==> Lower(r[i].0) != "id" && Lower(r[i].0) != "style" && r[i] in attrs
    ensures forall i :: 0 <= i < |attrs| && Lower(attrs[i].0) != "id" && Lower(attrs[i].0) != "style" ==> attrs[i] in r
  {
    if attrs == [] then []
    else
      var rest := CopiedAttributes(attrs[1..]);
      assert forall i :: 1 <= i < |attrs| ==> attrs[i] == attrs[1..][i - 1];
      if Lower(attrs[0].0) == "id" || Lower(attrs[0].0) == "style" then rest else [attrs[0]] + rest
  }

  /** `_parse_html_element` on an element with its ancestors (nearest
      first), the counter standing at `next`: the component and the counter
      afterwards. A selector that makes the matching raise aborts it. */
  function ParseElement(env: Env, t: Tag, kids: seq<Node>, anc: seq<Tag>, next: nat): Result<(Comp, nat)>
    decreases kids, 1
  {
    var ctype := DetermineType(t);
    var id := ElementId(t, next);
    var afterId := if HasOwnId(t) then next else next + 1;
    match env.styles(t, anc)
    case Err(m) => Err(m)
    case Ok(cascaded) =>
      var styled := ApplyInline(cascaded, t, env.parseStyle);
      var t' := RewriteImgSrc(t, ctype, env.encodeFile);
      var style := InlineBackground(styled, env.encodeFile);
      match ParseContents(env, kids, [t'] + anc, afterId)
      case Err(m) => Err(m)
      case Ok((children, texts, after)) =>
        Ok((Comp(id, ctype, t.name, id, style, Join(texts, " "), CopiedAttributes(t'.attrs), children, NoInteraction), after))
  }

  /** The loop over an element's contents: the child components, the
      non-blank text runs (stripped), and the counter afterwards. */
  function ParseContents(env: Env, cs: seq<Node>, anc: seq<Tag>, next: nat): Result<(seq<Comp>, seq<string>, nat)>
    decreases cs, 0
  {
    if cs == [] then Ok(([], [], next))
    else
      var here: Result<(seq<Comp>, seq<string>, nat)> :=
        match cs[0]
        case Text(s) => Ok(([], if Strip(s) != [] then [Strip(s)] else [], next))
        case Element(t, kids) =>
          if t.name == "" then Ok(([], [], next))
          else match ParseElement(env, t, kids, anc, next)
            case Err(m) => Err(m)
            case Ok((c, after)) => Ok(([c], [], after));
      match here
      case Err(m) => Err(m)
      case Ok((c1, t1, n1)) =>
        match ParseContents(env, cs[1..], anc, n1)
        case Err(m) => Err(m)
        case Ok((c2, t2, n2)) => Ok((c1 + c2, t1 + t2, n2))
  }

  /** The number of ids the counter hands out while parsing `cs`: one per
      element without an `id` of its own, parents before children. */
  function SynthCount(cs: seq<Node>): nat
    decreases cs
  {
    if cs == [] then 0
    else
      var here := match cs[0]
        case Text(_) => 0
        case Element(t, kids) => if t.name == "" then 0 else (if HasOwnId(t) then 0 else 1) + SynthCount(kids);
      here + SynthCount(cs[1..])
  }

  lemma {:induction false} SynthCountAppend(a: seq<Node>, b: seq<Node>)
    ensures SynthCount(a + b) == SynthCount(a) + SynthCount(b)
  {
    if a == [] {
      assert a + b == b;
    } else {
      assert (a + b)[1..] == a[1..] + b;
      SynthCountAppend(a[1..], b);
    }
  }

  /** The element children that become components, in document order. */
  function Named(cs: seq<Node>): (r: seq<Node>)
    ensures forall i :: 0 <= i < |r| ==> r[i].Element? && r[i].tag.name != ""
  {
    if cs == [] then []
    else
      var rest := Named(cs[1..]);
      if cs[0].Element? && cs[0].tag.name != "" then [cs[0]] + rest else rest
  }

  /** The stripped, non-blank string children, in document order. */
  function DirectTexts(cs: seq<Node>): (r: seq<string>)
    ensures forall i :: 0 <= i < |r| ==> StrippedRun(r[i])
  {
    if cs == [] then []
    else
      var rest := DirectTexts(cs[1..]);
      match cs[0]
      case Text(s) => if Strip(s) != [] then [Strip(s)] + rest else rest
      case Element(_, _) => rest
  }

  /** An element's id is its own non-empty `id`, or `type-n` with `n` the
      counter when it is reached; the counter then advances once for every
      element of its subtree that had no id of its own. */
  lemma {:induction false} ElementIds(env: Env, t: Tag, kids: seq<Node>, anc: seq<Tag>, next: nat)
    ensures ParseElement(env, t, kids, anc, next).Ok? ==>
      var (c, after) := ParseElement(env, t, kids, anc, next).value;
      c.id == ElementId(t, next) && c.name == c.id && c.ctype == DetermineType(t) && c.tag == t.name
      && after == next + (if HasOwnId(t) then 0 else 1) + SynthCount(kids)
    decreases kids, 1
  {
    var afterId := if HasOwnId(t) then next else next + 1;
    match env.styles(t, anc)
    case Err(_) =>
    case Ok(_) =>
      var t' := RewriteImgSrc(t, DetermineType(t), env.encodeFile);
      ContentCounter(env, kids, [t'] + anc, afterId);
  }

  lemma {:induction false} NamedSynthCount(cs: seq<Node>)
    ensures SynthCount(Named(cs)) == SynthCount(cs)
  {
    if cs != [] {
      NamedSynthCount(cs[1..]);
      if cs[0].Element? && cs[0].tag.name != "" {
        assert ([cs[0]] + Named(cs[1..]))[1..] == Named(cs[1..]);
      }
    }
  }

  /** Parsing the contents advances the counter by the number of ids
      synthesised below them. */
  lemma {:induction false} ContentCounter(env: Env, cs: seq<Node>, anc: seq<Tag>, next: nat)
    ensures ParseContents(env, cs, anc, next).Ok? ==> ParseContents(env, cs, anc, next).value.2 == next + SynthCount(cs)
    decreases cs, 0
  {
    if cs != [] {
      match cs[0]
      case Text(s) =>
        ContentCounter(env, cs[1..], anc, next);
      case Element(t, kids) =>
        if t.name == "" {
          ContentCounter(env, cs[1..], anc, next);
        } else {
          ElementIds(env, t, kids, anc, next);
          var r0 := ParseElement(env, t, kids, anc, next);
          if r0.Ok? {
            ContentCounter(env, cs[1..], anc, r0.value.1);
          }
        }
    }
  }

  /** The text of a component is made of its stripped, non-blank string
      children. */
  lemma {:induction false} ContentTexts(env: Env, cs: seq<Node>, anc: seq<Tag>, next: nat)
    ensures ParseContents(env, cs, anc, next).Ok? ==> ParseContents(env, cs, anc, next).value.1 == DirectTexts(cs)
  {
    if cs != [] {
      match cs[0]
      case Text(s) =>
        ContentTexts(env, cs[1..], anc, next);
      case Element(t, kids) =>
        if t.name == "" {
          ContentTexts(env, cs[1..], anc, next);
        } else {
          var r0 := ParseElement(env, t, kids, anc, next);
          if r0.Ok? {
            ContentTexts(env, cs[1..], anc, r0.value.1);
          }
        }
    }
  }

  /** The `i`-th component comes from the `i`-th named child and has the id
      that child gets with the counter advanced by the ids synthesised
      before it. */
  predicate ChildAt(named: seq<Node>, next: nat, comps: seq<Comp>, i: nat)
    requires i < |named| && i < |comps| && named[i].Element?
  {
    comps[i].tag == named[i].tag.name
    && comps[i].id == ElementId(named[i].tag, next + SynthCount(named[..i]))
  }

  lemma SkipUnnamed(env: Env, cs: seq<Node>, anc: seq<Tag>, next: nat)
    requires cs != [] && (cs[0].Text? || cs[0].tag.name == "")
    ensures Named(cs) == Named(cs[1..])
    ensures ParseContents(env, cs, anc, next).Ok? ==>
      ParseContents(env, cs[1..], anc, next).Ok?
      && ParseContents(env, cs, anc, next).value.0 == ParseContents(env, cs[1..], anc, next).value.0
  {
    var rest := ParseContents(env, cs[1..], anc, next);
    if rest.Ok? {
      assert [] + rest.value.0 == rest.value.0;
    }
  }

  /** The counter value the `i`-th named child finds, seen from the second
      child on. */
  lemma StartAfterFirst(cs: seq<Node>, i: nat, next: nat)
    requires cs != [] && cs[0].Element? && cs[0].tag.name != ""
    requires 0 < i <= |Named(cs)|
    ensures Named(cs)[1..] == Named(cs[1..])
    ensures next + SynthCount(Named(cs)[..i]) == next + SynthCount([cs[0]]) + SynthCount(Named(cs[1..])[..i - 1])
  {
    var rest := Named(cs[1..]);
    assert Named(cs) == [cs[0]] + rest;
    assert Named(cs)[..i] == [cs[0]] + rest[..i - 1];
    SynthCountAppend([cs[0]], rest[..i - 1]);
  }

  /** Children come in document order and the counter runs through them in
      order: the `i`-th child component is the `i`-th named element child
      parsed with the counter advanced by all earlier siblings' subtrees,
      so each child's range of ids lies inside its parent's. */
  lemma {:induction false} ContentChildren(env: Env, cs: seq<Node>, anc: seq<Tag>, next: nat)
    ensures ParseContents(env, cs, anc, next).Ok? ==>
      var comps := ParseContents(env, cs, anc, next).value.0;
      |comps| == |Named(cs)|
      && forall i :: 0 <= i < |comps| ==> ChildAt(Named(cs), next, comps, i)
    decreases cs, 1
  {
    if cs != [] && ParseContents(env, cs, anc, next).Ok? {
      if cs[0].Text? || cs[0].tag.name == "" {
        SkipUnnamed(env, cs, anc, next);
        ContentChildren(env, cs[1..], anc, next);
      } else {
        ChildrenAfterFirst(env, cs, anc, next);
      }
    }
  }

  lemma {:induction false} ChildrenAfterFirst(env: Env, cs: seq<Node>, anc: seq<Tag>, next: nat)
    requires cs != [] && cs[0].Element? && cs[0].tag.name != ""
    requires ParseContents(env, cs, anc, next).Ok?
    ensures
      var comps := ParseContents(env, cs, anc, next).value.0;
      |comps| == |Named(cs)|
      && forall i :: 0 <= i < |comps| ==> ChildAt(Named(cs), next, comps, i)
    decreases cs, 0
  {
    var t := cs[0].tag;
    var kids := cs[0].contents;
    ElementIds(env, t, kids, anc, next);
    var r0 := ParseElement(env, t, kids, anc, next);
    var n1 := r0.value.1;
    FirstNamedParse(env, cs, anc, next);
    ContentChildren(env, cs[1..], anc, n1);
    assert SynthCount([cs[0]]) == n1 - next by {
      assert [cs[0]][1..] == [];
    }
    ChildrenShift(cs, next, n1, r0.value.0, ParseContents(env, cs[1..], anc, n1).value.0);
  }

  lemma FirstNamedParse(env: Env, cs: seq<Node>, anc: seq<Tag>, next: nat)
    requires cs != [] && cs[0].Element? && cs[0].tag.name != ""
    requires ParseContents(env, cs, anc, next).Ok?
    ensures ParseElement(env, cs[0].tag, cs[0].contents, anc, next).Ok?
    ensures
      var n1 := ParseElement(env, cs[0].tag, cs[0].contents, anc, next).value.1;
      ParseContents(env, cs[1..], anc, n1).Ok?
      && ParseContents(env, cs, anc, next).value.0
         == [ParseElement(env, cs[0].tag, cs[0].contents, anc, next).value.0] + ParseContents(env, cs[1..], anc, n1).value.0
  {
  }

  lemma ChildrenShift(cs: seq<Node>, next: nat, n1: nat, c0: Comp, tail: seq<Comp>)
    requires cs != [] && cs[0].Element? && cs[0].tag.name != ""
    requires c0.id == ElementId(cs[0].tag, next) && c0.tag == cs[0].tag.name
    requires n1 == next + SynthCount([cs[0]])
    requires |tail| == |Named(cs[1..])|
    requires forall i :: 0 <= i < |tail| ==> ChildAt(Named(cs[1..]), n1, tail, i)
    ensures |[c0] + tail| == |Named(cs)|
    ensures forall i :: 0 <= i < |tail| + 1 ==> ChildAt(Named(cs), next, [c0] + tail, i)
  {
    var named := Named(cs);
    var comps := [c0] + tail;
    assert named == [cs[0]] + Named(cs[1..]);
    forall i | 0 <= i < |comps|
      ensures ChildAt(named, next, comps, i)
    {
      if i == 0 {
        assert named[..0] == [];
      } else {
        StartAfterFirst(cs, i, next);
        assert named[i] == Named(cs[1..])[i - 1];
        assert comps[i] == tail[i - 1];
        assert ChildAt(Named(cs[1..]), n1, tail, i - 1);
      }
    }
  }

  /** `get_next_id` over the counter `_next_id_counter`. */
  class IdCounter {
    var next: nat

    constructor (start: nat)
      ensures next == start
    {
      next := start;
    }

    method Take() returns (n: nat)
      modifies this
      ensures n == old(next) && next == old(next) + 1
    {
      n := next;
      next := next + 1;
    }
  }

  /** Put the children and text runs gathered so far in front of the result
      for the remaining contents. */
  function Combine(children: seq<Comp>, texts: seq<string>, r: Result<(seq<Comp>, seq<string>, nat)>): Result<(seq<Comp>, seq<string>, nat)>
  {
    match r
    case Err(m) => Err(m)
    case Ok((c, t, n)) => Ok((children + c, texts + t, n))
  }

  lemma CombineAssoc(ch: seq<Comp>, tx: seq<string>, c1: seq<Comp>, t1: seq<string>, r: Result<(seq<Comp>, seq<string>, nat)>)
    ensures Combine(ch, tx, Combine(c1, t1, r)) == Combine(ch + c1, tx + t1, r)
  {
    match r {
      case Err(_) =>
      case Ok((c, t, n)) =>
        assert ch + (c1 + c) == (ch + c1) + c;
        assert tx + (t1 + t) == (tx + t1) + t;
    }
  }

  lemma CombineEmpty(r: Result<(seq<Comp>, seq<string>, nat)>)
    ensures Combine([], [], r) == r
  {
    match r {
      case Err(_) =>
      case Ok((c, t, n)) =>
        assert [] + c == c && [] + t == t;
    }
  }

  /** `_parse_html_element` as the source runs it: the counter is an object
      whose `Take` is `get_next_id`, and the cascade is the
      `_compute_styles` loop. */
  method ParseHtmlElement(env: Env, sheet: seq<Rule>, t: Tag, kids: seq<Node>, anc: seq<Tag>, counter: IdCounter) returns (r: Result<Comp>)
    requires forall e, a :: env.styles(e, a) == ComputedStyles(e, a, sheet)
    modifies counter
    ensures ParseElement(env, t, kids, anc, old(counter.next)).Err? ==> r == Err(ParseElement(env, t, kids, anc, old(counter.next)).msg)
    ensures ParseElement(env, t, kids, anc, old(counter.next)).Ok? ==>
      r == Ok(ParseElement(env, t, kids, anc, old(counter.next)).value.0)
      && counter.next == ParseElement(env, t, kids, anc, old(counter.next)).value.1
    decreases kids, 1
  {
    var ctype := DetermineType(t);
    var id: string;
    if HasOwnId(t) {
      id := StrAttr(t, "id").value;
    } else {
      var n := counter.Take();
      id := ctype + "-" + NatToString(n);
    }
    var computed := ComputeStyles(t, anc, sheet);
    if computed.Err? {
      return Err(computed.msg);
    }
    var style := ApplyDecls(computed.value, InlineDecls(t, env.parseStyle));
    var element := RewriteImgSrc(t, ctype, env.encodeFile);
    style := InlineBackground(style, env.encodeFile);
    var contents := ParseHtmlContents(env, sheet, kids, [element] + anc, counter);
    if contents.Err? {
      return Err(contents.msg);
    }
    var (children, texts) := contents.value;
    r := Ok(Comp(id, ctype, t.name, id, style, Join(texts, " "), CopiedAttributes(element.attrs), children, NoInteraction));
  }

  /** The loop of `_parse_html_element` over the element's contents, which
      appends to the children and to the direct text. */
  method ParseHtmlContents(env: Env, sheet: seq<Rule>, kids: seq<Node>, inner: seq<Tag>, counter: IdCounter) returns (r: Result<(seq<Comp>, seq<string>)>)
    requires forall e, a :: env.styles(e, a) == ComputedStyles(e, a, sheet)
    modifies counter
    ensures ParseContents(env, kids, inner, old(counter.next)).Err? ==> r == Err(ParseContents(env, kids, inner, old(counter.next)).msg)
    ensures ParseContents(env, kids, inner, old(counter.next)).Ok? ==>
      var (c, t, n) := ParseContents(env, kids, inner, old(counter.next)).value;
      r == Ok((c, t)) && counter.next == n
    decreases kids, 0
  {
    ghost var start := counter.next;
    var children: seq<Comp> := [];
    var texts: seq<string> := [];
    assert kids[0..] == kids;
    CombineEmpty(ParseContents(env, kids, inner, start));
    var i := 0;
    while i < |kids|
      invariant 0 <= i <= |kids|
      invariant ParseContents(env, kids, inner, start) == Combine(children, texts, ParseContents(env, kids[i..], inner, counter.next))
    {
      var kid := kids[i];
      if kid.Text? {
        var run: seq<string> := if Strip(kid.s) != [] then [Strip(kid.s)] else [];
        TextStep(env, kids, inner, i, counter.next, children, texts);
        texts := texts + run;
      } else if kid.tag.name != "" {
        ghost var at := counter.next;
        var c := ParseHtmlElement(env, sheet, kid.tag, kid.contents, inner, counter);
        if c.Err? {
          ElementFails(env, kids, inner, i, at, children, texts);
          return Err(c.msg);
        }
        ElementStep(env, kids, inner, i, at, children, texts);
        children := children + [c.value];
      } else {
        UnnamedStep(env, kids, inner, i, counter.next, children, texts);
      }
      i := i + 1;
    }
    ContentsDone(env, kids, inner, counter.next, children, texts);
    r := Ok((children, texts));
  }

  /** A string node adds its stripped text when that is not empty. */
  lemma TextStep(env: Env, kids: seq<Node>, inner: seq<Tag>, i: nat, next: nat, ch: seq<Comp>, tx: seq<string>)
    requires i < |kids| && kids[i].Text?
    ensures Combine(ch, tx, ParseContents(env, kids[i..], inner, next))
      == Combine(ch, tx + (if Strip(kids[i].s) != [] then [Strip(kids[i].s)] else []), ParseContents(env, kids[i + 1..], inner, next))
  {
    assert kids[i..][0] == kids[i] && kids[i..][1..] == kids[i + 1..];
    var run := if Strip(kids[i].s) != [] then [Strip(kids[i].s)] else [];
    CombineAssoc(ch, tx, [], run, ParseContents(env, kids[i + 1..], inner, next));
    assert ch + [] == ch;
  }

  /** An element without a name adds nothing. */
  lemma UnnamedStep(env: Env, kids: seq<Node>, inner: seq<Tag>, i: nat, next: nat, ch: seq<Comp>, tx: seq<string>)
    requires i < |kids| && kids[i].Element? && kids[i].tag.name == ""
    ensures Combine(ch, tx, ParseContents(env, kids[i..], inner, next)) == Combine(ch, tx, ParseContents(env, kids[i + 1..], inner, next))
  {
    assert kids[i..][0] == kids[i] && kids[i..][1..] == kids[i + 1..];
    CombineAssoc(ch, tx, [], [], ParseContents(env, kids[i + 1..], inner, next));
    assert ch + [] == ch && tx + [] == tx;
  }

  /** A named element adds its component; the nodes after it start where
      its draws end. */
  lemma ElementStep(env: Env, kids: seq<Node>, inner: seq<Tag>, i: nat, next: nat, ch: seq<Comp>, tx: seq<string>)
    requires i < |kids| && kids[i].Element? && kids[i].tag.name != ""
    requires ParseElement(env, kids[i].tag, kids[i].contents, inner, next).Ok?
    ensures var (c, after) := ParseElement(env, kids[i].tag, kids[i].contents, inner, next).value;
      Combine(ch, tx, ParseContents(env, kids[i..], inner, next)) == Combine(ch + [c], tx, ParseContents(env, kids[i + 1..], inner, after))
  {
    var (c, after) := ParseElement(env, kids[i].tag, kids[i].contents, inner, next).value;
    assert kids[i..][0] == kids[i] && kids[i..][1..] == kids[i + 1..];
    CombineAssoc(ch, tx, [c], [], ParseContents(env, kids[i + 1..], inner, after));
    assert tx + [] == tx;
  }

  /** A named element whose matching raises ends the loop with the exception. */
  lemma ElementFails(env: Env, kids: seq<Node>, inner: seq<Tag>, i: nat, next: nat, ch: seq<Comp>, tx: seq<string>)
    requires i < |kids| && kids[i].Element? && kids[i].tag.name != ""
    requires ParseElement(env, kids[i].tag, kids[i].contents, inner, next).Err?
    ensures Combine(ch, tx, ParseContents(env, kids[i..], inner, next)) == Err(ParseElement(env, kids[i].tag, kids[i].contents, inner, next).msg)
  {
    assert kids[i..][0] == kids[i];
  }

  lemma ContentsDone(env: Env, kids: seq<Node>, inner: seq<Tag>, next: nat, ch: seq<Comp>, tx: seq<string>)
    ensures Combine(ch, tx, ParseContents(env, kids[|kids|..], inner, next)) == Ok((ch, tx, next))
  {
    assert kids[|kids|..] == [];
    assert ch + [] == ch && tx + [] == tx;
  }

  /** Everything `parse_html_to_project` reads from outside: text files
      (style sheets and scripts, by their `href`/`src`), the style sheet
      parser, the inline style parser and image files as base64. */
  datatype Sources = Sources(
    readText: string -> ReadResult,
    parseSheet: string -> seq<Rule>,
    parseStyle: string -> Option<Declarations>,
    encodeFile: string -> Option<string>)

  /** The parsed document itself, the last ancestor of every element. */
  const DocumentTag := Tag("[document]", [])

  /** `find_all('link', rel='stylesheet')` keeps a link whose `rel` is the
      word `stylesheet`, or has it among its tokens. */
  predicate IsStylesheetLink(n: Node)
  {
    n.Element? && n.tag.name == "link" &&
    match GetAttr(n.tag, "rel")
    case None => false
    case Some(v) => v == Str("stylesheet") || (v.Tokens? && ("stylesheet" in v.items || Join(v.items, " ") == "stylesheet"))
  }

  /** The text a file read contributes: its contents and a line break; a
      missing file contributes nothing; any other failure propagates. */
  function FileText(r: ReadResult): Result<string>
  {
    match r
    case Content(text) => Ok(text + "\n")
    case NotFound => Ok("")
    case Failed(m) => Err(m)
  }

  /** What one `link` element adds to the style sheet text. */
  function LinkCss(n: Node, readText: string -> ReadResult): Result<string>
  {
    if !IsStylesheetLink(n) then Ok("")
    else match StrAttr(n.tag, "href")
      case Some(href) =>
        if href != "" && !StartsWith(href, "http") then FileText(readText(href)) else Ok("")
      case None => Ok("")
  }

  /** What one `script` element adds to the global script: a local file's
      contents, or else its own text. */
  function ScriptJs(n: Node, readText: string -> ReadResult): Result<string>
  {
    match n
    case Element(t, _) =>
      (match StrAttr(t, "src")
       case Some(src) =>
         if src != "" && !StartsWith(src, "http") then FileText(readText(src))
         else InlineScript(n)
       case None => InlineScript(n))
    case Text(_) => InlineScript(n)
  }

  function InlineScript(n: Node): Result<string>
  {
    match StringOf(n)
    case Some(text) => if text != "" then Ok(text + "\n") else Ok("")
    case None => Ok("")
  }

  function LinkPart(readText: string -> ReadResult): Node -> Result<string>
  {
    n => LinkCss(n, readText)
  }

  function ScriptPart(readText: string -> ReadResult): Node -> Result<string>
  {
    n => ScriptJs(n, readText)
  }

  /** One contribution per node, in order. */
  function Parts(items: seq<Node>, part: Node -> Result<string>): (r: seq<Result<string>>)
    ensures |r| == |items| && forall i :: 0 <= i < |items| ==> r[i] == part(items[i])
  {
    seq(|items|, i requires 0 <= i < |items| => part(items[i]))
  }

  /** The texts in order, or the first failure. */
  function Accumulate(parts: seq<Result<string>>): (r: Result<string>)
    ensures r.Err? <==> exists i :: 0 <= i < |parts| && parts[i].Err?
  {
    if parts == [] then Ok("")
    else match parts[0]
      case Err(m) => Err(m)
      case Ok(here) =>
        match Accumulate(parts[1..])
        case Err(m) =>
          assert exists i :: 0 <= i < |parts| && parts[i].Err? by {
            var i :| 0 <= i < |parts[1..]| && parts[1..][i].Err?;
            assert parts[i + 1].Err?;
          }
          Err(m)
        case Ok(rest) =>
          assert forall i :: 1 <= i < |parts| ==> parts[i] == parts[1..][i - 1];
          Ok(here + rest)
  }

  /** `prefix` put before a text, a failure left as it is. */
  function Prefixed(prefix: string, r: Result<string>): Result<string>
  {
    match r
    case Ok(s) => Ok(prefix + s)
    case Err(m) => Err(m)
  }

  lemma PrefixedEmpty(r: Result<string>)
    ensures Prefixed("", r) == r
  {
    match r
    case Ok(s) => assert "" + s == s;
    case Err(_) =>
  }

  lemma AccumulateStep(parts: seq<Result<string>>, i: nat, prefix: string)
    requires i < |parts| && parts[i].Ok?
    ensures Prefixed(prefix, Accumulate(parts[i..])) == Prefixed(prefix + parts[i].value, Accumulate(parts[i + 1..]))
  {
    assert parts[i..][1..] == parts[i + 1..];
    match Accumulate(parts[i + 1..])
    case Ok(s) => assert prefix + (parts[i].value + s) == (prefix + parts[i].value) + s;
    case Err(_) =>
  }

  /** The loop that reads the contributions one node at a time and stops at
      the first failure. */
  method Gather(items: seq<Node>, part: Node -> Result<string>) returns (r: Result<string>)
    ensures r == Accumulate(Parts(items, part))
  {
    ghost var parts := Parts(items, part);
    var text := "";
    var i := 0;
    assert parts[0..] == parts;
    PrefixedEmpty(Accumulate(parts));
    while i < |items|
      invariant 0 <= i <= |items|
      invariant Accumulate(parts) == Prefixed(text, Accumulate(parts[i..]))
    {
      assert parts[i..][1..] == parts[i + 1..];
      var here := part(items[i]);
      if here.Err? {
        return Err(here.msg);
      }
      AccumulateStep(parts, i, text);
      text := text + here.value;
      i := i + 1;
    }
    assert parts[i..] == [];
    assert text + "" == text;
    r := Ok(text);
  }

  /** `style_tag.string or ''` */
  function StyleOf(n: Node): string
  {
    match StringOf(n)
    case Some(text) => text
    case None => ""
  }

  /** The texts of the `style` elements, concatenated. */
  function StyleText(styles: seq<Node>): string
  {
    if styles == [] then "" else StyleOf(styles[0]) + StyleText(styles[1..])
  }

  /** The global CSS text: every local style sheet linked from the head,
      then the text of every `style` element in the head. */
  function HeadCss(doc: seq<Node>, readText: string -> ReadResult): Result<string>
  {
    match FindFirst(doc, "head", [DocumentTag])
    case None => Ok("")
    case Some((head, _)) =>
      match Accumulate(Parts(FindAll(head.contents, "link"), LinkPart(readText)))
      case Err(m) => Err(m)
      case Ok(linked) => Ok(linked + StyleText(FindAll(head.contents, "style")))
  }

  /** The global script text, one entry per `script` element in document
      order. */
  function ScriptsJs(doc: seq<Node>, readText: string -> ReadResult): Result<string>
  {
    Accumulate(Parts(FindAll(doc, "script"), ScriptPart(readText)))
  }

  /** The element parser's environment once the style sheet is known. */
  function ByCascade(sheet: seq<Rule>, src: Sources): (env: Env)
    ensures forall e, a :: env.styles(e, a) == ComputedStyles(e, a, sheet)
  {
    Env((e: Tag, a: seq<Tag>) => ComputedStyles(e, a, sheet), src.parseStyle, src.encodeFile)
  }

  /** `parse_html_to_project` on the parsed document's top-level nodes: the
      body, with the scripts removed, becomes the single root component,
      and the counter starts at 1. */
  function ParseHtmlToProject(src: Sources, doc: seq<Node>): Result<Project>
  {
    match HeadCss(doc, src.readText)
    case Err(m) => Err(m)
    case Ok(css) =>
      var env := ByCascade(src.parseSheet(css), src);
      match ScriptsJs(doc, src.readText)
      case Err(m) => Err(m)
      case Ok(js) =>
        match FindFirst(RemoveAll(doc, "script"), "body", [DocumentTag])
        case None => Ok(Project([], css, js, [], [], 1))
        case Some((body, anc)) =>
          match ParseElement(env, body.tag, body.contents, anc, 1)
          case Err(m) => Err(m)
          case Ok((root, next)) => Ok(Project([root], css, js, [], [], next))
  }

  /** The project's counter: 1, plus one for every element of the body's
      subtree (the body included) that had no id of its own. The body is
      the only root component; without a body there are none. */
  lemma ProjectNextId(src: Sources, doc: seq<Node>)
    ensures ParseHtmlToProject(src, doc).Ok? ==>
      var p := ParseHtmlToProject(src, doc).value;
      match FindFirst(RemoveAll(doc, "script"), "body", [DocumentTag])
      case None => p.components == [] && p.nextId == 1
      case Some((body, _)) =>
        |p.components| == 1 && p.components[0].tag == "body"
        && p.components[0].id == ElementId(body.tag, 1)
        && p.nextId == 1 + SynthCount([body])
  {
    match HeadCss(doc, src.readText)
    case Err(_) =>
    case Ok(css) =>
      match FindFirst(RemoveAll(doc, "script"), "body", [DocumentTag])
      case None =>
      case Some((body, anc)) =>
        ElementIds(ByCascade(src.parseSheet(css), src), body.tag, body.contents, anc, 1);
        SynthSingle(body);
  }

  lemma SynthSingle(n: Node)
    requires n.Element? && n.tag.name != ""
    ensures SynthCount([n]) == (if HasOwnId(n.tag) then 0 else 1) + SynthCount(n.contents)
  {
    assert [n][1..] == [];
  }

  // The numbering

  /** `a, a + 1, ..., b - 1` */
  function Range(a: nat, b: nat): (r: seq<nat>)
    ensures |r| == if a <= b then b - a else 0
    decreases b - a
  {
    if a >= b then [] else [a] + Range(a + 1, b)
  }

  lemma {:induction false} RangeValues(a: nat, b: nat)
    ensures forall i :: 0 <= i < |Range(a, b)| ==> Range(a, b)[i] == a + i
    decreases b - a
  {
    if a < b {
      RangeValues(a + 1, b);
      assert forall i :: 1 <= i < |Range(a, b)| ==> Range(a, b)[i] == Range(a + 1, b)[i - 1];
    }
  }

  lemma {:induction false} RangeAppend(a: nat, b: nat, c: nat)
    requires a <= b <= c
    ensures Range(a, b) + Range(b, c) == Range(a, c)
    decreases b - a
  {
    if a == b {
      assert [] + Range(b, c) == Range(b, c);
    } else {
      RangeAppend(a + 1, b, c);
      assert [a] + Range(a + 1, b) + Range(b, c) == [a] + (Range(a + 1, b) + Range(b, c));
    }
  }

  /** The numbers `get_next_id` hands out while an element is parsed with
      the counter at `next`, in the order it hands them out: the element's
      own when it has no id, then those drawn below it. */
  function DrawnIn(t: Tag, kids: seq<Node>, next: nat): seq<nat>
    decreases kids, 1
  {
    (if HasOwnId(t) then [] else [next]) + DrawnAll(kids, if HasOwnId(t) then next else next + 1)
  }

  /** The numbers handed out over the contents, each named element child
      starting where its older siblings stopped. */
  function DrawnAll(cs: seq<Node>, next: nat): seq<nat>
    decreases cs, 0
  {
    if cs == [] then []
    else
      var here := DrawnNode(cs[0], next);
      here + DrawnAll(cs[1..], next + |here|)
  }

  /** A text node or an unnamed element draws nothing. */
  function DrawnNode(n: Node, next: nat): seq<nat>
    decreases n, 2
  {
    match n
    case Text(_) => []
    case Element(t, kids) => if t.name == "" then [] else DrawnIn(t, kids, next)
  }

  /** An element reached with the counter at `next` draws exactly `next`
      up to the counter it leaves behind (see ElementIds). */
  lemma {:induction false} DrawnInRange(t: Tag, kids: seq<Node>, next: nat)
    ensures DrawnIn(t, kids, next) == Range(next, next + (if HasOwnId(t) then 0 else 1) + SynthCount(kids))
    decreases kids, 1
  {
    var hi := next + (if HasOwnId(t) then 0 else 1) + SynthCount(kids);
    if HasOwnId(t) {
      DrawnAllRange(kids, next);
      assert [] + Range(next, hi) == Range(next, hi);
    } else {
      DrawnAllRange(kids, next + 1);
    }
  }

  lemma {:induction false} DrawnAllRange(cs: seq<Node>, next: nat)
    ensures DrawnAll(cs, next) == Range(next, next + SynthCount(cs))
    decreases cs, 0
  {
    if cs != [] {
      var n0, tail := cs[0], cs[1..];
      var mid := next + SynthCount([n0]);
      var hi := next + SynthCount(cs);
      SynthHead(cs);
      DrawnNodeRange(n0, next);
      DrawnAllRange(tail, mid);
      RangeAppend(next, mid, hi);
      assert DrawnAll(cs, next) == DrawnNode(n0, next) + DrawnAll(tail, mid);
    }
  }

  lemma SynthHead(cs: seq<Node>)
    requires cs != []
    ensures SynthCount(cs) == SynthCount([cs[0]]) + SynthCount(cs[1..])
  {
    assert [cs[0]][1..] == [];
  }

  lemma {:induction false} DrawnNodeRange(n: Node, next: nat)
    ensures DrawnNode(n, next) == Range(next, next + SynthCount([n]))
    decreases n, 2
  {
    match n
    case Text(_) =>
      assert [n][1..] == [];
    case Element(t, kids) =>
      if t.name == "" {
        assert [n][1..] == [];
      } else {
        SynthSingle(n);
        DrawnInRange(t, kids, next);
      }
  }

  /** `parse_html_to_project` hands out 1, 2, ... up to `nextId - 1`, each
      once and in increasing order, parents before children and siblings
      in document order: no two synthesised ids share a number, and the
      project's `nextId` is above every number used. */
  lemma ProjectNumbers(src: Sources, doc: seq<Node>, body: Node, anc: seq<Tag>)
    requires ParseHtmlToProject(src, doc).Ok?
    requires FindFirst(RemoveAll(doc, "script"), "body", [DocumentTag]) == Some((body, anc))
    ensures var nextId := ParseHtmlToProject(src, doc).value.nextId;
      var drawn := DrawnNode(body, 1);
      drawn == Range(1, nextId)
      && forall i, j :: 0 <= i < j < |drawn| ==> 1 <= drawn[i] < drawn[j] < nextId
  {
    ProjectCounter(src, doc, body, anc);
    NodeNumbers(body, 1, ParseHtmlToProject(src, doc).value.nextId);
  }

  /** The counter the project keeps is one above the ids synthesised in
      the body's subtree. */
  lemma ProjectCounter(src: Sources, doc: seq<Node>, body: Node, anc: seq<Tag>)
    requires ParseHtmlToProject(src, doc).Ok?
    requires FindFirst(RemoveAll(doc, "script"), "body", [DocumentTag]) == Some((body, anc))
    ensures ParseHtmlToProject(src, doc).value.nextId == 1 + SynthCount([body])
  {
    ProjectNextId(src, doc);
  }

  /** The numbers a node draws rise strictly and stay below the counter it
      leaves behind. */
  lemma NodeNumbers(n: Node, next: nat, hi: nat)
    requires hi == next + SynthCount([n])
    ensures var drawn := DrawnNode(n, next);
      drawn == Range(next, hi)
      && forall i, j :: 0 <= i < j < |drawn| ==> next <= drawn[i] < drawn[j] < hi
  {
    DrawnNodeRange(n, next);
    RangeValues(next, hi);
  }

  /** Every removed element stays removed: no component of the project has
      the tag `script`. */
  lemma ProjectHasNoScripts(src: Sources, doc: seq<Node>)
    ensures ParseHtmlToProject(src, doc).Ok? ==> NoneTagged(ParseHtmlToProject(src, doc).value.components, "script")
  {
    match HeadCss(doc, src.readText)
    case Err(_) =>
    case Ok(css) =>
      var tree := RemoveAll(doc, "script");
      match FindFirst(tree, "body", [DocumentTag])
      case None =>
      case Some((body, anc)) =>
        FindAllBelow(tree, "script", "body", [DocumentTag]);
        ElementTagsFrom(ByCascade(src.parseSheet(css), src), body.tag, body.contents, anc, 1, "script");
  }

  /** An element not of the given name, with none below it, yields
      components none of which has that tag. */
  lemma {:induction false} ElementTagsFrom(env: Env, t: Tag, kids: seq<Node>, anc: seq<Tag>, next: nat, name: string)
    requires t.name != name && FindAll(kids, name) == []
    ensures ParseElement(env, t, kids, anc, next).Ok? ==> NoneTagged([ParseElement(env, t, kids, anc, next).value.0], name)
    decreases kids, 1
  {
    var afterId := if HasOwnId(t) then next else next + 1;
    match env.styles(t, anc)
    case Err(_) =>
    case Ok(_) =>
      var t' := RewriteImgSrc(t, DetermineType(t), env.encodeFile);
      ContentTagsFrom(env, kids, [t'] + anc, afterId, name);
  }

  lemma {:induction false} ContentTagsFrom(env: Env, cs: seq<Node>, anc: seq<Tag>, next: nat, name: string)
    requires FindAll(cs, name) == []
    ensures ParseContents(env, cs, anc, next).Ok? ==> NoneTagged(ParseContents(env, cs, anc, next).value.0, name)
    decreases cs, 0
  {
    if cs != [] && ParseContents(env, cs, anc, next).Ok? {
      assert FindAll(cs[1..], name) == [];
      var n1 := next;
      var c1: seq<Comp> := [];
      match cs[0] {
        case Text(_) =>
        case Element(t, kids) =>
          if t.name != "" {
            assert t.name != name && FindAll(kids, name) == [];
            ElementTagsFrom(env, t, kids, anc, next, name);
            c1 := [ParseElement(env, t, kids, anc, next).value.0];
            n1 := ParseElement(env, t, kids, anc, next).value.1;
          }
      }
      ContentTagsFrom(env, cs[1..], anc, n1, name);
      NoneTaggedAppend(c1, ParseContents(env, cs[1..], anc, n1).value.0, name);
    }
  }

  /** `parse_html_to_project` as the source runs it: the CSS and the script
      text are accumulated by loops, and the counter is an object that
      starts at 1. */
  method ImportDocument(src: Sources, doc: seq<Node>) returns (r: Result<Project>)
    ensures r == ParseHtmlToProject(src, doc)
  {
    var css := "";
    var head := FindFirst(doc, "head", [DocumentTag]);
    if head.Some? {
      var contents := head.value.0.contents;
      var linked := Gather(FindAll(contents, "link"), LinkPart(src.readText));
      if linked.Err? {
        return Err(linked.msg);
      }
      css := linked.value;
      var styles := FindAll(contents, "style");
      var i := 0;
      assert styles[0..] == styles;
      while i < |styles|
        invariant 0 <= i <= |styles|
        invariant linked.value + StyleText(styles) == css + StyleText(styles[i..])
      {
        assert styles[i..][1..] == styles[i + 1..];
        css := css + StyleOf(styles[i]);
        i := i + 1;
      }
      assert styles[i..] == [];
      assert css + "" == css;
    }
    var sheet := src.parseSheet(css);
    var js := Gather(FindAll(doc, "script"), ScriptPart(src.readText));
    if js.Err? {
      return Err(js.msg);
    }
    var tree := RemoveAll(doc, "script");
    var counter := new IdCounter(1);
    var components: seq<Comp> := [];
    var body := FindFirst(tree, "body", [DocumentTag]);
    if body.Some? {
      var (b, anc) := body.value;
      var root := ParseHtmlElement(ByCascade(sheet, src), sheet, b.tag, b.contents, anc, counter);
      if root.Err? {
        return Err(root.msg);
      }
      components := [root.value];
    }
    r := Ok(Project(components, css, js.value, [], [], counter.next));
  }
}

/** The parsed document as the importers see it: element nodes with their
    attribute dictionaries, and string nodes. Parsing markup into this tree
    is the HTML parser's job and is not modelled; the tree is the input. */
module Dom {
  import opened Wrappers
  import opened Text
  import opened ODict

  /** An attribute value: a string, or a list of tokens for the attributes
      the parser splits on white space (`class`, `rel`, ...). */
  datatype AttrValue = Str(s: string) | Tokens(items: seq<string>)

  datatype Tag = Tag(name: string, attrs: Dict<AttrValue>)

  /** An element, or a string node (text, and also comments, which are
      string nodes too). */
  datatype Node = Element(tag: Tag, contents: seq<Node>) | Text(s: string)

  /** The attributes the parser stores as token lists. */
  const MultiValued: seq<string> := ["class", "rel", "rev", "accept-charset", "headers", "accesskey", "dropzone"]

  /** What the parser guarantees: only multi-valued attributes hold token lists. */
  predicate TagOk(t: Tag)
  {
    forall i :: 0 <= i < |t.attrs| && t.attrs[i].1.Tokens? ==> t.attrs[i].0 in MultiValued
  }

  /** `tag.get(k)` */
  function GetAttr(t: Tag, k: string): (r: Option<AttrValue>)
    ensures r.Some? <==> HasKey(t.attrs, k)
  {
    Get(t.attrs, k)
  }

  /** `tag.get(k)` for an attribute the parser stores as a string. A token
      list cannot occur under such a key (see `TagOk`); it reads as absent. */
  function StrAttr(t: Tag, k: string): (r: Option<string>)
    ensures r.Some? ==> Get(t.attrs, k) == Some(Str(r.value))
    ensures TagOk(t) && k !in MultiValued ==> (r.Some? <==> HasKey(t.attrs, k))
  {
    match Get(t.attrs, k)
    case Some(v) => if v.Str? then Some(v.s) else None
    case None => None
  }

  /** Python's `needle in value`: membership in a token list, a substring
      test on a string. */
  predicate PyIn(needle: string, v: AttrValue)
  {
    match v
    case Str(s) => Contains(s, needle)
    case Tokens(ts) => needle in ts
  }

  /** `tag.string`: the text of a string node, or of an element whose only
      child has a `.string`; `None` otherwise. */
  function StringOf(n: Node): (r: Option<string>)
    ensures n.Text? ==> r == Some(n.s)
    ensures n.Element? && |n.contents| != 1 ==> r.None?
  {
    match n
    case Text(s) => Some(s)
    case Element(_, cs) => if |cs| == 1 then StringOf(cs[0]) else None
  }

  predicate IsElementNamed(n: Node, name: string) { n.Element? && n.tag.name == name }

  /** `find_all(name)` over a list of sibling subtrees: every element with
      that name, in document order (an element before its descendants). */
  function FindAll(cs: seq<Node>, name: string): (r: seq<Node>)
    ensures forall i :: 0 <= i < |r| ==> IsElementNamed(r[i], name)
    ensures forall i :: 0 <= i < |cs| && IsElementNamed(cs[i], name) ==> cs[i] in r
    decreases cs
  {
    if cs == [] then []
    else
      var here := match cs[0]
        case Text(_) => []
        case Element(t, kids) => (if t.name == name then [cs[0]] else []) + FindAll(kids, name);
      var r := here + FindAll(cs[1..], name);
      assert forall i :: 1 <= i < |cs| ==> cs[i] == cs[1..][i - 1];
      r
  }

  /** `find(name)` over sibling subtrees: the first element with that name
      in document order, with its ancestors inside `cs`, nearest first,
      followed by `above`. */
  function FindFirst(cs: seq<Node>, name: string, above: seq<Tag>): (r: Option<(Node, seq<Tag>)>)
    ensures r.Some? ==> IsElementNamed(r.value.0, name)
    ensures r.None? <==> FindAll(cs, name) == []
    ensures r.Some? ==> r.value.0 == FindAll(cs, name)[0]
    decreases cs
  {
    if cs == [] then None
    else match cs[0]
      case Text(_) => FindFirst(cs[1..], name, above)
      case Element(t, kids) =>
        if t.name == name then Some((cs[0], above))
        else match FindFirst(kids, name, [t] + above)
          case Some(x) => Some(x)
          case None => FindFirst(cs[1..], name, above)
  }

  /** The tree with every element of the given name removed, together with
      its descendants (`decompose()` applied to each of them). */
  function RemoveAll(cs: seq<Node>, name: string): (r: seq<Node>)
    ensures FindAll(r, name) == []
    ensures |r| <= |cs|
    decreases cs
  {
    if cs == [] then []
    else match cs[0]
      case Text(s) =>
        var r := [cs[0]] + RemoveAll(cs[1..], name);
        assert r[1..] == RemoveAll(cs[1..], name);
        r
      case Element(t, kids) =>
        if t.name == name then RemoveAll(cs[1..], name)
        else
          var r := [Element(t, RemoveAll(kids, name))] + RemoveAll(cs[1..], name);
          assert r[1..] == RemoveAll(cs[1..], name);
          r
  }

  /** The string nodes below `cs`, in document order. */
  function Strings(cs: seq<Node>): (r: seq<string>)
    decreases cs
  {
    if cs == [] then []
    else match cs[0]
      case Text(s) => [s] + Strings(cs[1..])
      case Element(_, kids) => Strings(kids) + Strings(cs[1..])
  }

  /** `tag.get_text(separator=sep)` */
  function GetText(n: Node, sep: string): (r: string)
    ensures n.Text? ==> r == n.s
  {
    match n
    case Text(s) => s
    case Element(_, cs) => Join(Strings(cs), sep)
  }

  /** Below an element found by `find`, `find_all` finds nothing that it
      finds nothing of in the whole tree. */
  lemma {:induction false} FindAllBelow(cs: seq<Node>, name: string, other: string, above: seq<Tag>)
    requires FindAll(cs, name) == [] && FindFirst(cs, other, above).Some?
    ensures FindAll(FindFirst(cs, other, above).value.0.contents, name) == []
    decreases cs
  {
    assert FindAll(cs[1..], name) == [];
    match cs[0]
    case Text(_) => FindAllBelow(cs[1..], name, other, above);
    case Element(t, kids) =>
      assert FindAll(kids, name) == [];
      if t.name != other {
        if FindFirst(kids, other, [t] + above).Some? {
          FindAllBelow(kids, name, other, [t] + above);
        } else {
          FindAllBelow(cs[1..], name, other, above);
        }
      }
  }
}

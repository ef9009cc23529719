/** Selector matching and specificity as the HTML importer computes them
    (html_parser.py). Both work on the raw selector text with regular
    expressions; each expression is written out here as a scanner that
    finds the same matches, left to right and without overlap, with the
    same greedy or lazy choices. */
module Selectors {
  import opened Wrappers
  import opened Text
  import opened ODict
  import opened Dom

  // ---------------------------------------------------------------------
  // Scanning helpers

  /** End of the run of `[\w-]` characters that starts at `i`. */
  function NameEnd(s: string, i: nat): (e: nat)
    requires i <= |s|
    ensures i <= e <= |s|
    ensures forall k :: i <= k < e ==> IsNameChar(s[k])
    ensures e < |s| ==> !IsNameChar(s[e])
    decreases |s| - i
  {
    if i < |s| && IsNameChar(s[i]) then NameEnd(s, i + 1) else i
  }

  /** The first line break at or after `i`, or the end: `.` stops there. */
  function LineEnd(s: string, i: nat): (e: nat)
    requires i <= |s|
    ensures i <= e <= |s|
    ensures forall k :: i <= k < e ==> s[k] != '\n'
    ensures e < |s| ==> s[e] == '\n'
    decreases |s| - i
  {
    if i < |s| && s[i] != '\n' then LineEnd(s, i + 1) else i
  }

  /** The first position in `[lo, hi)` holding `c`. */
  function IndexOf(s: string, c: char, lo: nat, hi: nat): (r: Option<nat>)
    requires lo <= hi <= |s|
    ensures r.Some? ==> lo <= r.value < hi && s[r.value] == c && (forall k :: lo <= k < r.value ==> s[k] != c)
    ensures r.None? ==> (forall k :: lo <= k < hi ==> s[k] != c)
    decreases hi - lo
  {
    if lo == hi then None
    else if s[lo] == c then Some(lo)
    else IndexOf(s, c, lo + 1, hi)
  }

  /** The last position in `[lo, hi)` holding `c`. */
  function LastIndexOf(s: string, c: char, lo: nat, hi: nat): (r: Option<nat>)
    requires lo <= hi <= |s|
    ensures r.Some? ==> lo <= r.value < hi && s[r.value] == c && (forall k :: r.value < k < hi ==> s[k] != c)
    ensures r.None? ==> (forall k :: lo <= k < hi ==> s[k] != c)
    decreases hi - lo
  {
    if lo == hi then None
    else if s[hi - 1] == c then Some(hi - 1)
    else LastIndexOf(s, c, lo, hi - 1)
  }

  /** `\b` at position `i`. */
  predicate Boundary(s: string, i: nat)
    requires i <= |s|
  {
    (i > 0 && IsWordChar(s[i - 1])) != (i < |s| && IsWordChar(s[i]))
  }

  // ---------------------------------------------------------------------
  // Pseudo-class and pseudo-element removal: `::?[\w-]+(\(.*\))?`

  /** The end of a match of the pseudo pattern starting at `i`, if one starts there. */
  function PseudoMatchEnd(s: string, i: nat): (r: Option<nat>)
    requires i <= |s|
    ensures r.Some? ==> i < r.value <= |s| && s[i] == ':'
  {
    if i < |s| && s[i] == ':' then
      var j := if i + 1 < |s| && s[i + 1] == ':' then i + 2 else i + 1;
      var e := NameEnd(s, j);
      if e == j then None
      else if e < |s| && s[e] == '(' then
        match LastIndexOf(s, ')', e + 1, LineEnd(s, e + 1))
        case Some(p) => Some(p + 1)
        case None => Some(e)
      else Some(e)
    else None
  }

  function StripPseudoFrom(s: string, i: nat): (r: string)
    requires i <= |s|
    ensures |r| <= |s| - i
    ensures (forall k :: i <= k < |s| ==> s[k] != ':') ==> r == s[i..]
    decreases |s| - i
  {
    if i == |s| then []
    else match PseudoMatchEnd(s, i)
      case Some(e) => StripPseudoFrom(s, e)
      case None => [s[i]] + StripPseudoFrom(s, i + 1)
  }

  /** `re.sub(r'::?[\w-]+(\(.*\))?', '', s)` */
  function StripPseudo(s: string): (r: string)
    ensures |r| <= |s|
    ensures ':' !in s ==> r == s
  {
    StripPseudoFrom(s, 0)
  }

  // ---------------------------------------------------------------------
  // Specificity

  /** A specificity triple (ids, classes and attributes, types); ordered as
      Python orders tuples. */
  datatype Specificity = Specificity(a: nat, b: nat, c: nat)

  predicate SpecLe(x: Specificity, y: Specificity)
  {
    x.a < y.a || (x.a == y.a && (x.b < y.b || (x.b == y.b && x.c <= y.c)))
  }

  /** Number of matches of `marker[\w-]+` (`#[\w-]+` or `\.[\w-]+`) from `i` on. */
  function CountPrefixed(s: string, i: nat, marker: char): (n: nat)
    requires i <= |s|
    ensures n <= |s| - i
    decreases |s| - i
  {
    if i == |s| then 0
    else if s[i] == marker && i + 1 < |s| && IsNameChar(s[i + 1]) then 1 + CountPrefixed(s, NameEnd(s, i + 1), marker)
    else CountPrefixed(s, i + 1, marker)
  }

  /** Number of matches of the lazy `\[.*?\]` from `i` on. */
  function CountBrackets(s: string, i: nat): (n: nat)
    requires i <= |s|
    ensures n <= |s| - i
    decreases |s| - i
  {
    if i == |s| then 0
    else if s[i] == '[' then
      match IndexOf(s, ']', i + 1, LineEnd(s, i + 1))
      case Some(p) => 1 + CountBrackets(s, p + 1)
      case None => CountBrackets(s, i + 1)
    else CountBrackets(s, i + 1)
  }

  /** The pseudo-classes the importer counts towards `b`. */
  const CountedPseudoClasses: seq<string> := ["not", "where", "is", "has", "hover", "focus", "active",
    "checked", "disabled", "enabled", "target", "root", "empty", "first-child", "last-child", "nth-child"]

  /** The pseudo-elements the importer counts towards `c`. */
  const CountedPseudoElements: seq<string> := ["before", "after", "first-line", "first-letter",
    "selection", "marker", "placeholder"]

  /** The first alternative of `alts` that occurs at `i` (followed by a word
      boundary when `bounded`), as a regex alternation tries them. */
  function FirstAlternative(s: string, i: nat, alts: seq<string>, bounded: bool): (r: Option<string>)
    requires i <= |s|
    ensures r.Some? ==> r.value in alts && i + |r.value| <= |s| && s[i..i + |r.value|] == r.value
    ensures r.None? ==> forall w :: w in alts ==> !(StartsWith(s[i..], w) && (!bounded || Boundary(s, i + |w|)))
  {
    if alts == [] then None
    else if StartsWith(s[i..], alts[0]) && (!bounded || Boundary(s, i + |alts[0]|)) then Some(alts[0])
    else FirstAlternative(s, i, alts[1..], bounded)
  }

  /** Matches of `:(not|where|...|nth-child)\b` from `i` on. */
  function CountPseudoClasses(s: string, i: nat): (n: nat)
    requires i <= |s|
    ensures n <= |s| - i
    decreases |s| - i
  {
    if i == |s| then 0
    else if s[i] == ':' then
      match FirstAlternative(s, i + 1, CountedPseudoClasses, true)
      case Some(w) => 1 + CountPseudoClasses(s, i + 1 + |w|)
      case None => CountPseudoClasses(s, i + 1)
    else CountPseudoClasses(s, i + 1)
  }

  /** Matches of `::(before|after|...|placeholder)` from `i` on. */
  function CountPseudoElements(s: string, i: nat): (n: nat)
    requires i <= |s|
    ensures n <= |s| - i
    decreases |s| - i
  {
    if i + 1 >= |s| then 0
    else if s[i] == ':' && s[i + 1] == ':' then
      match FirstAlternative(s, i + 2, CountedPseudoElements, false)
      case Some(w) => 1 + CountPseudoElements(s, i + 2 + |w|)
      case None => CountPseudoElements(s, i + 1)
    else CountPseudoElements(s, i + 1)
  }

  /** Where a match of `(?<![\.#\[:])\b[\w-]+` may start. */
  predicate TypeStart(s: string, i: nat)
    requires i < |s|
  {
    IsNameChar(s[i]) && (i == 0 || s[i - 1] !in ".#[:") && Boundary(s, i)
  }

  /** Matches of `(?<![\.#\[:])\b[\w-]+` from `i` on. */
  function CountTypes(s: string, i: nat): (n: nat)
    requires i <= |s|
    ensures n <= |s| - i
    decreases |s| - i
  {
    if i == |s| then 0
    else if TypeStart(s, i) then 1 + CountTypes(s, NameEnd(s, i))
    else CountTypes(s, i + 1)
  }

  /** `_get_specificity`: ids, classes and attributes (plus some pseudo-classes
      counted on the raw text), types (plus some pseudo-elements). */
  function GetSpecificity(text: string): (r: Specificity)
    ensures r.a <= |text| && r.c <= 2 * |text|
  {
    var sel := StripPseudo(text);
    Specificity(
      CountPrefixed(sel, 0, '#'),
      CountPrefixed(sel, 0, '.') + CountBrackets(sel, 0) + CountPseudoClasses(text, 0),
      CountTypes(sel, 0) + CountPseudoElements(text, 0))
  }

  /** Number of maximal runs of `[\w-]` characters holding at least one word
      character, from `i` on: the identifiers of a plain selector. */
  function Identifiers(s: string, i: nat): (n: nat)
    requires i <= |s|
    decreases |s| - i
  {
    if i == |s| then 0
    else if !IsNameChar(s[i]) then Identifiers(s, i + 1)
    else
      var e := NameEnd(s, i);
      (if exists k :: i <= k < e && IsWordChar(s[k]) then 1 else 0) + Identifiers(s, e)
  }

  predicate Plain(s: string)
  {
    forall k :: 0 <= k < |s| ==> s[k] !in "#.[:"
  }

  lemma {:induction false} CountPrefixedPlain(s: string, i: nat, marker: char)
    requires i <= |s| && Plain(s) && marker in "#."
    ensures CountPrefixed(s, i, marker) == 0
    decreases |s| - i
  {
    if i < |s| { CountPrefixedPlain(s, i + 1, marker); }
  }

  lemma {:induction false} CountBracketsPlain(s: string, i: nat)
    requires i <= |s| && Plain(s)
    ensures CountBrackets(s, i) == 0
    decreases |s| - i
  {
    if i < |s| { CountBracketsPlain(s, i + 1); }
  }

  lemma {:induction false} CountPseudoPlain(s: string, i: nat)
    requires i <= |s| && Plain(s)
    ensures CountPseudoClasses(s, i) == 0 && CountPseudoElements(s, i) == 0
    decreases |s| - i
  {
    if i < |s| { CountPseudoPlain(s, i + 1); }
  }

  /** Inside a run of name characters, past a prefix of hyphens only, the
      type scanner finds one match exactly when a word character remains. */
  lemma {:induction false} CountTypesInRun(s: string, i: nat, e: nat)
    requires Plain(s)
    requires i <= e <= |s| && e == NameEnd(s, i)
    requires 0 < i ==> !IsWordChar(s[i - 1])
    ensures CountTypes(s, i) == (if exists k :: i <= k < e && IsWordChar(s[k]) then 1 else 0) + CountTypes(s, e)
    decreases e - i
  {
    if i < e {
      if IsWordChar(s[i]) {
        assert TypeStart(s, i);
      } else {
        assert !Boundary(s, i);
        assert NameEnd(s, i + 1) == e;
        CountTypesInRun(s, i + 1, e);
        assert (exists k :: i <= k < e && IsWordChar(s[k])) == (exists k :: i + 1 <= k < e && IsWordChar(s[k]));
      }
    }
  }

  lemma {:induction false} CountTypesPlain(s: string, i: nat)
    requires i <= |s| && Plain(s)
    requires 0 < i < |s| ==> !IsNameChar(s[i - 1]) || !IsNameChar(s[i])
    ensures CountTypes(s, i) == Identifiers(s, i)
    decreases |s| - i
  {
    if i < |s| {
      if !IsNameChar(s[i]) {
        CountTypesPlain(s, i + 1);
      } else {
        var e := NameEnd(s, i);
        CountTypesInRun(s, i, e);
        CountTypesPlain(s, e);
      }
    }
  }

  /** A selector with no `#`, `.`, `[` or `:` has specificity (0, 0, n),
      where n is its number of identifiers. */
  lemma PlainSpecificity(text: string)
    requires Plain(text)
    ensures GetSpecificity(text) == Specificity(0, 0, Identifiers(text, 0))
  {
    assert ':' !in text;
    assert StripPseudo(text) == text;
    CountPrefixedPlain(text, 0, '#');
    CountPrefixedPlain(text, 0, '.');
    CountBracketsPlain(text, 0);
    CountPseudoPlain(text, 0);
    CountTypesPlain(text, 0);
  }

  // ---------------------------------------------------------------------
  // Compound selector parts

  /** `re.match(r'^[\w-]+', part)`: the leading type name, if any. */
  function LeadingName(s: string): (r: Option<string>)
    ensures r.Some? <==> s != [] && IsNameChar(s[0])
    ensures r.Some? ==> r.value == s[..NameEnd(s, 0)]
  {
    var e := NameEnd(s, 0);
    if e == 0 then None else Some(s[..e])
  }

  /** `re.search(r'#([\w-]+)', part).group(1)`: the first id, if any. */
  function FirstId(s: string, i: nat): (r: Option<string>)
    requires i <= |s|
    ensures r.Some? ==> r.value != [] && forall c :: c in r.value ==> IsNameChar(c)
    ensures CountPrefixed(s, i, '#') == 0 <==> r.None?
    decreases |s| - i
  {
    if i == |s| then None
    else if s[i] == '#' && i + 1 < |s| && IsNameChar(s[i + 1]) then Some(s[i + 1..NameEnd(s, i + 1)])
    else FirstId(s, i + 1)
  }

  /** `re.findall(r'\.([\w-]+)', part)`: the class names, in order. */
  function ClassNames(s: string, i: nat): (r: seq<string>)
    requires i <= |s|
    ensures |r| == CountPrefixed(s, i, '.')
    ensures forall k :: 0 <= k < |r| ==> r[k] != []
    decreases |s| - i
  {
    if i == |s| then []
    else if s[i] == '.' && i + 1 < |s| && IsNameChar(s[i + 1]) then
      [s[i + 1..NameEnd(s, i + 1)]] + ClassNames(s, NameEnd(s, i + 1))
    else ClassNames(s, i + 1)
  }

  /** One attribute selector: `[name]` has an empty operator. */
  datatype AttrSel = AttrSel(name: string, op: string, value: string)

  predicate IsQuote(c: char) { c == '"' || c == '\'' }

  /** The lazy `(.*?)["\']?\]` after an operator: the end of the value and
      the end of the match. */
  function ValueEnd(s: string, v: nat): (r: Option<(nat, nat)>)
    requires v <= |s|
    ensures r.Some? ==> v <= r.value.0 < r.value.1 <= |s| && s[r.value.1 - 1] == ']'
    decreases |s| - v
  {
    if v == |s| then None
    else if IsQuote(s[v]) && v + 1 < |s| && s[v + 1] == ']' then Some((v, v + 2))
    else if s[v] == ']' then Some((v, v + 1))
    else if s[v] == '\n' then None
    else ValueEnd(s, v + 1)
  }

  /** The operator `[*^$|~]?=` at `e`, or `""` when there is none. */
  function OperatorAt(s: string, e: nat): (op: string)
    requires e <= |s|
    ensures op in ["", "=", "*=", "^=", "$=", "|=", "~="]
    ensures op != "" ==> e + |op| <= |s| && s[e..e + |op|] == op
  {
    if e == |s| then ""
    else if s[e] == '=' then "="
    else if e + 1 < |s| && s[e + 1] == '=' then
      match s[e]
      case '*' => "*="
      case '^' => "^="
      case '$' => "$="
      case '|' => "|="
      case '~' => "~="
      case _ => ""
    else ""
  }

  /** A match of `\[([\w-]+)(?:([*^$|~]?=)["\']?(.*?)["\']?)?\]` at `i`: the
      captured groups and the end of the match. */
  function AttrMatchAt(s: string, i: nat): (r: Option<(AttrSel, nat)>)
    requires i <= |s|
    ensures r.Some? ==> i < r.value.1 <= |s|
    ensures r.Some? ==> r.value.0.op in ["", "=", "*=", "^=", "$=", "|=", "~="]
  {
    if i < |s| && s[i] == '[' then
      var e := NameEnd(s, i + 1);
      if e == i + 1 || e == |s| then None
      else if s[e] == ']' then Some((AttrSel(s[i + 1..e], "", ""), e + 1))
      else
        var op := OperatorAt(s, e);
        if op == "" then None
        else
          var o := e + |op|;
          var q := if o < |s| && IsQuote(s[o]) then o + 1 else o;
          match ValueEnd(s, q)
          case Some(ends) => Some((AttrSel(s[i + 1..e], op, s[q..ends.0]), ends.1))
          case None => None
    else None
  }

  /** `re.findall` of the attribute pattern from `i` on. */
  function AttrSelectors(s: string, i: nat): (r: seq<AttrSel>)
    requires i <= |s|
    ensures forall k :: 0 <= k < |r| ==> r[k].op in ["", "=", "*=", "^=", "$=", "|=", "~="]
    decreases |s| - i
  {
    if i == |s| then []
    else match AttrMatchAt(s, i)
      case Some(m) => [m.0] + AttrSelectors(s, m.1)
      case None => AttrSelectors(s, i + 1)
  }

  /** What an attribute selector requires of a value, on a string value. */
  predicate OperatorHolds(op: string, actual: string, value: string)
  {
    match op
    case "=" => actual == value
    case "~=" => value in Words(actual)
    case "|=" => actual == value || StartsWith(actual, value + "-")
    case "^=" => StartsWith(actual, value)
    case "$=" => EndsWith(actual, value)
    case "*=" => Contains(actual, value)
    case _ => true
  }

  /** The reference meaning of one attribute selector: the attribute is
      present, and when there is an operator its test holds. A token-list
      value compares unequal to any string and is searched by membership
      for `*=`. */
  predicate AttrSatisfied(t: Tag, a: AttrSel)
  {
    match GetAttr(t, a.name)
    case None => false
    case Some(Str(v)) => a.op == "" || OperatorHolds(a.op, v, a.value)
    case Some(Tokens(ts)) => a.op == "" || (a.op == "*=" && a.value in ts)
  }

  /** The operators that call a string method and so raise on a token list. */
  predicate AttrRaises(t: Tag, a: AttrSel)
  {
    GetAttr(t, a.name).Some? && GetAttr(t, a.name).value.Tokens? && a.op in ["~=", "|=", "^=", "$="]
  }

  /** Some selector raises, and every selector before it is satisfied: the
      loop reaches it and its string method raises. */
  predicate FirstRaises(t: Tag, sels: seq<AttrSel>)
  {
    exists k :: 0 <= k < |sels| && AttrRaises(t, sels[k]) && forall j :: 0 <= j < k ==> AttrSatisfied(t, sels[j])
  }

  /** One attribute selector tested on its own: `False` when the attribute
      is missing or the test fails, the exception when a string method is
      called on a token list. */
  function AttrOutcome(t: Tag, a: AttrSel): (r: Result<bool>)
    requires a.op in ["", "=", "*=", "^=", "$=", "|=", "~="]
    ensures r == Ok(true) <==> AttrSatisfied(t, a)
    ensures r.Err? <==> AttrRaises(t, a)
  {
    match GetAttr(t, a.name)
    case None => Ok(false)
    case Some(Str(v)) => Ok(a.op == "" || OperatorHolds(a.op, v, a.value))
    case Some(Tokens(ts)) =>
      if a.op == "" then Ok(true)
      else if a.op == "=" then Ok(false)
      else if a.op == "*=" then Ok(a.value in ts)
      else Err("AttributeError: 'list' object has no attribute")
  }

  /** The attribute loop of `_element_matches_selector`: the first failing
      selector ends it with `False`, an operator that raises ends it with
      the exception. */
  function AttrsHold(t: Tag, sels: seq<AttrSel>): (r: Result<bool>)
    requires forall k :: 0 <= k < |sels| ==> sels[k].op in ["", "=", "*=", "^=", "$=", "|=", "~="]
    ensures r == Ok(true) <==> forall k :: 0 <= k < |sels| ==> AttrSatisfied(t, sels[k])
    ensures r.Err? <==> FirstRaises(t, sels)
  {
    if sels == [] then Ok(true)
    else
      var here := AttrOutcome(t, sels[0]);
      if here == Ok(true) then
        AttrsCons(t, sels);
        AttrsHold(t, sels[1..])
      else
        HeadDecides(t, sels);
        here
  }

  /** Past a satisfied first selector, the rest decide. */
  lemma AttrsCons(t: Tag, sels: seq<AttrSel>)
    requires sels != [] && AttrSatisfied(t, sels[0])
    ensures (forall k :: 0 <= k < |sels| ==> AttrSatisfied(t, sels[k])) <==> forall k :: 0 <= k < |sels[1..]| ==> AttrSatisfied(t, sels[1..][k])
    ensures FirstRaises(t, sels) <==> FirstRaises(t, sels[1..])
  {
    assert forall k :: 0 <= k < |sels[1..]| ==> sels[1..][k] == sels[k + 1];
    RaisesCons(t, sels);
  }

  lemma RaisesCons(t: Tag, sels: seq<AttrSel>)
    requires sels != [] && AttrSatisfied(t, sels[0])
    ensures FirstRaises(t, sels) <==> FirstRaises(t, sels[1..])
  {
    if FirstRaises(t, sels) {
      RaisesInTail(t, sels);
    }
    if FirstRaises(t, sels[1..]) {
      var k :| 0 <= k < |sels[1..]| && AttrRaises(t, sels[1..][k]) && forall j :: 0 <= j < k ==> AttrSatisfied(t, sels[1..][j]);
      RaisesFromTail(t, sels, k);
    }
  }

  lemma RaisesInTail(t: Tag, sels: seq<AttrSel>)
    requires sels != [] && AttrSatisfied(t, sels[0]) && FirstRaises(t, sels)
    ensures FirstRaises(t, sels[1..])
  {
    var k :| 0 <= k < |sels| && AttrRaises(t, sels[k]) && forall j :: 0 <= j < k ==> AttrSatisfied(t, sels[j]);
    assert k != 0;
    assert sels[1..][k - 1] == sels[k];
    assert forall j :: 0 <= j < k - 1 ==> sels[1..][j] == sels[j + 1];
  }

  lemma RaisesFromTail(t: Tag, sels: seq<AttrSel>, k: nat)
    requires sels != [] && AttrSatisfied(t, sels[0])
    requires k < |sels[1..]| && AttrRaises(t, sels[1..][k]) && forall j :: 0 <= j < k ==> AttrSatisfied(t, sels[1..][j])
    ensures FirstRaises(t, sels)
  {
    assert AttrRaises(t, sels[k + 1]);
    forall j | 0 <= j < k + 1 ensures AttrSatisfied(t, sels[j]) {
      if j > 0 { assert sels[j] == sels[1..][j - 1]; }
    }
  }

  /** A first selector that is not satisfied ends the loop: with the
      exception exactly when it raises. */
  lemma HeadDecides(t: Tag, sels: seq<AttrSel>)
    requires sels != [] && !AttrSatisfied(t, sels[0])
    ensures FirstRaises(t, sels) <==> AttrRaises(t, sels[0])
  {
  }

  /** The class-list test `c in element.get('class', [])` for every class. */
  predicate HasClasses(t: Tag, classes: seq<string>)
  {
    forall k :: 0 <= k < |classes| ==> match GetAttr(t, "class")
      case None => false
      case Some(v) => PyIn(classes[k], v)
  }

  /** Every constraint a compound part names holds of the element: its
      leading type name, its first id, each of its classes, each of its
      attribute selectors. */
  predicate PartHolds(t: Tag, clean: string)
  {
    (LeadingName(clean).Some? ==> t.name == LeadingName(clean).value)
    && (FirstId(clean, 0).Some? ==> GetAttr(t, "id") == Some(Str(FirstId(clean, 0).value)))
    && HasClasses(t, ClassNames(clean, 0))
    && forall k :: 0 <= k < |AttrSelectors(clean, 0)| ==> AttrSatisfied(t, AttrSelectors(clean, 0)[k])
  }

  /** `_element_matches_selector(element, part)`: pseudo-classes and
      pseudo-elements are removed first and do not constrain the match. */
  function PartMatches(t: Tag, part: string): (r: Result<bool>)
    ensures r == Ok(true) <==> PartHolds(t, StripPseudo(part))
  {
    var clean := StripPseudo(part);
    if LeadingName(clean).Some? && t.name != LeadingName(clean).value then Ok(false)
    else if FirstId(clean, 0).Some? && GetAttr(t, "id") != Some(Str(FirstId(clean, 0).value)) then Ok(false)
    else if !HasClasses(t, ClassNames(clean, 0)) then Ok(false)
    else AttrsHold(t, AttrSelectors(clean, 0))
  }

  // ---------------------------------------------------------------------
  // Descendant combinator and selector lists. These are stated for any
  // compound-part matcher `pm`; the importer uses `PartMatches`.

  type PartMatcher = (Tag, string) -> Result<bool>

  /** The element satisfies a part without raising. */
  predicate Sat(pm: PartMatcher, t: Tag, part: string) { pm(t, part) == Ok(true) }

  /** The nearest ancestor at or above index `from` (nearest first) that
      satisfies `part`; an exception from an ancestor tried first propagates. */
  function Nearest(pm: PartMatcher, anc: seq<Tag>, part: string, from: nat): (r: Result<Option<nat>>)
    requires from <= |anc|
    ensures r.Ok? && r.value.Some? ==>
      from <= r.value.value < |anc| && Sat(pm, anc[r.value.value], part)
      && (forall k :: from <= k < r.value.value ==> pm(anc[k], part) == Ok(false))
    ensures r == Ok(None) ==> forall k :: from <= k < |anc| ==> pm(anc[k], part) == Ok(false)
    decreases |anc| - from
  {
    if from == |anc| then Ok(None)
    else match pm(anc[from], part)
      case Err(m) => Err(m)
      case Ok(true) => Ok(Some(from))
      case Ok(false) => Nearest(pm, anc, part, from + 1)
  }

  /** The ancestor walk of `_matches_selector`: the parts taken right to left,
      each bound to the nearest matching ancestor above the previous one,
      with no backtracking. */
  function Climb(pm: PartMatcher, parts: seq<string>, anc: seq<Tag>, from: nat): (r: Result<bool>)
    requires from <= |anc|
    decreases |parts|
  {
    if parts == [] then Ok(true)
    else match Nearest(pm, anc, parts[|parts| - 1], from)
      case Err(m) => Err(m)
      case Ok(None) => Ok(false)
      case Ok(Some(j)) => Climb(pm, parts[..|parts| - 1], anc, j + 1)
  }

  /** The descendant combinator as Selectors Level 3 (section 8.1) defines it:
      the parts can be placed on strictly ascending ancestors. */
  ghost predicate Embeds(pm: PartMatcher, parts: seq<string>, anc: seq<Tag>, from: nat)
    requires from <= |anc|
    decreases |parts|
  {
    parts == [] ||
    exists j :: from <= j < |anc| && Sat(pm, anc[j], parts[|parts| - 1]) && Embeds(pm, parts[..|parts| - 1], anc, j + 1)
  }

  lemma EmbedsFromEarlier(pm: PartMatcher, parts: seq<string>, anc: seq<Tag>, from: nat, later: nat)
    requires from <= later <= |anc|
    requires Embeds(pm, parts, anc, later)
    ensures Embeds(pm, parts, anc, from)
  {
  }

  /** The greedy walk loses nothing: whenever it ends without an exception,
      it says whether the parts can be placed on ascending ancestors. */
  lemma {:induction false} ClimbIsEmbedding(pm: PartMatcher, parts: seq<string>, anc: seq<Tag>, from: nat)
    requires from <= |anc|
    requires Climb(pm, parts, anc, from).Ok?
    ensures Climb(pm, parts, anc, from).value <==> Embeds(pm, parts, anc, from)
    decreases |parts|
  {
    if parts != [] {
      var last := parts[|parts| - 1];
      var init := parts[..|parts| - 1];
      match Nearest(pm, anc, last, from)
      case Ok(None) =>
      case Ok(Some(j)) =>
        ClimbIsEmbedding(pm, init, anc, j + 1);
        if Embeds(pm, parts, anc, from) {
          var j' :| from <= j' < |anc| && Sat(pm, anc[j'], last) && Embeds(pm, init, anc, j' + 1);
          EmbedsFromEarlier(pm, init, anc, j + 1, j' + 1);
        }
    }
  }

  /** One comma-separated alternative, already stripped: its last part must
      match the element, the earlier ones its ancestors. */
  function AltMatches(pm: PartMatcher, t: Tag, anc: seq<Tag>, alt: string): (r: Result<bool>)
    ensures Words(alt) == [] ==> r.Err?
    ensures Words(alt) != [] && pm(t, Words(alt)[|Words(alt)| - 1]) == Ok(false) ==> r == Ok(false)
  {
    var parts := Words(alt);
    if parts == [] then Err("IndexError: list index out of range")
    else match pm(t, parts[|parts| - 1])
      case Err(m) => Err(m)
      case Ok(false) => Ok(false)
      case Ok(true) => Climb(pm, parts[..|parts| - 1], anc, 0)
  }

  /** The outcome of a selector list given the outcomes of its alternatives
      in order: the first one that matches or raises decides. */
  function AnyOf(rs: seq<Result<bool>>): Result<bool>
  {
    if rs == [] then Ok(false)
    else match rs[0]
      case Err(m) => Err(m)
      case Ok(true) => Ok(true)
      case Ok(false) => AnyOf(rs[1..])
  }

  /** The outcome of each comma-separated alternative, stripped. */
  function AltResults(pm: PartMatcher, t: Tag, anc: seq<Tag>, alts: seq<string>): (rs: seq<Result<bool>>)
    ensures |rs| == |alts|
    ensures forall i :: 0 <= i < |alts| ==> rs[i] == AltMatches(pm, t, anc, Strip(alts[i]))
  {
    seq(|alts|, i requires 0 <= i < |alts| => AltMatches(pm, t, anc, Strip(alts[i])))
  }

  /** `_matches_selector(element, selector_text)`, with the element's
      ancestors given nearest first, up to the document itself. */
  function Matches(t: Tag, anc: seq<Tag>, text: string): Result<bool>
  {
    AnyOf(AltResults(PartMatches, t, anc, Split(text, ',')))
  }

  /** Comma alternatives: the list does not match exactly when no
      alternative matches and none raises. */
  lemma {:induction false} AnyOfNone(rs: seq<Result<bool>>)
    ensures AnyOf(rs) == Ok(false) <==> forall i :: 0 <= i < |rs| ==> rs[i] == Ok(false)
  {
    if rs != [] {
      AnyOfNone(rs[1..]);
      assert forall i :: 0 < i < |rs| ==> rs[i] == rs[1..][i - 1];
    }
  }

  /** Comma alternatives: the list matches exactly when some alternative
      matches and every alternative before it does not (and raises nothing). */
  lemma {:induction false} AnyOfSome(rs: seq<Result<bool>>)
    ensures AnyOf(rs) == Ok(true) <==>
      exists i :: 0 <= i < |rs| && rs[i] == Ok(true) && forall j :: 0 <= j < i ==> rs[j] == Ok(false)
  {
    if rs != [] {
      var rest := rs[1..];
      AnyOfSome(rest);
      if rs[0] == Ok(false) {
        if AnyOf(rest) == Ok(true) {
          var i :| 0 <= i < |rest| && rest[i] == Ok(true) && forall j :: 0 <= j < i ==> rest[j] == Ok(false);
          assert rs[i + 1] == Ok(true);
          forall j | 0 <= j < i + 1 ensures rs[j] == Ok(false) {
            if j > 0 { assert rs[j] == rest[j - 1]; }
          }
        }
        if exists i :: 0 <= i < |rs| && rs[i] == Ok(true) && forall j :: 0 <= j < i ==> rs[j] == Ok(false) {
          var i :| 0 <= i < |rs| && rs[i] == Ok(true) && forall j :: 0 <= j < i ==> rs[j] == Ok(false);
          assert rest[i - 1] == Ok(true);
          forall j | 0 <= j < i - 1 ensures rest[j] == Ok(false) {
            assert rs[j + 1] == Ok(false);
          }
        }
      }
    }
  }

  /** The `for part in reversed(parts[:-1])` loop of `_matches_selector`:
      each part is looked for from the current element up, and the search
      for the next part resumes above the ancestor found. */
  method ClimbAncestors(pm: PartMatcher, parts: seq<string>, anc: seq<Tag>) returns (r: Result<bool>)
    ensures r == Climb(pm, parts, anc, 0)
  {
    var cur := 0;
    var k := |parts|;
    assert parts[..k] == parts;
    while k > 0
      invariant 0 <= k <= |parts| && cur <= |anc|
      invariant Climb(pm, parts, anc, 0) == Climb(pm, parts[..k], anc, cur)
    {
      var part := parts[k - 1];
      assert parts[..k][k - 1] == part && parts[..k][..k - 1] == parts[..k - 1];
      var temp := cur;
      while temp < |anc|
        invariant cur <= temp <= |anc|
        invariant Nearest(pm, anc, part, cur) == Nearest(pm, anc, part, temp)
      {
        var m := pm(anc[temp], part);
        if m.Err? {
          return Err(m.msg);
        }
        if m.value {
          break;
        }
        temp := temp + 1;
      }
      if temp == |anc| {
        return Ok(false);
      }
      cur := temp + 1;
      k := k - 1;
    }
    return Ok(true);
  }

  /** The body of the loop over alternatives in `_matches_selector`: the
      target part, then the ancestors. */
  method MatchAlternative(pm: PartMatcher, t: Tag, anc: seq<Tag>, alt: string) returns (r: Result<bool>)
    ensures r == AltMatches(pm, t, anc, alt)
  {
    var parts := Words(alt);
    if parts == [] {
      return Err("IndexError: list index out of range");
    }
    var target := pm(t, parts[|parts| - 1]);
    if target.Err? {
      return Err(target.msg);
    }
    if !target.value {
      return Ok(false);
    }
    if |parts| == 1 {
      return Ok(true);
    }
    r := ClimbAncestors(pm, parts[..|parts| - 1], anc);
  }

  /** `_matches_selector` as the source runs it: a loop over the comma
      alternatives that returns on the first one matching. */
  method MatchSelector(t: Tag, anc: seq<Tag>, text: string) returns (r: Result<bool>)
    ensures r == Matches(t, anc, text)
  {
    var alts := Split(text, ',');
    ghost var rs := AltResults(PartMatches, t, anc, alts);
    var i := 0;
    while i < |alts|
      invariant 0 <= i <= |alts|
      invariant Matches(t, anc, text) == AnyOf(rs[i..])
    {
      assert rs[i..][1..] == rs[i + 1..];
      var outcome := MatchAlternative(PartMatches, t, anc, Strip(alts[i]));
      assert rs[i..][0] == outcome;
      if outcome.Err? {
        return outcome;
      }
      if outcome.value {
        return Ok(true);
      }
      i := i + 1;
    }
    return Ok(false);
  }
}

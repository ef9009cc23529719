/** The style cascade of the HTML importer (`_compute_styles`): every style
    rule whose selector matches contributes its declarations; the
    contributions are stable-sorted by specificity and applied in that
    order, so a later assignment overrides an earlier one. */
module Cascade {
  import opened Wrappers
  import opened ODict
  import opened Dom
  import opened Casing
  import opened Sorting
  import opened Selectors

  /** A declaration block: property names with their values, in order. */
  type Declarations = seq<(string, string)>

  /** A rule of the parsed style sheet. Only style rules take part. */
  datatype Rule = StyleRule(selectors: seq<string>, style: Declarations) | OtherRule

  /** A matching selector's specificity with its rule's declarations. */
  datatype Matched = Matched(spec: Specificity, style: Declarations)

  /** The declarations with camelCase property names, as they are assigned. */
  function CamelDecls(ds: Declarations): (r: Declarations)
    ensures |r| == |ds|
    ensures forall i :: 0 <= i < |ds| ==> r[i] == (CamelCase(ds[i].0), ds[i].1)
  {
    if ds == [] then [] else [(CamelCase(ds[0].0), ds[0].1)] + CamelDecls(ds[1..])
  }

  /** Prefix `acc` to a successful list of matches; an exception stays one. */
  function Prepend(acc: seq<Matched>, r: Result<seq<Matched>>): Result<seq<Matched>>
  {
    match r
    case Ok(ms) => Ok(acc + ms)
    case Err(m) => Err(m)
  }

  /** The matches contributed by one rule's selector list, in order. */
  function SelectorMatches(t: Tag, anc: seq<Tag>, sels: seq<string>, style: Declarations): Result<seq<Matched>>
  {
    if sels == [] then Ok([])
    else match Matches(t, anc, sels[0])
      case Err(m) => Err(m)
      case Ok(b) => Prepend(if b then [Matched(GetSpecificity(sels[0]), style)] else [], SelectorMatches(t, anc, sels[1..], style))
  }

  /** `matching_rules` before the sort: one entry per matching selector of
      every style rule, in sheet order. */
  function MatchingRules(t: Tag, anc: seq<Tag>, sheet: seq<Rule>): Result<seq<Matched>>
  {
    if sheet == [] then Ok([])
    else match sheet[0]
      case OtherRule => MatchingRules(t, anc, sheet[1..])
      case StyleRule(sels, style) =>
        match SelectorMatches(t, anc, sels, style)
        case Err(m) => Err(m)
        case Ok(here) => Prepend(here, MatchingRules(t, anc, sheet[1..]))
  }

  function StyleRulesOnly(sheet: seq<Rule>): (r: seq<Rule>)
    ensures forall i :: 0 <= i < |r| ==> r[i].StyleRule?
  {
    if sheet == [] then []
    else if sheet[0].OtherRule? then StyleRulesOnly(sheet[1..])
    else [sheet[0]] + StyleRulesOnly(sheet[1..])
  }

  /** Rules other than style rules contribute nothing. */
  lemma {:induction false} OtherRulesIgnored(t: Tag, anc: seq<Tag>, sheet: seq<Rule>)
    ensures MatchingRules(t, anc, sheet) == MatchingRules(t, anc, StyleRulesOnly(sheet))
  {
    if sheet != [] {
      OtherRulesIgnored(t, anc, sheet[1..]);
      if sheet[0].StyleRule? {
        assert ([sheet[0]] + StyleRulesOnly(sheet[1..]))[1..] == StyleRulesOnly(sheet[1..]);
      }
    }
  }

  /** The sort key of `matching_rules.sort(key=lambda x: x[0])`. */
  function BySpecificity(): (le: (Matched, Matched) -> bool)
    ensures TotalPreorder(le)
    ensures forall x, y :: le(x, y) == SpecLe(x.spec, y.spec)
  {
    (x: Matched, y: Matched) => SpecLe(x.spec, y.spec)
  }

  /** All declarations of the sorted contributions, in application order. */
  function Flatten(ms: seq<Matched>): (r: Declarations)
  {
    if ms == [] then [] else Flatten(ms[..|ms| - 1]) + CamelDecls(ms[|ms| - 1].style)
  }

  /** Apply the contributions in order, after a stable sort by specificity. */
  function Cascaded(ms: seq<Matched>): Dict<string>
  {
    PutAll([], Flatten(Sort(ms, BySpecificity())))
  }

  /** `_compute_styles(element, stylesheet)`; an exception raised by the
      selector matching propagates. */
  function ComputedStyles(t: Tag, anc: seq<Tag>, sheet: seq<Rule>): Result<Dict<string>>
  {
    match MatchingRules(t, anc, sheet)
    case Err(m) => Err(m)
    case Ok(ms) => Ok(Cascaded(ms))
  }

  /** The contribution assigns property `k` (after camel-casing). */
  predicate Declares(m: Matched, k: string)
  {
    LastValue(CamelDecls(m.style), k).Some?
  }

  function DeclaresKey(k: string): (p: Matched -> bool)
    ensures forall m :: p(m) == Declares(m, k)
  {
    m => Declares(m, k)
  }

  lemma {:induction false} LastValueAppend<V>(a: seq<(string, V)>, b: seq<(string, V)>, k: string)
    ensures LastValue(a + b, k) == if LastValue(b, k).Some? then LastValue(b, k) else LastValue(a, k)
    decreases |b|
  {
    if b == [] {
      assert a + b == a;
    } else {
      assert (a + b)[..|a + b| - 1] == a + b[..|b| - 1];
      LastValueAppend(a, b[..|b| - 1], k);
    }
  }

  lemma {:induction false} FlattenLastValue(ms: seq<Matched>, k: string)
    ensures LastValue(Flatten(ms), k) ==
      match LastWhere(ms, DeclaresKey(k))
      case None => None
      case Some(w) => LastValue(CamelDecls(w.style), k)
  {
    if ms != [] {
      FlattenLastValue(ms[..|ms| - 1], k);
      LastValueAppend(Flatten(ms[..|ms| - 1]), CamelDecls(ms[|ms| - 1].style), k);
    }
  }

  /** The cascaded value of `k` is the one the stable sort leaves last. */
  lemma CascadedIsBest(ms: seq<Matched>, k: string)
    ensures Get(Cascaded(ms), k) ==
      match Best(ms, DeclaresKey(k), BySpecificity())
      case None => None
      case Some(w) => LastValue(CamelDecls(w.style), k)
  {
    var sorted := Sort(ms, BySpecificity());
    assert Get(Cascaded(ms), k) == LastValue(Flatten(sorted), k);
    FlattenLastValue(sorted, k);
    LastWhereSortIsBest(ms, DeclaresKey(k), BySpecificity());
  }

  /** A property is absent from the computed style exactly when no matching
      block declares it. */
  lemma AbsentWhenUndeclared(ms: seq<Matched>, k: string)
    ensures Get(Cascaded(ms), k).None? <==> forall i :: 0 <= i < |ms| ==> !Declares(ms[i], k)
  {
    var le := BySpecificity();
    var p := DeclaresKey(k);
    CascadedIsBest(ms, k);
    BestIsGreatestLast(ms, p, le);
  }

  /** Higher specificity wins, and among equal specificities the later rule
      wins: a property present in the computed style has the value that the
      last matching block of greatest specificity assigns to it. */
  lemma WinnerIsGreatest(ms: seq<Matched>, k: string)
    ensures Get(Cascaded(ms), k).Some? ==>
      exists i :: 0 <= i < |ms| && Declares(ms[i], k)
        && Get(Cascaded(ms), k) == LastValue(CamelDecls(ms[i].style), k)
        && (forall j :: 0 <= j < |ms| && Declares(ms[j], k) ==> SpecLe(ms[j].spec, ms[i].spec))
        && (forall j :: i < j < |ms| && Declares(ms[j], k) ==> !SpecLe(ms[i].spec, ms[j].spec))
  {
    var le := BySpecificity();
    var p := DeclaresKey(k);
    CascadedIsBest(ms, k);
    if Best(ms, p, le).Some? {
      var i := BestAt(ms, p, le);
      forall j | 0 <= j < |ms| && Declares(ms[j], k) ensures SpecLe(ms[j].spec, ms[i].spec) {
        assert p(ms[j]);
      }
      forall j | i < j < |ms| && Declares(ms[j], k) ensures !SpecLe(ms[i].spec, ms[j].spec) {
        assert p(ms[j]);
      }
    }
  }

  /** `PutAll` over a concatenation is `PutAll` twice. */
  lemma {:induction false} PutAllAppend(d: Dict<string>, a: Declarations, b: Declarations)
    ensures PutAll(d, a + b) == PutAll(PutAll(d, a), b)
    decreases |b|
  {
    if b == [] {
      assert a + b == a;
    } else {
      assert (a + b)[..|a + b| - 1] == a + b[..|b| - 1];
      PutAllAppend(d, a, b[..|b| - 1]);
    }
  }

  /** The selector loop of `_compute_styles` for one style rule. */
  method MatchRuleSelectors(t: Tag, anc: seq<Tag>, sels: seq<string>, style: Declarations) returns (r: Result<seq<Matched>>)
    ensures r == SelectorMatches(t, anc, sels, style)
  {
    var found: seq<Matched> := [];
    var j := 0;
    assert sels[0..] == sels;
    PrependNothing(SelectorMatches(t, anc, sels, style));
    while j < |sels|
      invariant 0 <= j <= |sels|
      invariant SelectorMatches(t, anc, sels, style) == Prepend(found, SelectorMatches(t, anc, sels[j..], style))
    {
      var m := MatchSelector(t, anc, sels[j]);
      if m.Err? {
        SelectorFails(t, anc, sels, j, style, found, m.msg);
        return Err(m.msg);
      }
      SelectorStep(t, anc, sels, j, style, found, m.value);
      if m.value {
        found := found + [Matched(GetSpecificity(sels[j]), style)];
      } else {
        assert found + [] == found;
      }
      j := j + 1;
    }
    SelectorsDone(t, anc, sels, style, found);
    return Ok(found);
  }

  lemma SelectorsDone(t: Tag, anc: seq<Tag>, sels: seq<string>, style: Declarations, found: seq<Matched>)
    ensures Prepend(found, SelectorMatches(t, anc, sels[|sels|..], style)) == Ok(found)
  {
    assert sels[|sels|..] == [];
    assert found + [] == found;
  }

  lemma PrependNothing(r: Result<seq<Matched>>)
    ensures Prepend([], r) == r
  {
    match r {
      case Ok(ms) => assert [] + ms == ms;
      case Err(_) =>
    }
  }

  /** A selector of the list that matches (or not) adds its entry (or none). */
  lemma SelectorStep(t: Tag, anc: seq<Tag>, sels: seq<string>, j: nat, style: Declarations, found: seq<Matched>, b: bool)
    requires j < |sels| && Matches(t, anc, sels[j]) == Ok(b)
    ensures Prepend(found, SelectorMatches(t, anc, sels[j..], style))
      == Prepend(found + (if b then [Matched(GetSpecificity(sels[j]), style)] else []), SelectorMatches(t, anc, sels[j + 1..], style))
  {
    var here := if b then [Matched(GetSpecificity(sels[j]), style)] else [];
    var rest := SelectorMatches(t, anc, sels[j + 1..], style);
    assert sels[j..][0] == sels[j] && sels[j..][1..] == sels[j + 1..];
    assert SelectorMatches(t, anc, sels[j..], style) == Prepend(here, rest);
    PrependAssoc(found, here, rest);
  }

  lemma PrependAssoc(a: seq<Matched>, b: seq<Matched>, r: Result<seq<Matched>>)
    ensures Prepend(a, Prepend(b, r)) == Prepend(a + b, r)
  {
    match r {
      case Ok(ms) => assert a + (b + ms) == (a + b) + ms;
      case Err(_) =>
    }
  }

  /** A selector that raises ends the list with its exception. */
  lemma SelectorFails(t: Tag, anc: seq<Tag>, sels: seq<string>, j: nat, style: Declarations, found: seq<Matched>, msg: string)
    requires j < |sels| && Matches(t, anc, sels[j]) == Err(msg)
    ensures Prepend(found, SelectorMatches(t, anc, sels[j..], style)) == Err(msg)
  {
    assert sels[j..][0] == sels[j];
  }

  /** The rule loop of `_compute_styles`: the unsorted `matching_rules`. */
  method CollectMatchingRules(t: Tag, anc: seq<Tag>, sheet: seq<Rule>) returns (r: Result<seq<Matched>>)
    ensures r == MatchingRules(t, anc, sheet)
  {
    var matching: seq<Matched> := [];
    var i := 0;
    assert sheet[0..] == sheet;
    match MatchingRules(t, anc, sheet) {
      case Ok(ms) => assert [] + ms == ms;
      case Err(_) =>
    }
    while i < |sheet|
      invariant 0 <= i <= |sheet|
      invariant MatchingRules(t, anc, sheet) == Prepend(matching, MatchingRules(t, anc, sheet[i..]))
    {
      assert sheet[i..][1..] == sheet[i + 1..];
      match sheet[i] {
        case OtherRule =>
        case StyleRule(sels, style) =>
          var found := MatchRuleSelectors(t, anc, sels, style);
          if found.Err? {
            return Err(found.msg);
          }
          match MatchingRules(t, anc, sheet[i + 1..]) {
            case Ok(ms) => assert matching + (found.value + ms) == (matching + found.value) + ms;
            case Err(_) =>
          }
          matching := matching + found.value;
      }
      i := i + 1;
    }
    assert sheet[i..] == [];
    assert matching + [] == matching;
    return Ok(matching);
  }

  /** One more declaration assigned. */
  lemma ApplyStep(d: Dict<string>, cs: Declarations, k: nat, name: string, value: string)
    requires k < |cs| && cs[k] == (name, value)
    ensures PutAll(d, cs[..k + 1]) == Put(PutAll(d, cs[..k]), name, value)
  {
    assert cs[..k + 1] == cs[..k] + [(name, value)];
    PutAllSnoc(d, cs[..k], name, value);
  }

  /** Assign one block's declarations, camel-casing each name. */
  method ApplyDecls(d: Dict<string>, decls: Declarations) returns (computed: Dict<string>)
    ensures computed == PutAll(d, CamelDecls(decls))
  {
    computed := d;
    ghost var cs := CamelDecls(decls);
    var k := 0;
    while k < |decls|
      invariant 0 <= k <= |decls|
      invariant computed == PutAll(d, cs[..k])
    {
      ApplyStep(d, cs, k, CamelCase(decls[k].0), decls[k].1);
      computed := Put(computed, CamelCase(decls[k].0), decls[k].1);
      k := k + 1;
    }
    assert cs[..k] == cs;
  }

  /** The assignment loop of `_compute_styles`: every declaration of the
      sorted contributions, in order. */
  method ApplyAll(sorted: seq<Matched>) returns (computed: Dict<string>)
    ensures computed == PutAll([], Flatten(sorted))
  {
    computed := [];
    var n := 0;
    while n < |sorted|
      invariant 0 <= n <= |sorted|
      invariant computed == PutAll([], Flatten(sorted[..n]))
    {
      assert sorted[..n + 1][..n] == sorted[..n];
      PutAllAppend([], Flatten(sorted[..n]), CamelDecls(sorted[n].style));
      computed := ApplyDecls(computed, sorted[n].style);
      n := n + 1;
    }
    assert sorted[..n] == sorted;
  }

  /** `_compute_styles` as the source runs it: collect, sort, then assign. */
  method ComputeStyles(t: Tag, anc: seq<Tag>, sheet: seq<Rule>) returns (r: Result<Dict<string>>)
    ensures r == ComputedStyles(t, anc, sheet)
  {
    var matching := CollectMatchingRules(t, anc, sheet);
    if matching.Err? {
      return Err(matching.msg);
    }
    var sorted := Sort(matching.value, BySpecificity());
    var computed := ApplyAll(sorted);
    return Ok(computed);
  }
}

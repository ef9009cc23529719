/** Property-name case conversion. The importers turn CSS names such as
    `background-color` into the camelCase keys of a component's style
    (`_camel_case`, and the same expression inside `css_to_json`); the
    exporters turn the keys back with `re.sub(r'(?<!^)(?=[A-Z])', '-', key).lower()`. */
module Casing {
  import opened Text

  /** `parts[0] + ''.join(x.capitalize() for x in parts[1:])` over the pieces of `s.split('-')`. */
  function CamelCase(s: string): (r: string)
    ensures '-' !in s ==> r == s
  {
    var parts := Split(s, '-');
    parts[0] + CapitalizeAll(parts[1..])
  }

  function CapitalizeAll(parts: seq<string>): (r: string)
  {
    if parts == [] then [] else Capitalize(parts[0]) + CapitalizeAll(parts[1..])
  }

  /** Insert `-` before every upper-case letter that is not the first character. */
  function Hyphenate(s: string, atStart: bool): (r: string)
  {
    if s == [] then []
    else (if !atStart && IsUpper(s[0]) then "-" else "") + [s[0]] + Hyphenate(s[1..], false)
  }

  /** The exporters' camelCase-to-kebab-case conversion. */
  function Kebab(key: string): (r: string)
    ensures forall c :: c in r ==> !IsUpper(c)
    ensures (forall c :: c in key ==> !IsUpper(c)) ==> r == key
  {
    if NoUpper(key) then
      NoUpperHyphenate(key, true);
      NoUpperLower(key);
      Lower(Hyphenate(key, true))
    else Lower(Hyphenate(key, true))
  }

  predicate NoUpper(s: string) { forall c :: c in s ==> !IsUpper(c) }

  /** A CSS property name written in kebab case: non-empty segments of
      lower-case letters and digits, every segment after the first starting
      with a letter. */
  predicate IsKebabName(name: string)
  {
    var segs := Split(name, '-');
    (forall i :: 0 <= i < |segs| ==> segs[i] != [] && forall c :: c in segs[i] ==> IsLower(c) || IsDigit(c))
    && (forall i :: 1 <= i < |segs| ==> IsLower(segs[i][0]))
  }

  /** A style key in camel case: letters and digits, not starting with an
      upper-case letter. */
  predicate IsCamelKey(key: string)
  {
    (forall c :: c in key ==> IsLetter(c) || IsDigit(c)) && (key != [] ==> !IsUpper(key[0]))
  }

  lemma NoUpperLower(s: string)
    requires NoUpper(s)
    ensures Lower(s) == s
  {
  }

  lemma NoUpperHyphenate(s: string, atStart: bool)
    requires NoUpper(s)
    ensures Hyphenate(s, atStart) == s
  {
    if s != [] {
      assert s[0] in s;
      NoUpperHyphenate(s[1..], false);
    }
  }

  lemma {:induction false} LowerAppend(a: string, b: string)
    ensures Lower(a + b) == Lower(a) + Lower(b)
  {
  }

  lemma {:induction false} HyphenateAppend(a: string, b: string, atStart: bool)
    ensures Hyphenate(a + b, atStart) == Hyphenate(a, atStart) + Hyphenate(b, atStart && a == [])
    decreases |a|
  {
    if a != [] {
      assert (a + b)[0] == a[0];
      assert (a + b)[1..] == a[1..] + b;
      HyphenateAppend(a[1..], b, false);
    } else {
      assert a + b == b;
    }
  }

  /** `Join(ps, sep)` is the first piece followed by `sep + p` for every later piece. */
  function SepPrefixed(ps: seq<string>, sep: string): string
  {
    if ps == [] then [] else sep + ps[0] + SepPrefixed(ps[1..], sep)
  }

  lemma {:induction false} JoinAsPrefixed(ps: seq<string>, sep: string)
    requires |ps| >= 1
    ensures Join(ps, sep) == ps[0] + SepPrefixed(ps[1..], sep)
  {
    if |ps| > 1 {
      JoinAsPrefixed(ps[1..], sep);
      assert ps[1..][1..] == ps[2..];
    }
  }

  /** A capitalized segment gets its hyphen back and is lower-cased again. */
  lemma KebabOfCapitalizedSegment(p: string)
    requires p != [] && IsLower(p[0]) && NoUpper(p)
    ensures Lower(Hyphenate(Capitalize(p), false)) == "-" + p
  {
    var cp := Capitalize(p);
    assert NoUpper(p[1..]) by { forall c | c in p[1..] ensures !IsUpper(c) { assert c in p; } }
    NoUpperLower(p[1..]);
    NoUpperHyphenate(p[1..], false);
    assert cp[1..] == p[1..];
    assert Hyphenate(cp, false) == "-" + [cp[0]] + p[1..];
    assert Lower("-" + [cp[0]] + p[1..]) == "-" + p;
  }

  lemma {:induction false} KebabOfCapitalized(ps: seq<string>)
    requires forall i :: 0 <= i < |ps| ==> ps[i] != [] && IsLower(ps[i][0]) && NoUpper(ps[i])
    ensures Lower(Hyphenate(CapitalizeAll(ps), false)) == SepPrefixed(ps, "-")
  {
    if ps != [] {
      var cp := Capitalize(ps[0]);
      var tail := Hyphenate(CapitalizeAll(ps[1..]), false);
      HyphenateAppend(cp, CapitalizeAll(ps[1..]), false);
      LowerAppend(Hyphenate(cp, false), tail);
      KebabOfCapitalizedSegment(ps[0]);
      KebabOfCapitalized(ps[1..]);
    }
  }

  /** Round trip: camel-casing a kebab-case property name and converting the
      key back gives the name. */
  lemma KebabOfCamelCase(name: string)
    requires IsKebabName(name)
    ensures Kebab(CamelCase(name)) == name
  {
    var segs := Split(name, '-');
    var first := segs[0];
    assert NoUpper(first) by {
      forall c | c in first ensures !IsUpper(c) { }
    }
    forall i | 0 <= i < |segs[1..]|
      ensures segs[1..][i] != [] && IsLower(segs[1..][i][0]) && NoUpper(segs[1..][i])
    {
      assert segs[1..][i] == segs[i + 1];
      forall c | c in segs[i + 1] ensures !IsUpper(c) { }
    }
    KebabOfCapitalized(segs[1..]);
    HyphenateAppend(first, CapitalizeAll(segs[1..]), true);
    NoUpperHyphenate(first, true);
    LowerAppend(first, Hyphenate(CapitalizeAll(segs[1..]), false));
    NoUpperLower(first);
    JoinAsPrefixed(segs, "-");
  }

  /** The pieces `Kebab` separates with hyphens: a new piece starts at every
      upper-case letter that is not the first character. */
  function Humps(s: string): (r: seq<string>)
    ensures |r| >= 1
    ensures s != [] ==> r[0] != [] && r[0][0] == s[0]
  {
    if s == [] then [[]]
    else
      var rest := Humps(s[1..]);
      if s[1..] != [] && IsUpper(s[1]) then [[s[0]]] + rest
      else [[s[0]] + rest[0]] + rest[1..]
  }

  lemma {:induction false} HyphenateIsJoinOfHumps(s: string)
    ensures Hyphenate(s, true) == Join(Humps(s), "-")
    ensures s != [] ==> Hyphenate(s[1..], false) == (if s[1..] != [] && IsUpper(s[1]) then "-" else "") + Join(Humps(s[1..]), "-")
  {
    if s != [] {
      HyphenateIsJoinOfHumps(s[1..]);
      HyphenateNotAtStart(s[1..]);
      HumpsStep(s);
    }
  }

  /** One character more in front of the name. */
  lemma HumpsStep(s: string)
    requires s != [] && Hyphenate(s[1..], true) == Join(Humps(s[1..]), "-")
    requires Hyphenate(s[1..], false) == (if s[1..] != [] && IsUpper(s[1]) then "-" else "") + Hyphenate(s[1..], true)
    ensures Hyphenate(s, true) == Join(Humps(s), "-")
  {
    var t := s[1..];
    var rest := Humps(t);
    assert Hyphenate(s, true) == [s[0]] + Hyphenate(t, false);
    if t != [] && IsUpper(t[0]) {
      assert Humps(s) == [[s[0]]] + rest;
      JoinCons([s[0]], rest, "-");
    } else {
      assert Humps(s) == [[s[0]] + rest[0]] + rest[1..];
      JoinPrepend([s[0]], rest, "-");
    }
  }

  /** Inside a name, a leading upper-case letter gets a hyphen before it. */
  lemma HyphenateNotAtStart(t: string)
    ensures Hyphenate(t, false) == (if t != [] && IsUpper(t[0]) then "-" else "") + Hyphenate(t, true)
  {
  }

  lemma JoinCons(a: string, rest: seq<string>, sep: string)
    requires |rest| >= 1
    ensures Join([a] + rest, sep) == a + sep + Join(rest, sep)
  {
    assert ([a] + rest)[1..] == rest;
  }

  /** Characters put before the first part of a join come first. */
  lemma JoinPrepend(c: string, parts: seq<string>, sep: string)
    requires |parts| >= 1
    ensures Join([c + parts[0]] + parts[1..], sep) == c + Join(parts, sep)
  {
    var ps := [c + parts[0]] + parts[1..];
    if |parts| > 1 {
      assert ps[1..] == parts[1..];
    }
  }

  lemma HumpsShape(s: string)
    requires IsCamelKey(s)
    ensures forall i :: 0 <= i < |Humps(s)| ==> '-' !in Humps(s)[i] && forall c :: c in Humps(s)[i] ==> IsLetter(c) || IsDigit(c)
    ensures NoUpper(Humps(s)[0])
    ensures forall i :: 1 <= i < |Humps(s)| ==> Humps(s)[i] != [] && IsUpper(Humps(s)[i][0]) && NoUpper(Humps(s)[i][1..])
    ensures Concat(Humps(s)) == s
  {
    HumpsTail(s);
    if s != [] {
      FirstHump(Humps(s)[0], s[0]);
    }
  }

  /** A hump that starts with a character that is not upper case and has no
      upper case after it has none at all. */
  lemma FirstHump(h: string, c: char)
    requires h != [] && h[0] == c && !IsUpper(c) && NoUpper(h[1..])
    ensures NoUpper(h)
  {
    assert forall x :: x in h ==> x == h[0] || x in h[1..];
  }

  /** The humps of a suffix of a camel key, whose first letter may be upper case. */
  lemma HumpsTail(s: string)
    requires forall c :: c in s ==> IsLetter(c) || IsDigit(c)
    ensures forall i :: 0 <= i < |Humps(s)| ==> '-' !in Humps(s)[i] && forall c :: c in Humps(s)[i] ==> IsLetter(c) || IsDigit(c)
    ensures s != [] ==> NoUpper(Humps(s)[0][1..])
    ensures forall i :: 1 <= i < |Humps(s)| ==> Humps(s)[i] != [] && IsUpper(Humps(s)[i][0]) && NoUpper(Humps(s)[i][1..])
    ensures Concat(Humps(s)) == s
  {
    HumpsChars(s);
    forall i | 0 <= i < |Humps(s)|
      ensures '-' !in Humps(s)[i] && forall c :: c in Humps(s)[i] ==> IsLetter(c) || IsDigit(c)
    {
      assert !IsLetter('-') && !IsDigit('-');
    }
    HumpsUpper(s);
    HumpsConcat(s);
  }

  /** Every character of a hump comes from the string. */
  lemma {:induction false} HumpsChars(s: string)
    ensures forall i, c :: 0 <= i < |Humps(s)| && c in Humps(s)[i] ==> c in s
  {
    if s != [] {
      var rest := Humps(s[1..]);
      HumpsChars(s[1..]);
      var hs := Humps(s);
      forall i, c | 0 <= i < |hs| && c in hs[i] ensures c in s {
        assert forall x :: x in s[1..] ==> x in s;
        if s[1..] != [] && IsUpper(s[1]) {
          assert hs == [[s[0]]] + rest;
          if i > 0 { assert hs[i] == rest[i - 1]; }
        } else {
          assert hs == [[s[0]] + rest[0]] + rest[1..];
          if i > 0 { assert hs[i] == rest[i]; }
        }
      }
    }
  }

  /** Every hump after the first starts with its only upper-case letter;
      the first has none after its first character. */
  lemma {:induction false} HumpsUpper(s: string)
    ensures s != [] ==> NoUpper(Humps(s)[0][1..])
    ensures forall i :: 1 <= i < |Humps(s)| ==> Humps(s)[i] != [] && IsUpper(Humps(s)[i][0]) && NoUpper(Humps(s)[i][1..])
  {
    if s != [] {
      var rest := Humps(s[1..]);
      HumpsUpper(s[1..]);
      var hs := Humps(s);
      if s[1..] != [] && IsUpper(s[1]) {
        assert hs == [[s[0]]] + rest;
        assert hs[0][1..] == [];
        assert forall i :: 1 <= i < |hs| ==> hs[i] == rest[i - 1];
      } else {
        assert hs == [[s[0]] + rest[0]] + rest[1..];
        assert hs[0][1..] == rest[0];
        if s[1..] != [] {
          FirstHump(rest[0], s[1]);
        }
        assert forall i :: 1 <= i < |hs| ==> hs[i] == rest[i];
      }
    }
  }

  /** The humps put back together are the string. */
  lemma {:induction false} HumpsConcat(s: string)
    ensures Concat(Humps(s)) == s
  {
    if s != [] {
      var rest := Humps(s[1..]);
      HumpsConcat(s[1..]);
      if s[1..] != [] && IsUpper(s[1]) {
        assert Humps(s) == [[s[0]]] + rest;
        assert Concat(Humps(s)) == [s[0]] + Concat(rest);
      } else {
        assert Humps(s) == [[s[0]] + rest[0]] + rest[1..];
        assert Concat(rest) == rest[0] + Concat(rest[1..]);
      }
    }
  }

  function LowerAll(ps: seq<string>): (r: seq<string>)
    ensures |r| == |ps|
    ensures forall i :: 0 <= i < |ps| ==> r[i] == Lower(ps[i])
  {
    if ps == [] then [] else [Lower(ps[0])] + LowerAll(ps[1..])
  }

  lemma {:induction false} LowerJoin(ps: seq<string>)
    ensures Lower(Join(ps, "-")) == Join(LowerAll(ps), "-")
  {
    if |ps| > 1 {
      LowerJoin(ps[1..]);
      LowerAppend(ps[0] + "-", Join(ps[1..], "-"));
      LowerAppend(ps[0], "-");
      assert LowerAll(ps)[1..] == LowerAll(ps[1..]);
    }
  }

  /** Splitting a join of hyphen-free pieces gives the pieces back. */
  lemma {:induction false} SplitJoin(ps: seq<string>, sep: char)
    requires |ps| >= 1
    requires forall i :: 0 <= i < |ps| ==> sep !in ps[i]
    ensures Split(Join(ps, [sep]), sep) == ps
    decreases |ps|, |ps[0]|
  {
    var s := Join(ps, [sep]);
    if |ps| == 1 {
    } else if ps[0] == [] {
      assert s == [sep] + Join(ps[1..], [sep]);
      assert s[1..] == Join(ps[1..], [sep]);
      SplitJoin(ps[1..], sep);
    } else {
      var ps' := [ps[0][1..]] + ps[1..];
      assert ps'[1..] == ps[1..];
      SplitJoin(ps', sep);
      assert s == ps[0] + [sep] + Join(ps[1..], [sep]);
      assert Join(ps', [sep]) == ps[0][1..] + [sep] + Join(ps[1..], [sep]);
      assert s[1..] == Join(ps', [sep]);
      assert s[0] == ps[0][0];
      assert ps[0][0] != sep by { assert ps[0][0] in ps[0]; }
      assert Split(s, sep) == [[s[0]] + ps'[0]] + ps'[1..];
      assert [ps[0][0]] + ps[0][1..] == ps[0];
      assert ps == [ps[0]] + ps[1..];
    }
  }

  function CapitalizeLowered(ps: seq<string>): (r: string)
    ensures r == CapitalizeAll(LowerAll(ps))
  {
    assert LowerAll(ps) == [] || LowerAll(ps)[1..] == LowerAll(ps[1..]);
    if ps == [] then [] else Capitalize(Lower(ps[0])) + CapitalizeLowered(ps[1..])
  }

  lemma {:induction false} CapitalizeLoweredHumps(ps: seq<string>)
    requires forall i :: 0 <= i < |ps| ==> ps[i] != [] && IsUpper(ps[i][0]) && NoUpper(ps[i][1..])
    ensures CapitalizeLowered(ps) == Concat(ps)
  {
    if ps != [] {
      CapitalizeLoweredHumps(ps[1..]);
      var p := ps[0];
      var l := Lower(p);
      assert l[1..] == Lower(p[1..]);
      NoUpperLower(p[1..]);
      assert ToUpper(ToLower(p[0])) == p[0];
      assert Lower(l[1..]) == p[1..];
      assert Capitalize(l) == p;
    }
  }

  /** Round trip: kebab-casing a camelCase style key and camel-casing the
      result gives the key back. */
  lemma KebabThenCamelCase(key: string)
    requires IsCamelKey(key)
    ensures CamelCase(Kebab(key)) == key
  {
    var hs := Humps(key);
    HumpsShape(key);
    HyphenateIsJoinOfHumps(key);
    LowerJoin(hs);
    var ls := LowerAll(hs);
    SplitJoin(ls, '-');
    assert Kebab(key) == Join(ls, "-");
    NoUpperLower(hs[0]);
    assert ls[1..] == LowerAll(hs[1..]);
    forall i | 0 <= i < |hs[1..]|
      ensures hs[1..][i] != [] && IsUpper(hs[1..][i][0]) && NoUpper(hs[1..][i][1..])
    {
      assert hs[1..][i] == hs[i + 1];
    }
    CapitalizeLoweredHumps(hs[1..]);
    assert Concat(hs) == hs[0] + Concat(hs[1..]);
  }
}

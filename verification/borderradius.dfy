/** The `border-radius` shorthand as the first editor's properties panel
    reads it (`parseBorderRadius` in the editor page of `MMM.py`) and
    writes one corner of it back. */
module BorderRadius {
  import opened Wrappers
  import opened Text

  /** The pieces that are not empty, in order (`filter(p => p)`). */
  function NonEmpty(ps: seq<string>): (r: seq<string>)
    ensures |r| <= |ps|
    ensures forall i :: 0 <= i < |r| ==> r[i] != [] && r[i] in ps
  {
    if ps == [] then []
    else if ps[0] == [] then NonEmpty(ps[1..])
    else [ps[0]] + NonEmpty(ps[1..])
  }

  /** The values of a shorthand: the non-empty pieces between single
      spaces. */
  function Values(s: string): (r: seq<string>)
    ensures forall i :: 0 <= i < |r| ==> r[i] != [] && ' ' !in r[i]
  {
    NonEmpty(Split(s, ' '))
  }

  /** `parseBorderRadius`: the top-left, top-right, bottom-right and
      bottom-left radii. `None` is an input that is not a string; it and
      the empty string give four empty radii, and so does a string with
      no values. */
  function ParseBorderRadius(radius: Option<string>): (r: seq<string>)
    ensures |r| == 4
    ensures radius.None? || Values(radius.value) == [] ==> r == ["", "", "", ""]
  {
    if radius.None? || radius.value == "" then ["", "", "", ""]
    else
      var parts := Values(radius.value);
      if |parts| == 1 then [parts[0], parts[0], parts[0], parts[0]]
      else if |parts| == 2 then [parts[0], parts[1], parts[0], parts[1]]
      else if |parts| == 3 then [parts[0], parts[1], parts[2], parts[1]]
      else if |parts| >= 4 then parts[..4]
      else ["", "", "", ""]
  }

  /** Corner `k` (top-left, top-right, bottom-right, bottom-left) of one to
      four given values, as section 5.1 of CSS Backgrounds and Borders
      Module Level 3 completes them: an omitted top-right or bottom-right
      is the top-left, an omitted bottom-left is the top-right. */
  function Corner(vs: seq<string>, k: nat): string
    requires 1 <= |vs| <= 4 && k < 4
    decreases k
  {
    if k < |vs| then vs[k]
    else if k == 1 || k == 2 then vs[0]
    else Corner(vs, 1)
  }

  /** One to four values are completed as CSS completes them; beyond four
      the first four are kept. Every radius read is one of the values. */
  lemma ExpandsAsCss(s: string)
    ensures var vs := Values(s);
      1 <= |vs| <= 4 ==> forall k :: 0 <= k < 4 ==> ParseBorderRadius(Some(s))[k] == Corner(vs, k)
    ensures |Values(s)| >= 4 ==> ParseBorderRadius(Some(s)) == Values(s)[..4]
    ensures forall k :: 0 <= k < 4 && ParseBorderRadius(Some(s))[k] != "" ==> ParseBorderRadius(Some(s))[k] in Values(s)
  {
    if s == "" {
      assert Split(s, ' ') == [[]];
      assert Values(s) == [];
    }
  }

  /** Cutting a string at its first separator. */
  lemma {:induction false} SplitAtFirst(a: string, sep: char, rest: string)
    requires sep !in a
    ensures Split(a + [sep] + rest, sep) == [a] + Split(rest, sep)
  {
    if a == [] {
      assert a + [sep] + rest == [sep] + rest;
      assert ([sep] + rest)[1..] == rest;
    } else {
      var s := a + [sep] + rest;
      assert s[0] == a[0] && s[0] != sep;
      assert s[1..] == a[1..] + [sep] + rest;
      SplitAtFirst(a[1..], sep, rest);
      var tail := Split(s[1..], sep);
      assert tail[0] == a[1..] && tail[1..] == Split(rest, sep);
      assert Split(s, sep) == [[s[0]] + tail[0]] + tail[1..];
      assert [a[0]] + a[1..] == a;
    }
  }

  /** Splitting a join gives back the pieces when none holds the
      separator. */
  lemma {:induction false} SplitJoin(ps: seq<string>, sep: char)
    requires |ps| >= 1
    requires forall i :: 0 <= i < |ps| ==> sep !in ps[i]
    ensures Split(Join(ps, [sep]), sep) == ps
  {
    if |ps| > 1 {
      SplitJoin(ps[1..], sep);
      SplitAtFirst(ps[0], sep, Join(ps[1..], [sep]));
      assert [ps[0]] + ps[1..] == ps;
    }
  }

  lemma {:induction false} AllNonEmpty(ps: seq<string>)
    requires forall i :: 0 <= i < |ps| ==> ps[i] != []
    ensures NonEmpty(ps) == ps
  {
    if ps != [] {
      AllNonEmpty(ps[1..]);
      assert [ps[0]] + ps[1..] == ps;
    }
  }

  /** Four radii written as the panel writes them (joined by single
      spaces) read back unchanged, provided none is empty or holds a
      space. */
  lemma JoinRoundTrip(radii: seq<string>)
    requires |radii| == 4
    requires forall k :: 0 <= k < 4 ==> radii[k] != "" && ' ' !in radii[k]
    ensures ParseBorderRadius(Some(Join(radii, " "))) == radii
  {
    var s := Join(radii, " ");
    SplitJoin(radii, ' ');
    AllNonEmpty(radii);
    assert Values(s) == radii;
    assert s != "" by {
      assert s == radii[0] + " " + Join(radii[1..], " ");
    }
  }

  /** The panel's edit of one corner: missing radii become `0px`, the
      chosen corner takes the new value, and the four are joined by single
      spaces. */
  function SetCorner(radius: Option<string>, corner: nat, value: string): (r: string)
    requires corner < 4
  {
    var current := ParseBorderRadius(radius);
    var parts := seq(4, k requires 0 <= k < 4 => if current[k] == "" then "0px" else current[k]);
    Join(parts[corner := value], " ")
  }

  /** After an edit the chosen corner reads back as the new value, and
      every other corner keeps its radius (`0px` where there was none). */
  lemma SetCornerReadBack(radius: Option<string>, corner: nat, value: string)
    requires corner < 4
    requires value != "" && ' ' !in value
    ensures var r := ParseBorderRadius(Some(SetCorner(radius, corner, value)));
      && r[corner] == value
      && forall k :: 0 <= k < 4 && k != corner ==>
        r[k] == if ParseBorderRadius(radius)[k] == "" then "0px" else ParseBorderRadius(radius)[k]
  {
    var current := ParseBorderRadius(radius);
    var parts := seq(4, k requires 0 <= k < 4 => if current[k] == "" then "0px" else current[k]);
    assert forall k :: 0 <= k < 4 && current[k] != "" ==> ' ' !in current[k] by {
      if radius.Some? {
        ExpandsAsCss(radius.value);
      }
    }
    assert "0px"[0] != ' ' && "0px"[1] != ' ' && "0px"[2] != ' ';
    JoinRoundTrip(parts[corner := value]);
  }
}

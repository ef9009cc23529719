/** The Lua exporter: the component trees become a menu structure for the
    Lua host (one level per menu, submenus after their parent), a table of
    state variables (two per element), and an HTML and a JS payload held in
    level-1 long strings `[=[ ... ]=]`. */
module LuaExport {
  import opened Wrappers
  import opened Text
  import opened ODict
  import opened Dom
  import opened Components
  import opened LuaLong
  import Exporter

  // Long-string escaping

  /** `sanitize_for_lua_multiline` as the source writes it: `[=[` becomes
      `[==[`, then `]=]` becomes `]==]`. */
  function SanitizeAsWritten(s: string): (r: string)
    ensures !Contains(s, "[=[") && !Contains(s, "]=]") ==> r == s
  {
    if s == "" then "" else ReplaceAll(ReplaceAll(s, "[=[", "[==["), "]=]", "]==]")
  }

  /** The replacement is not enough: its output can still hold the closing
      bracket, and Lua then ends the payload early and does not read the
      literal the source means. */
  lemma SanitizeAsWrittenLeaks()
    ensures SanitizeAsWritten("]=]=]") == "]==]=]"
    ensures Contains(SanitizeAsWritten("]=]=]"), "]=]")
    ensures LongStringValue(Bracketed(SanitizeAsWritten("]=]=]"), 1), 1) == None
  {
    var s := "]=]=]";
    assert ReplaceAll(s[4..], "[=[", "[==[") == s[4..];
    assert ReplaceAll(s[3..], "[=[", "[==[") == s[3..];
    assert ReplaceAll(s[2..], "[=[", "[==[") == s[2..];
    assert ReplaceAll(s[1..], "[=[", "[==[") == s[1..];
    assert ReplaceAll(s, "[=[", "[==[") == s;
    assert ReplaceAll(s[3..], "]=]", "]==]") == s[3..];
    assert ReplaceAll(s, "]=]", "]==]") == "]==]" + s[3..];
    assert OccursAt("]==]=]", "]=]", 3);
    var lit := Bracketed("]==]=]", 1);
    assert Opener(1) == "[=[" && Closer(1) == "]=]";
    assert lit == "[=[]==]=]]=]";
    assert lit[3..|lit| - 1] == "]==]=]]=";
    assert OccursAt(lit[3..|lit| - 1], Closer(1), 3);
  }

  /** The escaped payload, in the source's level-1 bracket, reads back as
      the payload when the payload holds neither `[=[` nor a bracket it
      could close early; Lua drops a line break at its start. */
  lemma AsWrittenReadBack(s: string)
    requires !Contains(s, "[=[") && !ClosesEarly(s, 1) && '\r' !in s
    ensures LongStringValue(Bracketed(SanitizeAsWritten(s), 1), 1) == Some(if s != [] && s[0] == '\n' then s[1..] else s)
  {
    assert "]" + Equals(1) == "]=" && Closer(1) == "]=]";
    if Contains(s, "]=]") {
      var i :| 0 <= i <= |s| - 3 && OccursAt(s, "]=]", i);
      assert (s + "]=")[i..i + 3] == s[i..i + 3];
      assert OccursAt(s + "]" + Equals(1), Closer(1), i);
    }
    BracketedReadBack(s, 1);
  }

  /** The bracket level the payload needs: the lowest from 1 whose closing
      bracket the payload cannot produce early. */
  function PayloadLevel(s: string): (n: nat)
    ensures n >= 1 && !ClosesEarly(s, n)
    ensures forall m :: 1 <= m < n ==> ClosesEarly(s, m)
    ensures !ClosesEarly(s, 1) ==> n == 1
  {
    LevelFrom(s, 1)
  }

  /** The long string the payload needs: the payload unchanged, after a
      line break, in a bracket of its own level. */
  function LongString(s: string): (r: string)
  {
    Bracketed("\n" + s, PayloadLevel(s))
  }

  /** The corrected literal reads back as the payload itself, whatever the
      payload holds (a carriage return aside, which Lua converts), and keeps
      the source's level 1 wherever that already sufficed. */
  lemma LongStringReadBack(s: string)
    requires '\r' !in s
    ensures LongStringValue(LongString(s), PayloadLevel(s)) == Some(s)
  {
    BreakKeepsOpen(s, PayloadLevel(s));
    BracketedReadBack("\n" + s, PayloadLevel(s));
    assert ("\n" + s)[1..] == s;
  }

  // Menu items

  /** The component has a child that is not a text node. */
  predicate HasElementChildren(c: Comp)
  {
    exists i :: 0 <= i < |c.children| && !IsTextNode(c.children[i])
  }

  /** `name in attributes.get('class', [])`: a token of the class list, or a
      substring when the class is stored as one string. */
  predicate HasClass(c: Comp, name: string)
  {
    match Get(c.attributes, "class")
    case None => false
    case Some(v) => PyIn(name, v)
  }

  /** The item's kind, decided in the source's order: `checkbox` by class,
      then `slider` by class (`slidercb` on a checkbox), then `submenu` for
      any element child. */
  function MenuType(c: Comp): (r: string)
    ensures HasElementChildren(c) ==> r == "submenu"
    ensures !HasElementChildren(c) ==>
      (r == "slidercb" <==> HasClass(c, "slider") && HasClass(c, "checkbox"))
      && (r == "slider" <==> HasClass(c, "slider") && !HasClass(c, "checkbox"))
      && (r == "checkbox" <==> !HasClass(c, "slider") && HasClass(c, "checkbox"))
      && (r == "action" <==> !HasClass(c, "slider") && !HasClass(c, "checkbox"))
  {
    var byCheckbox := if HasClass(c, "checkbox") then "checkbox" else "action";
    var bySlider := if HasClass(c, "slider") then (if byCheckbox == "checkbox" then "slidercb" else "slider") else byCheckbox;
    if HasElementChildren(c) then "submenu" else bySlider
  }

  /** The item's label: the stripped text of the first text-node child, or
      `""`. */
  function MenuLabel(children: seq<Comp>): (r: string)
    ensures (forall i :: 0 <= i < |children| ==> !IsTextNode(children[i])) ==> r == ""
    ensures forall i :: 0 <= i < |children| && IsTextNode(children[i]) && (forall j :: 0 <= j < i ==> !IsTextNode(children[j])) ==>
      r == Strip(children[i].text)
  {
    if children == [] then ""
    else if IsTextNode(children[0]) then Strip(children[0].text)
    else
      var rest := children[1..];
      var r := MenuLabel(rest);
      assert forall i :: 0 <= i < |children| && IsTextNode(children[i]) && (forall j :: 0 <= j < i ==> !IsTextNode(children[j])) ==>
        r == Strip(children[i].text)
      by {
        forall i | 0 <= i < |children| && IsTextNode(children[i]) && (forall j :: 0 <= j < i ==> !IsTextNode(children[j]))
          ensures r == Strip(children[i].text)
        {
          assert i != 0 && rest[i - 1] == children[i];
          forall j | 0 <= j < i - 1
            ensures !IsTextNode(rest[j])
          {
            assert rest[j] == children[j + 1];
          }
        }
      }
      assert (forall i :: 0 <= i < |children| ==> !IsTextNode(children[i])) ==> r == "" by {
        if forall i :: 0 <= i < |children| ==> !IsTextNode(children[i]) {
          forall i | 0 <= i < |rest|
            ensures !IsTextNode(rest[i])
          {
            assert rest[i] == children[i + 1];
          }
        }
      }
      r
  }

  /** An id as a Lua identifier: `-` becomes `_`. */
  function LuaId(id: string): (r: string)
    ensures '-' !in r && |r| == |id|
    ensures forall i :: 0 <= i < |id| ==> r[i] == id[i] || (id[i] == '-' && r[i] == '_')
  {
    ReplaceChar(id, '-', '_')
  }

  /** A Python list of strings as an f-string prints it. */
  function PyListRepr(items: seq<string>): string
  {
    "[" + Join(seq(|items|, i requires 0 <= i < |items| => "'" + items[i] + "'"), ", ") + "]"
  }

  /** `attributes.get(key, default)` as an f-string prints it. */
  function AttrOr(c: Comp, key: string, default: string): (r: string)
    ensures !HasKey(c.attributes, key) ==> r == default
  {
    match Get(c.attributes, key)
    case None => default
    case Some(v) => match v case Str(s) => s case Tokens(items) => PyListRepr(items)
  }

  /** The fields of `component_to_lua_table`, in order, for an item of the
      given kind. */
  function TableParts(c: Comp, kind: string): seq<string>
  {
    var id := LuaId(c.id);
    ["text = \"" + MenuLabel(c.children) + "\"", "type = \"" + kind + "\""]
    + (if kind == "submenu" then ["target = \"" + c.id + "\""] else [])
    + (if kind != "action" && kind != "submenu" then
        ["state = Functions." + id + "_state",
         "action = function(s, v) Functions." + id + "_state, Functions." + id + "_value = s, v end"]
       else [])
    + (if StartsWith(kind, "slider") then
        ["value = Functions." + id + "_value",
         "min = " + AttrOr(c, "data-min", "0"),
         "max = " + AttrOr(c, "data-max", "100"),
         "step = " + AttrOr(c, "data-step", "1")]
       else [])
  }

  function ComponentToLuaTable(c: Comp): string
  {
    "{ " + Join(TableParts(c, MenuType(c)), ", ") + " }"
  }

  /** What each kind of item carries: a label and a type always; a submenu
      its target level; a toggle its state variable and setter; a slider
      also its value and its bounds (0, 100 and step 1 by default). */
  lemma ItemFields(c: Comp, kind: string)
    requires kind in {"action", "submenu", "checkbox", "slider", "slidercb"}
    ensures var parts := TableParts(c, kind);
      && parts[0] == "text = \"" + MenuLabel(c.children) + "\""
      && parts[1] == "type = \"" + kind + "\""
      && (kind == "action" ==> |parts| == 2)
      && (kind == "submenu" ==> |parts| == 3 && parts[2] == "target = \"" + c.id + "\"")
      && (kind == "checkbox" ==> |parts| == 4 && parts[2] == "state = Functions." + LuaId(c.id) + "_state")
      && (kind in {"slider", "slidercb"} ==>
            |parts| == 8
            && parts[2] == "state = Functions." + LuaId(c.id) + "_state"
            && parts[4] == "value = Functions." + LuaId(c.id) + "_value"
            && parts[5] == "min = " + AttrOr(c, "data-min", "0")
            && parts[6] == "max = " + AttrOr(c, "data-max", "100")
            && parts[7] == "step = " + AttrOr(c, "data-step", "1"))
  {
    SliderKinds(kind);
    if kind == "slider" || kind == "slidercb" {
      SliderParts(c, kind);
    }
  }

  lemma SliderKinds(kind: string)
    requires kind in {"action", "submenu", "checkbox", "slider", "slidercb"}
    ensures StartsWith(kind, "slider") <==> kind == "slider" || kind == "slidercb"
  {
    if kind == "slider" || kind == "slidercb" {
      assert kind[..6] == "slider";
    } else {
      assert kind[..6][1] != "slider"[1];
    }
  }

  lemma SliderParts(c: Comp, kind: string)
    requires StartsWith(kind, "slider") && kind != "action" && kind != "submenu"
    ensures var parts := TableParts(c, kind);
      |parts| == 8
      && parts[2] == "state = Functions." + LuaId(c.id) + "_state"
      && parts[4] == "value = Functions." + LuaId(c.id) + "_value"
      && parts[5] == "min = " + AttrOr(c, "data-min", "0")
      && parts[6] == "max = " + AttrOr(c, "data-max", "100")
      && parts[7] == "step = " + AttrOr(c, "data-step", "1")
  {
    var id := LuaId(c.id);
    var head := ["text = \"" + MenuLabel(c.children) + "\"", "type = \"" + kind + "\""];
    var state := ["state = Functions." + id + "_state",
         "action = function(s, v) Functions." + id + "_state, Functions." + id + "_value = s, v end"];
    var slider := ["value = Functions." + id + "_value",
         "min = " + AttrOr(c, "data-min", "0"),
         "max = " + AttrOr(c, "data-max", "100"),
         "step = " + AttrOr(c, "data-step", "1")];
    assert TableParts(c, kind) == head + [] + state + slider;
  }

  // Menu levels

  /** One menu of the structure: its key and the components it lists. */
  datatype Level = Level(key: string, comps: seq<Comp>)

  predicate IsSubmenu(c: Comp) { !IsTextNode(c) && HasElementChildren(c) }

  /** The components that open a submenu, in order. */
  function Submenus(comps: seq<Comp>): (r: seq<Comp>)
    ensures forall i :: 0 <= i < |r| ==> r[i] in comps && IsSubmenu(r[i])
  {
    if comps == [] then []
    else
      var init := comps[..|comps| - 1];
      var last := comps[|comps| - 1];
      assert forall k :: 0 <= k < |init| ==> comps[k] == init[k];
      Submenus(init) + (if IsSubmenu(last) then [last] else [])
  }

  /** Every component that opens a submenu is among the submenus. */
  lemma {:induction false} SubmenuListed(comps: seq<Comp>, k: nat) returns (m: nat)
    requires k < |comps| && IsSubmenu(comps[k])
    ensures m < |Submenus(comps)| && Submenus(comps)[m] == comps[k]
  {
    var init := comps[..|comps| - 1];
    if k == |comps| - 1 {
      m := |Submenus(init)|;
    } else {
      m := SubmenuListed(init, k);
    }
  }

  /** `build_menu_recursive`'s levels: the level itself, then for each of
      its submenus in order, that submenu's levels. */
  function MenuLevels(comps: seq<Comp>, key: string): (r: seq<Level>)
    ensures |r| >= 1 && r[0] == Level(key, comps)
    decreases comps, 1, 0
  {
    [Level(key, comps)] + LevelsOf(Submenus(comps), comps)
  }

  function LevelsOf(subs: seq<Comp>, ghost within: seq<Comp>): seq<Level>
    requires forall i :: 0 <= i < |subs| ==> subs[i] in within
    decreases within, 0, |subs|
  {
    if subs == [] then []
    else
      var last := subs[|subs| - 1];
      LevelsOf(subs[..|subs| - 1], within) + MenuLevels(last.children, last.id)
  }

  const BackItem := "            { text = \"Back\", type = \"back\" },"

  /** The components a level lists as items: those that are not text
      nodes, in order. */
  function ItemComps(comps: seq<Comp>): (r: seq<Comp>)
    ensures forall i :: 0 <= i < |r| ==> r[i] in comps && !IsTextNode(r[i])
  {
    if comps == [] then []
    else
      var init := comps[..|comps| - 1];
      var last := comps[|comps| - 1];
      assert forall k :: 0 <= k < |init| ==> comps[k] == init[k];
      ItemComps(init) + (if IsTextNode(last) then [] else [last])
  }

  /** Of two components that are not text nodes, the earlier is listed
      first. */
  lemma {:induction false} ItemsInOrder(comps: seq<Comp>, k1: nat, k2: nat) returns (m1: nat, m2: nat)
    requires k1 < k2 < |comps| && !IsTextNode(comps[k1]) && !IsTextNode(comps[k2])
    ensures m1 < m2 < |ItemComps(comps)|
    ensures ItemComps(comps)[m1] == comps[k1] && ItemComps(comps)[m2] == comps[k2]
  {
    var init := comps[..|comps| - 1];
    if k2 == |comps| - 1 {
      m1 := ItemListed(init, k1);
      m2 := |ItemComps(init)|;
    } else {
      m1, m2 := ItemsInOrder(init, k1, k2);
    }
  }

  /** Every component that is not a text node is listed. */
  lemma {:induction false} ItemListed(comps: seq<Comp>, k: nat) returns (m: nat)
    requires k < |comps| && !IsTextNode(comps[k])
    ensures m < |ItemComps(comps)| && ItemComps(comps)[m] == comps[k]
  {
    var init := comps[..|comps| - 1];
    if k == |comps| - 1 {
      m := |ItemComps(init)|;
    } else {
      m := ItemListed(init, k);
    }
  }

  /** The line of one menu item. */
  function ItemLine(c: Comp): string
  {
    "            " + ComponentToLuaTable(c) + ","
  }

  /** The menu items of a level: the table line of each listed component,
      in order. */
  function Items(comps: seq<Comp>): (r: seq<string>)
    ensures |r| == |ItemComps(comps)|
    ensures forall i :: 0 <= i < |r| ==> r[i] == ItemLine(ItemComps(comps)[i])
  {
    if comps == [] then []
    else
      var init := comps[..|comps| - 1];
      var last := comps[|comps| - 1];
      Items(init) + (if IsTextNode(last) then [] else [ItemLine(last)])
  }

  function Header(key: string): seq<string>
  {
    ["    " + key + " = {", "        title = \"" + Title(ReplaceChar(key, '_', ' ')) + "\",", "        items = {"]
  }

  const Footer: seq<string> := [BackItem, "        }", "    },"]

  /** The lines of one level: header, items, then the Back entry. */
  function Block(l: Level): (r: seq<string>)
    ensures |r| >= 6 && r[|r| - 3] == BackItem
  {
    Header(l.key) + Items(l.comps) + Footer
  }

  function Blocks(ls: seq<Level>): seq<string>
  {
    if ls == [] then [] else Blocks(ls[..|ls| - 1]) + Block(ls[|ls| - 1])
  }

  lemma {:induction false} BlocksAppend(a: seq<Level>, b: seq<Level>)
    ensures Blocks(a + b) == Blocks(a) + Blocks(b)
    decreases |b|
  {
    if b != [] {
      assert (a + b)[..|a + b| - 1] == a + b[..|b| - 1];
      assert (a + b)[|a + b| - 1] == b[|b| - 1];
      BlocksAppend(a, b[..|b| - 1]);
    } else {
      assert a + b == a;
    }
  }

  /** The lines `build_menu_recursive` appends. */
  function MenuLines(comps: seq<Comp>, key: string): seq<string>
  {
    Blocks(MenuLevels(comps, key))
  }

  /** Where a submenu listed on the first level has its own level. */
  lemma TopSubmenuTarget(comps: seq<Comp>, key: string, k: nat) returns (j: nat)
    requires k < |comps| && IsSubmenu(comps[k])
    ensures 0 < j < |MenuLevels(comps, key)| && MenuLevels(comps, key)[j] == Level(comps[k].id, comps[k].children)
  {
    var ls := MenuLevels(comps, key);
    var m := SubmenuListed(comps, k);
    var rest := LevelsOf(Submenus(comps), comps);
    var off := LevelsOfAt(Submenus(comps), comps, m);
    assert ls == [Level(key, comps)] + rest;
    assert ls[1 + off] == rest[off];
    assert Submenus(comps)[m] == comps[k];
    j := 1 + off;
  }

  /** Where the submenu `k` of level `i` has its own level. */
  lemma {:induction false} SubmenuTarget(comps: seq<Comp>, key: string, i: nat, k: nat) returns (j: nat)
    requires i < |MenuLevels(comps, key)| && k < |MenuLevels(comps, key)[i].comps|
    requires IsSubmenu(MenuLevels(comps, key)[i].comps[k])
    ensures i < j < |MenuLevels(comps, key)|
    ensures MenuLevels(comps, key)[j] == Level(MenuLevels(comps, key)[i].comps[k].id, MenuLevels(comps, key)[i].comps[k].children)
    decreases comps, 1, 0
  {
    if i == 0 {
      j := TopSubmenuTarget(comps, key, k);
    } else {
      j := NestedSubmenuTarget(comps, key, i, k);
    }
  }

  lemma {:induction false} NestedSubmenuTarget(comps: seq<Comp>, key: string, i: nat, k: nat) returns (j: nat)
    requires 0 < i < |MenuLevels(comps, key)| && k < |MenuLevels(comps, key)[i].comps|
    requires IsSubmenu(MenuLevels(comps, key)[i].comps[k])
    ensures i < j < |MenuLevels(comps, key)|
    ensures MenuLevels(comps, key)[j] == Level(MenuLevels(comps, key)[i].comps[k].id, MenuLevels(comps, key)[i].comps[k].children)
    decreases comps, 0, 0
  {
    var ls := MenuLevels(comps, key);
    var subs := Submenus(comps);
    var m, off := LevelsOfFind(subs, comps, i - 1);
    var s := subs[m];
    var inner := MenuLevels(s.children, s.id);
    assert ls[i] == inner[i - 1 - off];
    var j' := SubmenuTarget(s.children, s.id, i - 1 - off, k);
    assert ls[1 + off + j'] == inner[j'];
    j := 1 + off + j';
  }

  /** Every submenu item names, as its target, a level that follows the
      level listing it and lists the submenu's children. */
  lemma SubmenuTargetsFollow(comps: seq<Comp>, key: string, i: nat, k: nat)
    requires i < |MenuLevels(comps, key)| && k < |MenuLevels(comps, key)[i].comps|
    requires IsSubmenu(MenuLevels(comps, key)[i].comps[k])
    ensures var ls := MenuLevels(comps, key);
      exists j :: i < j < |ls| && ls[j] == Level(ls[i].comps[k].id, ls[i].comps[k].children)
  {
    var j := SubmenuTarget(comps, key, i, k);
  }


  /** Sibling submenus keep document order: of two submenu items of one
      level, the earlier one's level comes first, and both follow the
      level listing them. */
  lemma {:induction false} SiblingTargetsInOrder(comps: seq<Comp>, key: string, i: nat, k1: nat, k2: nat) returns (j1: nat, j2: nat)
    requires i < |MenuLevels(comps, key)| && k1 < k2 < |MenuLevels(comps, key)[i].comps|
    requires IsSubmenu(MenuLevels(comps, key)[i].comps[k1]) && IsSubmenu(MenuLevels(comps, key)[i].comps[k2])
    ensures i < j1 < j2 < |MenuLevels(comps, key)|
    ensures MenuLevels(comps, key)[j1] == Level(MenuLevels(comps, key)[i].comps[k1].id, MenuLevels(comps, key)[i].comps[k1].children)
    ensures MenuLevels(comps, key)[j2] == Level(MenuLevels(comps, key)[i].comps[k2].id, MenuLevels(comps, key)[i].comps[k2].children)
    decreases comps, 1
  {
    if i == 0 {
      j1, j2 := TopSiblingTargets(comps, key, k1, k2);
    } else {
      j1, j2 := NestedSiblingTargets(comps, key, i, k1, k2);
    }
  }

  lemma TopSiblingTargets(comps: seq<Comp>, key: string, k1: nat, k2: nat) returns (j1: nat, j2: nat)
    requires k1 < k2 < |comps| && IsSubmenu(comps[k1]) && IsSubmenu(comps[k2])
    ensures 0 < j1 < j2 < |MenuLevels(comps, key)|
    ensures MenuLevels(comps, key)[j1] == Level(comps[k1].id, comps[k1].children)
    ensures MenuLevels(comps, key)[j2] == Level(comps[k2].id, comps[k2].children)
  {
    var ls := MenuLevels(comps, key);
    var rest := LevelsOf(Submenus(comps), comps);
    var m1, m2 := SubmenusInOrder(comps, k1, k2);
    var off1, off2 := LevelsOfAtPair(Submenus(comps), comps, m1, m2);
    assert ls == [Level(key, comps)] + rest;
    assert ls[1 + off1] == rest[off1] && ls[1 + off2] == rest[off2];
    j1, j2 := 1 + off1, 1 + off2;
  }

  lemma {:induction false} NestedSiblingTargets(comps: seq<Comp>, key: string, i: nat, k1: nat, k2: nat) returns (j1: nat, j2: nat)
    requires 0 < i < |MenuLevels(comps, key)| && k1 < k2 < |MenuLevels(comps, key)[i].comps|
    requires IsSubmenu(MenuLevels(comps, key)[i].comps[k1]) && IsSubmenu(MenuLevels(comps, key)[i].comps[k2])
    ensures i < j1 < j2 < |MenuLevels(comps, key)|
    ensures MenuLevels(comps, key)[j1] == Level(MenuLevels(comps, key)[i].comps[k1].id, MenuLevels(comps, key)[i].comps[k1].children)
    ensures MenuLevels(comps, key)[j2] == Level(MenuLevels(comps, key)[i].comps[k2].id, MenuLevels(comps, key)[i].comps[k2].children)
    decreases comps, 0
  {
    var ls := MenuLevels(comps, key);
    var subs := Submenus(comps);
    var m, off := LevelsOfFind(subs, comps, i - 1);
    var s := subs[m];
    var inner := MenuLevels(s.children, s.id);
    assert ls[i] == inner[i - 1 - off];
    var a, b := SiblingTargetsInOrder(s.children, s.id, i - 1 - off, k1, k2);
    assert ls[1 + off + a] == inner[a] && ls[1 + off + b] == inner[b];
    j1, j2 := 1 + off + a, 1 + off + b;
  }

  /** Of two components that open a submenu, the earlier is listed
      first. */
  lemma {:induction false} SubmenusInOrder(comps: seq<Comp>, k1: nat, k2: nat) returns (m1: nat, m2: nat)
    requires k1 < k2 < |comps| && IsSubmenu(comps[k1]) && IsSubmenu(comps[k2])
    ensures m1 < m2 < |Submenus(comps)|
    ensures Submenus(comps)[m1] == comps[k1] && Submenus(comps)[m2] == comps[k2]
  {
    var init := comps[..|comps| - 1];
    if k2 == |comps| - 1 {
      m1 := SubmenuListed(init, k1);
      m2 := |Submenus(init)|;
    } else {
      m1, m2 := SubmenusInOrder(init, k1, k2);
    }
  }

  /** The levels of an earlier submenu start before those of a later one. */
  lemma {:induction false} LevelsOfAtPair(subs: seq<Comp>, within: seq<Comp>, m1: nat, m2: nat) returns (off1: nat, off2: nat)
    requires forall i :: 0 <= i < |subs| ==> subs[i] in within
    requires m1 < m2 < |subs|
    ensures off1 < off2 < |LevelsOf(subs, within)|
    ensures LevelsOf(subs, within)[off1] == Level(subs[m1].id, subs[m1].children)
    ensures LevelsOf(subs, within)[off2] == Level(subs[m2].id, subs[m2].children)
    decreases |subs|
  {
    var init := subs[..|subs| - 1];
    if m2 == |subs| - 1 {
      off1 := LevelsOfAt(init, within, m1);
      assert init[m1] == subs[m1];
      off2 := |LevelsOf(init, within)|;
    } else {
      off1, off2 := LevelsOfAtPair(init, within, m1, m2);
      assert init[m1] == subs[m1] && init[m2] == subs[m2];
    }
  }

  /** Where the levels of the `m`-th submenu start among `LevelsOf`. */
  lemma {:induction false} LevelsOfAt(subs: seq<Comp>, within: seq<Comp>, m: nat) returns (off: nat)
    requires forall i :: 0 <= i < |subs| ==> subs[i] in within
    requires m < |subs|
    ensures off < |LevelsOf(subs, within)|
    ensures LevelsOf(subs, within)[off] == Level(subs[m].id, subs[m].children)
    ensures off + |MenuLevels(subs[m].children, subs[m].id)| <= |LevelsOf(subs, within)|
    ensures forall j :: 0 <= j < |MenuLevels(subs[m].children, subs[m].id)| ==>
      LevelsOf(subs, within)[off + j] == MenuLevels(subs[m].children, subs[m].id)[j]
    decreases |subs|
  {
    var init := subs[..|subs| - 1];
    if m == |subs| - 1 {
      off := |LevelsOf(init, within)|;
    } else {
      off := LevelsOfAt(init, within, m);
      assert init[m] == subs[m];
    }
  }

  /** Every level after the first belongs to the levels of one submenu. */
  lemma {:induction false} LevelsOfFind(subs: seq<Comp>, within: seq<Comp>, i: nat) returns (m: nat, off: nat)
    requires forall i :: 0 <= i < |subs| ==> subs[i] in within
    requires i < |LevelsOf(subs, within)|
    ensures m < |subs| && off <= i
    ensures off + |MenuLevels(subs[m].children, subs[m].id)| <= |LevelsOf(subs, within)|
    ensures i - off < |MenuLevels(subs[m].children, subs[m].id)|
    ensures forall j :: 0 <= j < |MenuLevels(subs[m].children, subs[m].id)| ==>
      LevelsOf(subs, within)[off + j] == MenuLevels(subs[m].children, subs[m].id)[j]
    decreases |subs|
  {
    var init := subs[..|subs| - 1];
    var last := subs[|subs| - 1];
    var front := LevelsOf(init, within);
    if i < |front| {
      m, off := LevelsOfFind(init, within, i);
      assert init[m] == subs[m];
    } else {
      m, off := |subs| - 1, |front|;
    }
  }

  lemma NextLevels(subs: seq<Comp>, within: seq<Comp>, j: nat)
    requires forall i :: 0 <= i < |subs| ==> subs[i] in within
    requires j < |subs|
    ensures Blocks(LevelsOf(subs[..j + 1], within)) == Blocks(LevelsOf(subs[..j], within)) + MenuLines(subs[j].children, subs[j].id)
  {
    assert subs[..j + 1][..j] == subs[..j];
    BlocksAppend(LevelsOf(subs[..j], within), MenuLevels(subs[j].children, subs[j].id));
  }

  /** A level's lines, then its submenus' levels. */
  lemma SplitLevels(key: string, comps: seq<Comp>)
    ensures MenuLines(comps, key) == Block(Level(key, comps)) + Blocks(LevelsOf(Submenus(comps), comps))
  {
    MenuLevelsUnfold(key, comps);
    BlocksSingle(Level(key, comps));
    BlocksAppend([Level(key, comps)], LevelsOf(Submenus(comps), comps));
  }

  lemma MenuLevelsUnfold(key: string, comps: seq<Comp>)
    ensures MenuLevels(comps, key) == [Level(key, comps)] + LevelsOf(Submenus(comps), comps)
  {
  }

  lemma BlocksSingle(l: Level)
    ensures Blocks([l]) == Block(l)
  {
    assert [l][..0] == [];
  }

  // The state table

  /** `find_all_components`: the components reachable without passing a
      text node, parents before children. */
  function FindAllComponents(comps: seq<Comp>): (r: seq<Comp>)
    ensures forall i :: 0 <= i < |r| ==> !IsTextNode(r[i])
    decreases comps
  {
    if comps == [] then []
    else
      var rest := FindAllComponents(comps[1..]);
      if IsTextNode(comps[0]) then rest
      else [comps[0]] + FindAllComponents(comps[0].children) + rest
  }

  /** On trees without text nodes that is every component. */
  lemma {:induction false} FindAllIsAllComps(comps: seq<Comp>)
    requires NoTextNodes(comps)
    ensures FindAllComponents(comps) == AllComps(comps)
    decreases comps
  {
    if comps != [] {
      FindAllIsAllComps(comps[0].children);
      FindAllIsAllComps(comps[1..]);
    }
  }

  predicate NoTextNodes(comps: seq<Comp>)
    decreases comps
  {
    forall i :: 0 <= i < |comps| ==> !IsTextNode(comps[i]) && NoTextNodes(comps[i].children)
  }

  /** The table's lines: for each component its `_state = false` and
      `_value = 0` entries, between the opening and the closing line. */
  function StateTable(all: seq<Comp>): (r: seq<string>)
    ensures |r| == 2 * |all| + 2
    ensures r[0] == "local Functions = {" && r[|r| - 1] == "}"
    ensures forall i :: 0 <= i < |all| ==>
      r[1 + 2 * i] == "    " + LuaId(all[i].id) + "_state = false,"
      && r[2 + 2 * i] == "    " + LuaId(all[i].id) + "_value = 0,"
  {
    ["local Functions = {"] + StateEntries(all) + ["}"]
  }

  function StateEntries(all: seq<Comp>): (r: seq<string>)
    ensures |r| == 2 * |all|
    ensures forall i :: 0 <= i < |all| ==>
      r[2 * i] == "    " + LuaId(all[i].id) + "_state = false,"
      && r[2 * i + 1] == "    " + LuaId(all[i].id) + "_value = 0,"
  {
    if all == [] then []
    else
      var last := all[|all| - 1];
      var r := StateEntries(all[..|all| - 1]) + ["    " + LuaId(last.id) + "_state = false,", "    " + LuaId(last.id) + "_value = 0,"];
      assert forall i :: 0 <= i < |all| - 1 ==> all[..|all| - 1][i] == all[i];
      r
  }


  // The script

  const ScriptIntro := "-- Generated by Visual Web Editor\n-- Macho API Ready Lua Structure\n\n-- #region State Management\n"
  const MenuIntro := "\n-- #endregion\n\n-- #region Menu Structure\n"
  const PayloadIntro := "\n-- #endregion\n\nCitizen.CreateThread(function()\n    local htmlPayload = "
  const JsIntro := "\n    \n    local jsPayload = "
  const ScriptOutro := "\n\n    MachoInjectPayload(htmlPayload, jsPayload)\nend)\n\n"
    + "-- Placeholder for key handlers and other logic\nMachoOnKeyUp(function(key)\n    -- Your key handling logic here\nend)\n\n"
    + "print(\"Macho DUI script with structured menu loaded successfully.\")\n"

  /** The page the HTML payload carries: the style sheet in the head, the
      markup in the body. */
  function HtmlDocument(css: string, body: string): string
  {
    "        <!DOCTYPE html>\n        <html>\n        <head>\n            <style>" + css
    + "</style>\n        </head>\n        <body>" + body + "</body>\n        </html>\n    "
  }

  /** The two payload literals as the source writes them: each escaped
      part in a level-1 bracket, the page after a line break. */
  function HtmlLiteral(css: string, body: string): string
  {
    Bracketed("\n" + HtmlDocument(SanitizeAsWritten(css), SanitizeAsWritten(body)), 1)
  }

  function JsLiteral(js: string): string
  {
    Bracketed(SanitizeAsWritten(js), 1)
  }

  /** The script from the JS payload on: its assignment, the injection and
      the placeholder key handler. */
  function JsPart(js: string): string
  {
    JsIntro + JsLiteral(js) + ScriptOutro
  }

  /** The Lua script around the state table, the menu structure and the
      two payload literals. */
  function LuaScript(functionsTable: seq<string>, menu: seq<string>, css: string, body: string, js: string): string
  {
    ScriptIntro + Join(functionsTable, "\n") + MenuIntro + Join(menu, "\n") + PayloadIntro + HtmlLiteral(css, body) + JsPart(js)
  }

  /** The script holds the state table, the menu structure, and both
      payload literals. */
  lemma ScriptParts(functionsTable: seq<string>, menu: seq<string>, css: string, body: string, js: string)
    ensures var r := LuaScript(functionsTable, menu, css, body, js);
      && Contains(r, Join(functionsTable, "\n")) && Contains(r, Join(menu, "\n"))
      && Contains(r, HtmlLiteral(css, body)) && Contains(r, JsLiteral(js))
  {
    var front := ScriptIntro + Join(functionsTable, "\n") + MenuIntro + Join(menu, "\n") + PayloadIntro + HtmlLiteral(css, body);
    Exporter.Infixes(ScriptIntro, Join(functionsTable, "\n"), MenuIntro, Join(menu, "\n"), PayloadIntro, HtmlLiteral(css, body), JsPart(js));
    var lit := JsLiteral(js);
    assert OccursAt(lit, lit, 0);
    Exporter.ContainsInfix(JsIntro, lit, ScriptOutro, lit);
    ContainsAfter(front, JsPart(js), lit);
  }

  lemma ContainsAfter(a: string, b: string, p: string)
    requires Contains(b, p)
    ensures Contains(a + b, p)
  {
    var i :| 0 <= i <= |b| - |p| && OccursAt(b, p, i);
    assert (a + b)[|a| + i..|a| + i + |p|] == b[i..i + |p|];
    assert OccursAt(a + b, p, |a| + i);
  }

  /** What Lua reads from the two literals: the JS and the page, unchanged,
      as long as neither holds `[=[` nor a bracket it could close early (the
      JS loses a line break at its start, which Lua drops). */
  lemma PayloadsReadBack(css: string, body: string, js: string)
    requires !Contains(js, "[=[") && !ClosesEarly(js, 1) && '\r' !in js
    requires !Contains(css, "[=[") && !Contains(css, "]=]") && !Contains(body, "[=[") && !Contains(body, "]=]")
    requires !ClosesEarly(HtmlDocument(css, body), 1) && '\r' !in HtmlDocument(css, body)
    ensures LongStringValue(JsLiteral(js), 1) == Some(if js != [] && js[0] == '\n' then js[1..] else js)
    ensures LongStringValue(HtmlLiteral(css, body), 1) == Some(HtmlDocument(css, body))
  {
    AsWrittenReadBack(js);
    var page := HtmlDocument(css, body);
    BreakKeepsOpen(page, 1);
    BracketedReadBack("\n" + page, 1);
    assert ("\n" + page)[1..] == page;
  }
}

/** The steps of the Lua export that build the script line by line: the
    menu structure through a recursive builder that appends to one list,
    the state table through a loop, then the script around them. */
module LuaGenerator {
  import opened Text
  import opened Components
  import opened LuaExport

  /** Builds the menu structure by appending lines, as the nested function
      of the source appends to the enclosing list. */
  class MenuBuilder {
    var lines: seq<string>

    constructor()
      ensures lines == ["menuStructure = {"]
    {
      lines := ["menuStructure = {"];
    }

    /** `build_menu_recursive(comps, key)` */
    method BuildMenu(comps: seq<Comp>, key: string)
      modifies this
      ensures lines == old(lines) + MenuLines(comps, key)
      decreases comps, 1
    {
      ghost var start := lines;
      var subs := AppendLevel(comps, key);
      BuildSubmenus(subs, comps);
      SplitLevels(key, comps);
      Assoc(start, Block(Level(key, comps)), Blocks(LevelsOf(subs, comps)));
    }

    /** The lines of one level, and the components that open a submenu. */
    method AppendLevel(comps: seq<Comp>, key: string) returns (subs: seq<Comp>)
      modifies this
      ensures lines == old(lines) + Block(Level(key, comps))
      ensures subs == Submenus(comps)
    {
      ghost var start := lines;
      lines := lines + Header(key);
      subs := ListItems(comps);
      lines := lines + Footer;
      Assoc3(start, Header(key), Items(comps), Footer);
    }

    /** The second loop of `build_menu_recursive`: each submenu's levels, in
        order. */
    method BuildSubmenus(subs: seq<Comp>, ghost within: seq<Comp>)
      requires forall i :: 0 <= i < |subs| ==> subs[i] in within
      modifies this
      ensures lines == old(lines) + Blocks(LevelsOf(subs, within))
      decreases within, 0
    {
      ghost var start := lines;
      for j := 0 to |subs|
        invariant lines == start + Blocks(LevelsOf(subs[..j], within))
      {
        var s := subs[j];
        BuildMenu(s.children, s.id);
        NextLevels(subs, within, j);
        Assoc(start, Blocks(LevelsOf(subs[..j], within)), MenuLines(s.children, s.id));
      }
      assert subs[..|subs|] == subs;
    }

    /** The first loop of `build_menu_recursive`: an item line for every
        component that is not a text node, and the list of those that open
        a submenu. */
    method ListItems(comps: seq<Comp>) returns (subs: seq<Comp>)
      modifies this
      ensures lines == old(lines) + Items(comps)
      ensures subs == Submenus(comps)
    {
      ghost var start := lines;
      subs := [];
      for i := 0 to |comps|
        invariant lines == start + Items(comps[..i])
        invariant subs == Submenus(comps[..i])
      {
        var c := comps[i];
        ItemStep(start, lines, comps, i);
        SubmenuStep(subs, comps, i);
        if !IsTextNode(c) {
          lines := lines + ["            " + ComponentToLuaTable(c) + ","];
          if HasElementChildren(c) {
            subs := subs + [c];
          }
        }
      }
      assert comps[..|comps|] == comps;
    }
  }

  /** The item loop keeps its invariant over one more component: the
      lines, ... */
  lemma ItemStep(start: seq<string>, lines: seq<string>, comps: seq<Comp>, i: nat)
    requires i < |comps| && lines == start + Items(comps[..i])
    ensures !IsTextNode(comps[i]) ==> lines + ["            " + ComponentToLuaTable(comps[i]) + ","] == start + Items(comps[..i + 1])
    ensures IsTextNode(comps[i]) ==> lines == start + Items(comps[..i + 1])
  {
    var line := ["            " + ComponentToLuaTable(comps[i]) + ","];
    assert comps[..i + 1][..i] == comps[..i] && comps[..i + 1][i] == comps[i];
    if IsTextNode(comps[i]) {
      assert Items(comps[..i]) + [] == Items(comps[..i]);
    } else {
      Assoc(start, Items(comps[..i]), line);
    }
  }

  /** ... and the submenus. */
  lemma SubmenuStep(subs: seq<Comp>, comps: seq<Comp>, i: nat)
    requires i < |comps| && subs == Submenus(comps[..i])
    ensures IsSubmenu(comps[i]) ==> subs + [comps[i]] == Submenus(comps[..i + 1])
    ensures !IsSubmenu(comps[i]) ==> subs == Submenus(comps[..i + 1])
  {
    assert comps[..i + 1][..i] == comps[..i] && comps[..i + 1][i] == comps[i];
    assert subs + [] == subs;
  }

  /** The loop that fills the state table. */
  method FunctionsTable(comps: seq<Comp>) returns (lines: seq<string>)
    ensures lines == StateTable(FindAllComponents(comps))
  {
    var all := FindAllComponents(comps);
    lines := ["local Functions = {"];
    for i := 0 to |all|
      invariant lines == ["local Functions = {"] + StateEntries(all[..i])
    {
      assert all[..i + 1][..i] == all[..i];
      var id := LuaId(all[i].id);
      lines := lines + ["    " + id + "_state = false,", "    " + id + "_value = 0,"];
    }
    assert all[..|all|] == all;
    lines := lines + ["}"];
  }

  /** `generate_lua_script`, given the style sheet, body markup and script
      of the exported page. */
  method GenerateLuaScript(components: seq<Comp>, css: string, body: string, js: string) returns (script: string)
    ensures script == LuaScript(StateTable(FindAllComponents(components)), ["menuStructure = {"] + MenuLines(components, "main") + ["}"], css, body, js)
  {
    var menu := new MenuBuilder();
    menu.BuildMenu(components, "main");
    var structure := menu.lines + ["}"];
    var table := FunctionsTable(components);
    script := LuaScript(table, structure, css, body, js);
  }

  lemma Assoc<T>(a: seq<T>, b: seq<T>, c: seq<T>)
    ensures a + b + c == a + (b + c)
  {
  }

  lemma Assoc3<T>(a: seq<T>, b: seq<T>, c: seq<T>, d: seq<T>)
    ensures a + b + c + d == a + (b + c + d)
  {
  }
}

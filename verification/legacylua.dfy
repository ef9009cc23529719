/** The Lua script of the first editor (`generate_lua_script` in `MMM.py`;
    `python.py` is the same file): the page markup, the CSS and the
    scripts as long strings, an injection of all three, and the key
    handlers that toggle components. A toggle message is quoted as a Lua
    string literal with the first delimiter that does not occur in it. */
module LegacyLua {
  import opened Wrappers
  import opened Text
  import opened ODict
  import opened Components
  import opened Exporter
  import opened LegacyExport
  import opened LuaLong

  // Lua string literals

  /** `sanitize_js_for_lua`: single quotes when the text has none, else
      double quotes when it has none, else a level-1 long bracket. */
  function SanitizeJsForLua(js: string): (r: string)
  {
    if '\'' !in js then "'" + js + "'"
    else if '"' !in js then "\"" + js + "\""
    else "[=[" + js + "]=]"
  }

  /** The delimiter is chosen in that order, and a quote used as the
      delimiter never occurs in the text it encloses. */
  lemma LiteralChoice(js: string)
    ensures var r := SanitizeJsForLua(js);
      && (r[0] == '\'' <==> '\'' !in js)
      && (r[0] == '"' <==> '\'' in js && '"' !in js)
      && (r[0] == '[' <==> '\'' in js && '"' in js)
      && ((r[0] == '\'' || r[0] == '"') ==> r[0] !in js && r == [r[0]] + js + [r[0]])
  {
  }

  /** The string a Lua literal denotes, as section 3.1 of the Lua 5.4
      Reference Manual reads it, for the literals written here: a short
      literal in single or double quotes, or a level-1 long bracket.
      `None` stands for a literal this reader does not accept: a malformed
      one, or one holding an escape sequence or a carriage return, which
      it does not decode. */
  function LuaStringValue(lit: string): (r: Option<string>)
    ensures r.Some? ==> |r.value| < |lit|
  {
    if |lit| >= 2 && (lit[0] == '\'' || lit[0] == '"') && lit[|lit| - 1] == lit[0] then
      var body := lit[1..|lit| - 1];
      if lit[0] !in body && '\\' !in body && '\n' !in body && '\r' !in body then Some(body) else None
    else LongStringValue(lit, 1)
  }

  /** Lua reads back the text that was quoted, whichever delimiter was
      chosen, as long as the text has no backslash or line break and
      cannot close the long bracket. */
  lemma SanitizeReadBack(js: string)
    requires '\\' !in js && '\n' !in js && '\r' !in js
    requires !Contains(js + "]=", "]=]")
    ensures LuaStringValue(SanitizeJsForLua(js)) == Some(js)
  {
    var lit := SanitizeJsForLua(js);
    if '\'' !in js {
      assert lit[1..|lit| - 1] == js;
    } else if '"' !in js {
      assert lit[1..|lit| - 1] == js;
    } else {
      assert Opener(1) == "[=[" && Closer(1) == "]=]" && Equals(1) == "=";
      assert js + "]" + Equals(1) == js + "]=";
      assert lit == Bracketed(js, 1);
      BracketedReadBack(js, 1);
    }
  }

  const ToggleOpen := "window.postMessage" + "({ action = " + "'toggle', " + "id = '"
  const ToggleClose := "' })"

  /** The message that asks the page to toggle a component. */
  function ToggleMessage(id: string): string
  {
    ToggleOpen + id + ToggleClose
  }

  /** A toggle message always holds a single quote, so it is never
      single-quoted: it goes in double quotes unless the id holds one. */
  lemma ToggleQuoting(id: string)
    ensures '"' !in id ==> SanitizeJsForLua(ToggleMessage(id)) == "\"" + ToggleMessage(id) + "\""
    ensures '"' in id ==> SanitizeJsForLua(ToggleMessage(id)) == "[=[" + ToggleMessage(id) + "]=]"
  {
    assert '"' !in ToggleOpen && '"' !in ToggleClose && '\'' in ToggleClose;
    assert '\'' in ToggleMessage(id);
    assert '"' in ToggleMessage(id) <==> '"' in id;
  }

  // Key handlers

  const InjectOpen := "    MachoInjectJavaScript("

  /** `MachoInjectJavaScript` of the toggle message for one component. */
  function InjectLine(id: string): string
  {
    InjectOpen + SanitizeJsForLua(ToggleMessage(id)) + ")"
  }

  predicate UsesMasterKey(c: Comp) { c.interaction.useMasterKey }

  /** The component has a key of its own and is not toggled by the master
      key. */
  predicate HasOwnKey(c: Comp) { c.interaction.openKey != "" && !c.interaction.useMasterKey }

  /** The injections inside the master block: one per component toggled
      by the master key, in list order. */
  function MasterInjections(cs: seq<Comp>): (r: seq<string>)
    ensures |r| <= |cs|
  {
    if cs == [] then []
    else
      var last := cs[|cs| - 1];
      MasterInjections(cs[..|cs| - 1]) + (if UsesMasterKey(last) then [InjectLine(last.id)] else [])
  }

  /** The line that opens the block of one key. */
  function IfKeyLine(key: string): string
  {
    "if key == " + key + " then"
  }

  /** The master block: present only when the master key is set. */
  function MasterBlock(masterKey: string, cs: seq<Comp>): seq<string>
  {
    if masterKey == "" then []
    else [IfKeyLine(masterKey)] + MasterInjections(cs) + ["end"]
  }

  /** The block of a component with a key of its own. */
  function OwnKeyBlock(c: Comp): seq<string>
  {
    [IfKeyLine(c.interaction.openKey), InjectLine(c.id), "end"]
  }

  /** One block per component with a key of its own, in list order. */
  function OpenKeyBlocks(cs: seq<Comp>): (r: seq<string>)
  {
    if cs == [] then []
    else
      var last := cs[|cs| - 1];
      OpenKeyBlocks(cs[..|cs| - 1]) + (if HasOwnKey(last) then OwnKeyBlock(last) else [])
  }

  /** The lines of the key handlers: the master block, then the blocks of
      the components with keys of their own. */
  function KeyHandlers(masterKey: string, cs: seq<Comp>): seq<string>
  {
    MasterBlock(masterKey, cs) + OpenKeyBlocks(cs)
  }

  /** The components toggled by the master key, in list order. */
  function MasterComps(cs: seq<Comp>): (r: seq<Comp>)
    ensures |r| <= |cs|
  {
    if cs == [] then []
    else
      var last := cs[|cs| - 1];
      MasterComps(cs[..|cs| - 1]) + (if UsesMasterKey(last) then [last] else [])
  }

  /** The components with keys of their own, in list order. */
  function OwnKeyComps(cs: seq<Comp>): (r: seq<Comp>)
    ensures |r| <= |cs|
  {
    if cs == [] then []
    else
      var last := cs[|cs| - 1];
      OwnKeyComps(cs[..|cs| - 1]) + (if HasOwnKey(last) then [last] else [])
  }

  /** A component is toggled by the master key exactly when it is listed
      and uses it. */
  lemma {:induction false} MasterCompsAre(cs: seq<Comp>)
    ensures forall c :: c in MasterComps(cs) <==> c in cs && UsesMasterKey(c)
  {
    if cs != [] {
      var init := cs[..|cs| - 1];
      MasterCompsAre(init);
      assert cs == init + [cs[|cs| - 1]];
    }
  }

  /** A component has a block of its own exactly when it is listed, has an
      open key and does not use the master key. */
  lemma {:induction false} OwnKeyCompsAre(cs: seq<Comp>)
    ensures forall c :: c in OwnKeyComps(cs) <==> c in cs && HasOwnKey(c)
  {
    if cs != [] {
      var init := cs[..|cs| - 1];
      OwnKeyCompsAre(init);
      assert cs == init + [cs[|cs| - 1]];
    }
  }

  /** The master block injects the toggle of exactly the components that
      use the master key, in their order. */
  lemma {:induction false} MasterInjectionsAre(cs: seq<Comp>)
    ensures |MasterInjections(cs)| == |MasterComps(cs)|
    ensures forall i :: 0 <= i < |MasterComps(cs)| ==> MasterInjections(cs)[i] == InjectLine(MasterComps(cs)[i].id)
  {
    if cs != [] {
      MasterInjectionsAre(cs[..|cs| - 1]);
    }
  }

  lemma {:induction false} OpenKeyCount(cs: seq<Comp>)
    ensures |OpenKeyBlocks(cs)| == 3 * |OwnKeyComps(cs)|
  {
    if cs != [] {
      OpenKeyCount(cs[..|cs| - 1]);
    }
  }

  /** The open-key lines are, three by three, the blocks of the components
      with keys of their own, in their order. */
  lemma {:induction false} OpenKeyBlockAt(cs: seq<Comp>, j: nat)
    requires j < |OwnKeyComps(cs)|
    ensures |OpenKeyBlocks(cs)| == 3 * |OwnKeyComps(cs)|
    ensures OpenKeyBlocks(cs)[3 * j..3 * j + 3] == OwnKeyBlock(OwnKeyComps(cs)[j])
  {
    OpenKeyCount(cs);
    var init := cs[..|cs| - 1];
    var last := cs[|cs| - 1];
    OpenKeyCount(init);
    var a, b := OpenKeyBlocks(init), if HasOwnKey(last) then OwnKeyBlock(last) else [];
    assert OpenKeyBlocks(cs) == a + b;
    if j < |OwnKeyComps(init)| {
      OpenKeyBlockAt(init, j);
      SliceOfLeft(a, b, 3 * j, 3 * j + 3);
      assert OwnKeyComps(cs)[j] == OwnKeyComps(init)[j];
    } else {
      assert HasOwnKey(last) && OwnKeyComps(cs)[j] == last;
      assert 3 * j == |a| && b == OwnKeyBlock(last);
      assert (a + b)[|a|..|a| + 3] == b;
    }
  }

  lemma SliceOfLeft<T>(a: seq<T>, b: seq<T>, i: nat, j: nat)
    requires i <= j <= |a|
    ensures (a + b)[i..j] == a[i..j]
  {
  }

  /** No component is toggled both by the master key and by a key of its
      own. */
  lemma NoDoubleToggle(cs: seq<Comp>, c: Comp)
    ensures !(c in MasterComps(cs) && c in OwnKeyComps(cs))
  {
    MasterCompsAre(cs);
    OwnKeyCompsAre(cs);
  }

  /** When the master key is set, its block comes first and closes before
      any open-key block; when it is not, the components that use it are
      toggled by nothing. */
  lemma MasterFirst(masterKey: string, cs: seq<Comp>)
    ensures masterKey != "" ==>
      var k := KeyHandlers(masterKey, cs);
      var n := |MasterComps(cs)|;
      && |k| == n + 2 + |OpenKeyBlocks(cs)|
      && k[0] == IfKeyLine(masterKey)
      && k[n + 1] == "end"
      && k[n + 2..] == OpenKeyBlocks(cs)
    ensures masterKey == "" ==> KeyHandlers(masterKey, cs) == OpenKeyBlocks(cs)
  {
    MasterInjectionsAre(cs);
    if masterKey != "" {
      var k := KeyHandlers(masterKey, cs);
      var m := MasterBlock(masterKey, cs);
      assert k == m + OpenKeyBlocks(cs);
      assert k[|m|..] == OpenKeyBlocks(cs);
    } else {
      assert KeyHandlers(masterKey, cs) == [] + OpenKeyBlocks(cs);
    }
  }

  lemma MasterStep(cs: seq<Comp>, i: nat)
    requires i < |cs|
    ensures MasterInjections(cs[..i + 1]) == MasterInjections(cs[..i]) + (if UsesMasterKey(cs[i]) then [InjectLine(cs[i].id)] else [])
  {
    InitStep(cs, i);
  }

  lemma OpenKeyStep(cs: seq<Comp>, i: nat)
    requires i < |cs|
    ensures OpenKeyBlocks(cs[..i + 1]) == OpenKeyBlocks(cs[..i]) + (if HasOwnKey(cs[i]) then OwnKeyBlock(cs[i]) else [])
  {
    InitStep(cs, i);
  }

  /** The loops of `generate_lua_script` that append the key handlers:
      the master block, then the open-key blocks. */
  method KeyHandlerLines(masterKey: string, components: seq<Comp>) returns (keyHandlers: seq<string>)
    ensures keyHandlers == KeyHandlers(masterKey, components)
  {
    keyHandlers := MasterLines(masterKey, components);
    var openKeyLines := OpenKeyLines(components);
    keyHandlers := keyHandlers + openKeyLines;
  }

  /** The first loop: the master block, when the master key is set. */
  method MasterLines(masterKey: string, components: seq<Comp>) returns (keyHandlers: seq<string>)
    ensures keyHandlers == MasterBlock(masterKey, components)
  {
    keyHandlers := [];
    if masterKey != "" {
      keyHandlers := keyHandlers + [IfKeyLine(masterKey)];
      for i := 0 to |components|
        invariant keyHandlers == [IfKeyLine(masterKey)] + MasterInjections(components[..i])
      {
        var comp := components[i];
        ghost var before := keyHandlers;
        if comp.interaction.useMasterKey {
          keyHandlers := keyHandlers + [InjectLine(comp.id)];
        }
        assert keyHandlers == [IfKeyLine(masterKey)] + MasterInjections(components[..i + 1]) by {
          MasterStep(components, i);
          assert keyHandlers == before + (if UsesMasterKey(comp) then [InjectLine(comp.id)] else []);
        }
      }
      assert components[..|components|] == components;
      keyHandlers := keyHandlers + ["end"];
      assert keyHandlers == [IfKeyLine(masterKey)] + MasterInjections(components) + ["end"];
    }
  }

  /** The second loop: a block per component with a key of its own. */
  method OpenKeyLines(components: seq<Comp>) returns (keyHandlers: seq<string>)
    ensures keyHandlers == OpenKeyBlocks(components)
  {
    keyHandlers := [];
    for i := 0 to |components|
      invariant keyHandlers == OpenKeyBlocks(components[..i])
    {
      var comp := components[i];
      ghost var before := keyHandlers;
      var openKey := comp.interaction.openKey;
      if openKey != "" && !comp.interaction.useMasterKey {
        keyHandlers := keyHandlers + [IfKeyLine(openKey)];
        keyHandlers := keyHandlers + [InjectLine(comp.id)];
        keyHandlers := keyHandlers + ["end"];
        assert keyHandlers == before + OwnKeyBlock(comp);
      }
      assert keyHandlers == OpenKeyBlocks(components[..i + 1]) by {
        OpenKeyStep(components, i);
        assert keyHandlers == before + (if HasOwnKey(comp) then OwnKeyBlock(comp) else []);
      }
    }
    assert components[..|components|] == components;
  }

  lemma InitStep<T>(s: seq<T>, i: nat)
    requires i < |s|
    ensures s[..i + 1][..i] == s[..i] && s[..i + 1][i] == s[i]
  {
  }

  // The script

  /** The page script that shows or hides an element when a `toggle`
      message arrives. */
  const InteractionJs := "\n        const elementVisibility = {};\n\n"
    + "        function toggleElementVisibility(elementId) {\n"
    + "            const el = document.getElementById(elementId);\n"
    + "            if (!el) return;\n            \n"
    + "            if (elementVisibility[elementId] === undefined) {\n"
    + "                elementVisibility[elementId] = getComputedStyle(el).display !== 'none';\n"
    + "            }\n            \n"
    + "            elementVisibility[elementId] = !elementVisibility[elementId];\n"
    + "            el.style.display = elementVisibility[elementId] ? '' : 'none';\n"
    + "        }\n\n"
    + "        window.addEventListener(\"message\", (event) => {\n"
    + "            const data = event.data;\n"
    + "            if (data.action === 'toggle') {\n"
    + "                toggleElementVisibility(data.id);\n"
    + "            }\n"
    + "        });\n    "

  const JsLineOpen := "try { const el = document.getElementById('"
  const JsLineGuard := "'); if(el) { "
  const JsLineClose := " } } catch(e) { console.error(e); }\\n"

  /** The guarded call of one entry of the script map. It ends with a
      backslash and an `n`, not a line break. */
  function JsLine(id: string, script: string): string
  {
    JsLineOpen + id + JsLineGuard + script + JsLineClose
  }

  /** The interaction script, then one guarded call per entry of the
      script map, empty scripts included, in the map's order. */
  function AllJsOf(js: Dict<string>): string
  {
    if js == [] then InteractionJs
    else AllJsOf(js[..|js| - 1]) + JsLine(js[|js| - 1].0, js[|js| - 1].1)
  }

  /** Every entry of the map has its guarded call in the script, after the
      interaction script. */
  lemma {:induction false} AllJsListed(js: Dict<string>, i: nat)
    requires i < |js|
    ensures Contains(AllJsOf(js), JsLine(js[i].0, js[i].1))
  {
    var init := js[..|js| - 1];
    var line := JsLine(js[|js| - 1].0, js[|js| - 1].1);
    if i == |js| - 1 {
      assert OccursAt(line, line, 0);
      ContainsRight(AllJsOf(init), line, line);
    } else {
      assert js[i] == init[i];
      AllJsListed(init, i);
      ContainsLeft(AllJsOf(init), line, JsLine(init[i].0, init[i].1));
    }
  }

  lemma {:induction false} AllJsStarts(js: Dict<string>)
    ensures StartsWith(AllJsOf(js), InteractionJs)
  {
    if js != [] {
      var init := js[..|js| - 1];
      AllJsStarts(init);
      assert AllJsOf(js)[..|InteractionJs|] == AllJsOf(init)[..|InteractionJs|];
    }
  }

  /** The loop that builds `all_js`. */
  method AllJs(jsMap: Dict<string>) returns (allJs: string)
    ensures allJs == AllJsOf(jsMap)
  {
    allJs := InteractionJs;
    for i := 0 to |jsMap|
      invariant allJs == AllJsOf(jsMap[..i])
    {
      var (compId, script) := jsMap[i];
      InitStep(jsMap, i);
      allJs := allJs + JsLine(compId, script);
    }
    assert jsMap[..|jsMap|] == jsMap;
  }



  /** The handler of key releases around the key handler code. */
  function KeyUpHandler(keyCode: string): string
  {
    "MachoOnKeyUp(function(key)\n    " + keyCode + "\nend)"
  }

  const LuaHead := "-- Generated by Visual Web Editor\nlocal ui_html = "
  const LuaCss := "\nlocal ui_css = "
  const LuaJs := "\nlocal ui_js = "
  const LuaInject := "\n\nCitizen.CreateThread(function()\n    MachoInjectJavaScript([=[\n"
    + "        document.head.innerHTML = `<style>${ui_css}</style>`;\n"
    + "        document.body.innerHTML = `${ui_html}`;\n"
    + "        const scriptTag = document.createElement('script');\n"
    + "        scriptTag.type = 'text/javascript';\n"
    + "        scriptTag.innerHTML = `"
  const LuaAppend := "`;\n        document.body.appendChild(scriptTag);\n    ]=])\nend)\n\n"
  const LuaTail := "\n\nprint(\"Macho DUI script loaded.\")\n"

  /** What follows the three long strings: the injection of the CSS, the
      markup and the page script (written a second time), then the key
      handler. */
  function LuaRest(allJs: string, keyCode: string): string
  {
    LuaInject + allJs + LuaAppend + KeyUpHandler(keyCode) + LuaTail
  }

  /** The generated script: the markup, the CSS and the page script as
      long strings, then the injection and the key handler. */
  function LuaScript(html: string, css: string, allJs: string, keyCode: string): string
  {
    LuaHead + Bracketed(html, 1) + LuaCss + Bracketed(css, 1) + LuaJs + Bracketed(allJs, 1) + LuaRest(allJs, keyCode)
  }

  /** The markup, the CSS and the page script each sit in a long bracket,
      unescaped, and the key handler code sits inside the key-release
      handler. */
  lemma LuaPayloads(html: string, css: string, allJs: string, keyCode: string)
    ensures var r := LuaScript(html, css, allJs, keyCode);
      && Contains(r, Bracketed(html, 1)) && Contains(r, Bracketed(css, 1)) && Contains(r, Bracketed(allJs, 1))
      && Contains(r, KeyUpHandler(keyCode))
  {
    Infixes(LuaHead, Bracketed(html, 1), LuaCss, Bracketed(css, 1), LuaJs, Bracketed(allJs, 1), LuaRest(allJs, keyCode));
    var k := KeyUpHandler(keyCode);
    assert OccursAt(k, k, 0);
    ContainsInfix(LuaInject + allJs + LuaAppend, k, LuaTail, k);
    ContainsRight(LuaHead + Bracketed(html, 1) + LuaCss + Bracketed(css, 1) + LuaJs + Bracketed(allJs, 1), LuaRest(allJs, keyCode), k);
  }

  /** A legacy project: the components, the CSS, the script map and the
      master key (`""` when unset). */
  datatype LegacyProject = LegacyProject(components: seq<Comp>, css: string, js: Dict<string>, masterKey: string)

  /** `generate_lua_script`: the body markup of `generate_html` with no
      CSS and no scripts, the page script and the key handlers joined by a
      line break and an indent. */
  method GenerateLuaScript(p: LegacyProject) returns (lua: string)
    requires LegacyZOk(p.components)
    ensures lua == LuaScript(BodyHtml(p.components), p.css, AllJsOf(p.js), Join(KeyHandlers(p.masterKey, p.components), "\n    "))
  {
    var bodyHtml, page := LegacyExport.GenerateHtml(p.components, "", []);
    var allJs := AllJs(p.js);
    var keyHandlers := KeyHandlerLines(p.masterKey, p.components);
    var keyHandlerCode := Join(keyHandlers, "\n    ");
    lua := LuaScript(bodyHtml, p.css, allJs, keyHandlerCode);
  }
}

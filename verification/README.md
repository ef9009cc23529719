# Visual Web Editor core, modelled in Dafny

The Visual Web Editor designs in-game menus and pages for FiveM. A design is
a project: a tree of components, a global style sheet and script, and CSS
and JavaScript for individual elements. This model covers the parts of the
editor that turn one form into another:

- **HTML import** (`html_parser.py`). A parsed document becomes a project.
  Every element gets a type, an id (its own, or one numbered by a running
  counter), its cascaded style, its inline style, its attributes and its
  direct text. The cascade collects the rules whose selectors match, sorts
  them stably by specificity and applies them in that order.
- **HTML and Lua export** (`project_generator.py`). A project becomes a page:
  siblings are laid out in z-index order, the style sheet and the page
  script are assembled, and the payloads are escaped for Lua long strings
  as the source escapes them.
  The Lua script holds a menu structure (one level per submenu), a table of
  state variables, and the page as long strings.
- **The first editor** (`MMM.py`; `python.py` is the same file). It has its
  own importer (`css_to_json`, `parse_html_element`, `import_html`), its own
  HTML generator, and a Lua script with key handlers that toggle components.
  Its properties panel reads the `border-radius` shorthand
  (`parseBorderRadius`) and writes one corner back.

Anything the code reads from outside is a parameter of the model: the HTML
and CSS parsers, files read from disk and base64 encoding. A parsed document is a `Dom.Node` tree. A JSON component
is a `Components.Comp` record. A Python dict is an insertion-ordered list of
pairs (`ODict.Dict`).

Modules: `Wrappers` (Option, Result), `Text` (Python string primitives),
`ODict`, `Sorting` (a stable sort), `Casing` (kebab-case and camelCase),
`Dom`, `Components`, `Selectors`, `Cascade`, `Importer`, `Exporter`,
`LuaLong` (Lua long-bracket literals, as section 3.1 of the Lua 5.4
Reference Manual defines them), `LuaExport`, `LuaGenerator`, `LegacyExport`,
`LegacyLua`, `LegacyImport`, `BorderRadius`.

## Model

| member | source | states |
|---|---|---|
| Casing.KebabOfCamelCase | html_parser.py:11-14 | camel-casing a lower-case kebab property name, then converting the key back as the exporters do, gives the name again |
| Casing.KebabThenCamelCase | project_generator.py:19 | converting a camelCase style key to a CSS name, then camel-casing that name, gives the key again |
| Casing.Kebab | project_generator.py:19 | the CSS name of a key has no upper-case letter, and a key without one is its own CSS name |
| Selectors.StripPseudo | html_parser.py:23 | removing pseudo-classes never lengthens a selector, and a selector without `:` is unchanged |
| Selectors.GetSpecificity | html_parser.py:16-37 | the id count is bounded by the selector's length and the type count by twice that |
| Selectors.PlainSpecificity | html_parser.py:16-37 | a selector made only of type names and combinators has specificity (0, 0, n), n being its number of identifiers |
| Selectors.FirstId | html_parser.py:53 | the id searched for is a non-empty name, and there is one exactly when the selector contains an `#name` |
| Selectors.ClassNames | html_parser.py:58 | one non-empty class name for each `.name` in the selector, the same count the specificity uses |
| Selectors.AttrSelectors | html_parser.py:63 | every attribute selector found carries one of the six operators or none |
| Selectors.AttrOutcome | html_parser.py:64-73 | one attribute selector succeeds exactly when the attribute is present and its operator's test holds; it raises exactly when a string test is applied to a token list |
| Selectors.AttrsHold | html_parser.py:64-73 | the attribute selectors all hold exactly when each one does; the loop raises exactly when the first failing selector raises |
| Selectors.PartMatches | html_parser.py:39-75 | one compound selector matches exactly when the tag name, first id, every class and every attribute selector hold, after pseudo-classes are removed |
| Selectors.ClimbIsEmbedding | html_parser.py:93-108 | the ancestor walk, which binds each part to the nearest matching ancestor without backtracking, succeeds exactly when the parts fit on strictly ascending ancestors |
| Selectors.AnyOfNone | html_parser.py:84-115 | a selector list fails exactly when every alternative fails |
| Selectors.AnyOfSome | html_parser.py:84-115 | a selector list matches exactly when some alternative matches and none before it matches or raises |
| Selectors.AltMatches | html_parser.py:86-91 | an empty alternative raises (there is no last part), and an alternative whose last part does not match the element fails |
| Selectors.ClimbAncestors | html_parser.py:93-108 | the loop over the ancestors computes the ancestor walk |
| Selectors.MatchAlternative | html_parser.py:86-113 | the loop body for one alternative computes its match |
| Selectors.MatchSelector | html_parser.py:77-115 | `_matches_selector` as loops computes the selector-list match |
| Cascade.OtherRulesIgnored | html_parser.py:129-130 | rules other than style rules contribute nothing to the matching rules |
| Cascade.BySpecificity | html_parser.py:136 | the sort key orders by specificity as Python compares tuples, and it is a total preorder |
| Cascade.CascadedIsBest | html_parser.py:136-140 | a property's computed value comes from the last block of greatest specificity declaring it |
| Cascade.AbsentWhenUndeclared | html_parser.py:138-140 | a property is absent from the computed style exactly when no matching block declares it |
| Cascade.WinnerIsGreatest | html_parser.py:136-140 | a computed property's value comes from a declaring block whose specificity is at least every other declaring block's, and no later declaring block is as specific |
| Cascade.CollectMatchingRules | html_parser.py:129-134 | the collecting loop gives every matching selector's specificity and style in sheet order, or the first exception |
| Cascade.ApplyAll | html_parser.py:138-140 | the applying loop assigns every declaration in sorted order, so later assignments win |
| Cascade.ComputeStyles | html_parser.py:118-142 | `_compute_styles` computes the cascaded style of the element, or propagates a matching exception |
| ODict.Put | html_parser.py:140 | an assignment sets the key, leaves every other key alone, keeps an existing key's position and appends a new key |
| ODict.PutAll | html_parser.py:138-140 | after a run of assignments each key holds its last assigned value, or its earlier value when never assigned |
| Sorting.SortSorted | html_parser.py:136 | the sort's result is ordered by the key |
| Sorting.SortStable | html_parser.py:136 | the sort keeps elements with equal keys in their original order |
| Sorting.LastWhereSortIsBest | html_parser.py:136-140 | after a stable sort the last element with a property is the latest among those of greatest key |
| Importer.DetermineType | html_parser.py:144-151 | a listed tag is its own type, an input takes its `type` attribute (`text` when absent), anything else is `div` |
| Importer.ElementId | html_parser.py:162 | an element keeps a non-empty id of its own; otherwise its id is its type, a hyphen and the counter's number |
| Importer.InlineDecls | html_parser.py:166-173 | inline declarations come only from a non-empty `style` attribute the parser accepts |
| Importer.ApplyInline | html_parser.py:166-173 | an inline declaration overrides the cascaded value of its property; other properties keep their cascaded value |
| Importer.InlinedSrc | html_parser.py:175-181 | an image source is inlined only for an `img` with a local `src` whose file can be read, as a PNG data URL of that file |
| Importer.RewriteImgSrc | html_parser.py:175-183 | only `src` can change, to the inlined data URL; a failed or skipped read leaves the element unchanged |
| Importer.UrlGroup | html_parser.py:187 | the captured URL holds no `)` and no line break, and `url(` it `)` occurs in the value |
| Importer.InlineBackground | html_parser.py:185-196 | only `backgroundImage` can change, and only to the data URL of a readable local file named by its `url(...)` |
| Importer.CopiedAttributes | html_parser.py:206 | the component keeps exactly the attributes whose lower-cased name is neither `id` nor `style` |
| Importer.ElementIds | html_parser.py:153-222 | a parsed element's id, name, type and tag, and the counter after it: advanced once for each element of its subtree without an id of its own |
| Importer.ContentCounter | html_parser.py:210-217 | walking the contents advances the counter once for each id synthesised below them |
| Importer.ContentTexts | html_parser.py:210-213 | the direct text is the stripped non-blank string runs, in order |
| Importer.ContentChildren | html_parser.py:210-217 | the i-th child component is the i-th named child element, parsed with the counter advanced past all earlier siblings' subtrees |
| Importer.IdCounter.constructor | html_parser.py:261 | the counter starts at the given number |
| Importer.IdCounter.Take | html_parser.py:262-266 | drawing returns the current number and advances the counter by one |
| Importer.ParseHtmlElement | html_parser.py:153-222 | `_parse_html_element` with a counter object gives the component of the recursive definition and leaves the counter where it says |
| Importer.ParseHtmlContents | html_parser.py:210-220 | the contents loop gives the children and direct text of the recursive definition and advances the counter as it says |
| Importer.Accumulate | html_parser.py:231-259 | accumulating file and inline texts fails exactly when one of them fails |
| Importer.Gather | html_parser.py:233-259 | the loop over links, styles or scripts appends each text in order, stopping at the first failure |
| Importer.ByCascade | html_parser.py:164 | the styles given to the element parser are the cascade of the parsed style sheet |
| Importer.ProjectNextId | html_parser.py:261-285 | the body is the only root component, with its id drawn first; the counter ends one past the ids synthesised; without a body there are no components |
| Importer.ProjectHasNoScripts | html_parser.py:249-259 | no imported component is a `script` element, because scripts are removed before the body is parsed |
| Importer.SynthSingle | html_parser.py:162 | an element draws a number only when it has no id of its own, and its contents draw the rest |
| Importer.DrawnInRange | html_parser.py:153-222 | the numbers handed out while an element is parsed are exactly the counter's value on arrival up to the value it leaves behind |
| Importer.DrawnAllRange | html_parser.py:210-217 | over an element's contents the numbers handed out are consecutive, each child starting where its older siblings stopped |
| Importer.DrawnNodeRange | html_parser.py:210-216 | a text run or an unnamed element draws nothing; an element draws its own block |
| Importer.NodeNumbers | html_parser.py:162 | the numbers a node draws rise strictly and stay below the counter it leaves behind |
| Importer.ProjectNumbers | html_parser.py:261-285 | the import hands out 1 up to `nextId - 1`, each once, in increasing order with parents before children: `nextId` is above every number used |
| Importer.ProjectCounter | html_parser.py:261-285 | the project's `nextId` is one above the ids synthesised in the body's subtree |
| Importer.ImportDocument | html_parser.py:224-285 | `parse_html_to_project` as loops and a counter object computes the project of the definition |
| Exporter.EmptyValuesOmitted | project_generator.py:20-21 | a property with an empty value prints exactly as if it were absent |
| Exporter.StyleRoundTrip | project_generator.py:13-22 | kebab names with non-empty values, camel-cased into a style, print as the original `name: value;` pairs in their order |
| Exporter.CssRules | project_generator.py:17-21 | every rule printed comes from a non-empty value, and every non-empty value is printed |
| Exporter.ByZIndex | project_generator.py:31 | siblings are ordered by integer z-index, text nodes counting as 0; the order is a total preorder |
| Exporter.OtherAttributes | project_generator.py:46-50 | the extra attributes are exactly those whose lower-cased name is neither `id` nor `style` |
| Exporter.AttributePairs | project_generator.py:45-50 | the attributes start with `id` and the style as CSS, then the others |
| Exporter.RenderShape | project_generator.py:35-56 | a text node prints as its text; a void element is its opening tag alone; any other element starts with its opening tag and ends with its closing tag |
| Exporter.SiblingOrder | project_generator.py:31-33 | siblings print in a stable z-index order that is a permutation of the components |
| Exporter.DocumentOrderKept | project_generator.py:31 | siblings already in z-index order print in document order |
| Exporter.NonEmptyEntries | project_generator.py:62-70 | only per-element entries with non-empty text are emitted, and all of them are |
| Exporter.FullCss | project_generator.py:65 | the style sheet starts with the global CSS and a line break |
| Exporter.FullScript | project_generator.py:71 | the script starts with the global script and the `DOMContentLoaded` opener, and ends by closing it |
| Exporter.ElementCodeEmitted | project_generator.py:62-71 | every element with non-empty CSS gets its `#id { ... }` rule, and every element with a non-empty script gets its guarded script |
| Exporter.Page | project_generator.py:73-90 | the page starts with the doctype and contains the body, the style sheet and the script |
| Exporter.GenerateHtml | project_generator.py:5-91 | the first result is the body markup, and the page contains it |
| LuaExport.SanitizeAsWritten | project_generator.py:106-109 | text with neither long-bracket delimiter is unchanged |
| LuaExport.SanitizeAsWrittenLeaks | project_generator.py:109 | the escaping as written leaves a closing `]=]` in `]=]=]` |
| LuaExport.AsWrittenReadBack | project_generator.py:106-109 | a payload holding neither `[=[` nor a bracket it could close early comes back from the source's level-1 literal as itself, less a leading line break that Lua drops |
| LuaExport.PayloadLevel | project_generator.py:202-212 | the corrected literal's level: the lowest from 1 at which the payload cannot close the bracket early, and 1 wherever the source's level already suffices |
| LuaExport.LongStringReadBack | project_generator.py:202-212 | the corrected literal reads back as the payload itself, with nothing in it rewritten |
| LuaExport.ScriptParts | project_generator.py:190-224 | the script holds the state table, the menu structure and both payload literals |
| LuaExport.PayloadsReadBack | project_generator.py:202-212 | Lua reads the page and the JS back from the two literals unchanged when neither holds `[=[` nor a bracket it could close early |
| LuaExport.MenuType | project_generator.py:122-130 | an item with element children is a submenu; otherwise `slidercb`, `slider`, `checkbox` or `action`, each exactly for its combination of classes |
| LuaExport.MenuLabel | project_generator.py:115-119 | the label is the stripped text of the first text-node child, `""` when there is none |
| LuaExport.LuaId | project_generator.py:139 | the Lua name of an id has its length and no hyphen; each hyphen became `_` and every other character is kept |
| LuaExport.AttrOr | project_generator.py:144-146 | a missing attribute reads as the default |
| LuaExport.ItemFields | project_generator.py:132-148 | each kind's table holds its label and type, a submenu its target, a toggle its state variable, a slider also its value and bounds (0, 100, 1 by default) |
| LuaExport.SliderKinds | project_generator.py:142 | among the five kinds, exactly `slider` and `slidercb` start with `slider` |
| LuaExport.SliderParts | project_generator.py:138-146 | a slider's table holds state, value and bounds in that order |
| LuaExport.Submenus | project_generator.py:157-163 | the submenus listed are components of the level that are elements with element children |
| LuaExport.MenuLevels | project_generator.py:152-170 | the first level is the one built for the given key and components; the levels after it are placed by SubmenuTargetsFollow and SiblingTargetsInOrder |
| LuaExport.TopSubmenuTarget | project_generator.py:162-170 | each top-level submenu has a later level keyed by its id listing its children |
| LuaExport.SubmenuTargetsFollow | project_generator.py:152-170 | every submenu item, at any depth, has its target level later in the structure, keyed by its id and listing its children |
| LuaExport.ItemComps | project_generator.py:158-159 | the components listed as items are components of the level and none is a text node |
| LuaExport.ItemListed | project_generator.py:158-160 | every component of the level that is not a text node is listed |
| LuaExport.ItemsInOrder | project_generator.py:158-160 | of two listed components, the earlier in the level comes first |
| LuaExport.Items | project_generator.py:158-160 | a level's item lines are the table lines of its listed components, one each, in order |
| LuaExport.SubmenusInOrder | project_generator.py:157-163 | of two components that open a submenu, the earlier in the level is listed first |
| LuaExport.SiblingTargetsInOrder | project_generator.py:162-170 | of two submenu items of one level, the earlier one's level comes first, and both come after the level listing them |
| LuaExport.Block | project_generator.py:153-167 | a level's block ends with the Back item and the two closing lines |
| LuaExport.FindAllIsAllComps | project_generator.py:176-182 | without text nodes, the collected components are every component in preorder |
| LuaExport.FindAllComponents | project_generator.py:176-182 | no collected component is a text node |
| LuaExport.StateTable | project_generator.py:175-188 | the table opens, holds a `_state = false` and a `_value = 0` line for each component in order, and closes |
| LuaGenerator.MenuBuilder.constructor | project_generator.py:150 | the structure starts with its opening line |
| LuaGenerator.MenuBuilder.BuildMenu | project_generator.py:152-170 | the recursive builder appends exactly the levels of the menu structure |
| LuaGenerator.MenuBuilder.AppendLevel | project_generator.py:153-167 | one level's lines are appended, and its submenus returned |
| LuaGenerator.MenuBuilder.BuildSubmenus | project_generator.py:169-170 | each submenu's levels are appended in order |
| LuaGenerator.MenuBuilder.ListItems | project_generator.py:157-163 | one item line per element, and the list of those that open a submenu |
| LuaGenerator.FunctionsTable | project_generator.py:175-188 | the loop builds the state table of all components |
| LuaGenerator.GenerateLuaScript | project_generator.py:93-224 | the script is the template around the state table, the menu structure of the components and the payloads, escaped with the two replacements the source makes |
| LegacyExport.ByLegacyZ | MMM.py:35 | siblings are ordered by integer z-index; the order is a total preorder |
| LegacyExport.LegacySiblingOrder | MMM.py:35-37 | siblings print in a stable z-index order that is a permutation of the components |
| LegacyExport.AttributesListed | MMM.py:58-65 | every attribute, `id` and `style` included, appears as `key="value"` |
| LegacyExport.AttrsTextStarts | MMM.py:58 | the attributes start with the id and the style as CSS |
| LegacyExport.Attributes | MMM.py:58-65 | the attribute loop computes the attribute text |
| LegacyExport.TextShown | MMM.py:67-70 | changing a component's text changes its markup exactly when the tag is not `svg`, `path` or `g` |
| LegacyExport.ScriptsOwned | MMM.py:41-48 | every script emitted belongs to one of the components |
| LegacyExport.ScriptOwner | MMM.py:41-48 | the component that owns a given emitted script |
| LegacyExport.ScriptsComplete | MMM.py:41-48 | every component with a non-empty script has it emitted |
| LegacyExport.NoMapNoScripts | MMM.py:53-54 | children, rendered with an empty map, contribute no scripts |
| LegacyExport.PageTemplate | MMM.py:76-95 | the page starts with the doctype and contains the CSS, the body and the scripts |
| LegacyExport.RenderComponent | MMM.py:37-70 | the loop body renders one component as its markup |
| LegacyExport.GenerateHtml | MMM.py:23-96 | `generate_html` gives the body markup and the page around it with the scripts of the sorted components |
| LegacyLua.LiteralChoice | MMM.py:139-145 | the literal uses single quotes when the text has none, else double quotes when it has none, else a long bracket; a chosen quote never occurs in the text |
| LegacyLua.LuaStringValue | MMM.py:139-145 | a Lua literal read back is shorter than the literal |
| LegacyLua.SanitizeReadBack | MMM.py:139-145 | text without backslash, line break or long-bracket close reads back from its literal as itself |
| LegacyLua.ToggleQuoting | MMM.py:154-155 | the toggle message goes in double quotes unless the id holds one, then in a long bracket |
| LegacyLua.MasterCompsAre | MMM.py:151-155 | the master key toggles exactly the components that use it |
| LegacyLua.OwnKeyCompsAre | MMM.py:158-165 | an open-key block exists exactly for the components with an open key that do not use the master key |
| LegacyLua.MasterInjectionsAre | MMM.py:151-155 | the master block injects one toggle per component using it, in order |
| LegacyLua.OpenKeyBlockAt | MMM.py:158-165 | the j-th three-line open-key block is the one for the j-th component with a key of its own |
| LegacyLua.NoDoubleToggle | MMM.py:147-165 | no component is toggled both by the master key and by a key of its own |
| LegacyLua.MasterFirst | MMM.py:147-167 | with a master key its block comes first and ends before the open-key blocks; without one only open-key blocks remain |
| LegacyLua.MasterLines | MMM.py:147-156 | the first loop builds the master block |
| LegacyLua.OpenKeyLines | MMM.py:158-165 | the second loop builds the open-key blocks |
| LegacyLua.KeyHandlerLines | MMM.py:147-165 | the key handler lines are the master block followed by the open-key blocks |
| LegacyLua.AllJsListed | MMM.py:134-136 | every entry of the script map is in the page script, wrapped in its guard |
| LegacyLua.AllJsStarts | MMM.py:111-134 | the page script starts with the interaction script |
| LegacyLua.AllJs | MMM.py:134-136 | the loop builds the page script |
| LegacyLua.LuaPayloads | MMM.py:169-190 | the script holds the markup, CSS and page script in long brackets, and the key handlers inside the key-release handler |
| LegacyLua.GenerateLuaScript | MMM.py:98-191 | the script is the template around the body markup, the CSS, the page script and the joined key handlers |
| LegacyImport.SplitFirst | MMM.py:200 | splitting at the first `:` gives a key without `:` and the rest |
| LegacyImport.RuleDecl | MMM.py:199-203 | a rule gives one declaration exactly when it has a `:` |
| LegacyImport.StyleJson | MMM.py:194-204 | the style holds each key once, with the value of its last declaration; empty CSS gives an empty style |
| LegacyImport.CssToJson | MMM.py:194-204 | the loop computes the style |
| LegacyImport.StyleJsonOfStyleToCss | MMM.py:194-204 | a style of camelCase keys and clean values, printed and read back, is itself |
| LegacyImport.LegacyId | MMM.py:210 | an element's own id is kept, even an empty one; otherwise `element-` and the drawn number |
| LegacyImport.KeptAttributes | MMM.py:224 | the component keeps exactly the attributes not named `id` or `style` |
| LegacyImport.ParseNode | MMM.py:206-239 | only a named element gives a component, with its tag and id |
| LegacyImport.TextRunsStripped | MMM.py:227-230 | every collected text run is non-empty and stripped |
| LegacyImport.WalkNumbers | MMM.py:206-239 | an element draws its number before its children, and its subtree draws consecutive numbers without gaps |
| LegacyImport.WalkNumbersDistinct | MMM.py:206-239 | no two elements of a subtree draw the same number |
| LegacyImport.ParseHtmlElement | MMM.py:206-239 | `parse_html_element` with a counter object gives the component of the definition and draws one number per element |
| LegacyImport.ParseContents | MMM.py:227-237 | the contents loop gives the children and text runs of the definition and advances the counter once per element |
| LegacyImport.ImportNumbers | MMM.py:941-954 | the imported elements draw exactly the numbers from 1 up to the reported next id |
| LegacyImport.NoBody | MMM.py:949-950 | without a body nothing is imported and the next id is 1 |
| LegacyImport.CollectStyles | MMM.py:956-960 | the loop joins the head's style texts |
| LegacyImport.ImportHtml | MMM.py:927-962 | `import_html` computes the imported page of the definition |
| BorderRadius.ParseBorderRadius | MMM.py:486-494 | four radii; a missing or empty value, or one with no values, gives four empty radii |
| BorderRadius.ExpandsAsCss | MMM.py:486-494 | one to four values are completed as CSS completes them; beyond four the first four are kept; every radius is one of the values |
| BorderRadius.JoinRoundTrip | MMM.py:486-494 | four radii joined by single spaces read back unchanged |
| BorderRadius.SetCornerReadBack | MMM.py:683-687 | after an edit the chosen corner reads back as the new value and every other corner keeps its radius, `0px` where there was none |

## Left out

- Parsing HTML and CSS is not modelled. A document is a tree of elements and
  strings, and a style sheet is a list of rules with their declarations.
  The parsers, files read from disk and base64 encoding are parameters.
- `generate_lua_script` in `project_generator.py` re-parses the page with an
  HTML parser to recover the body, style and script. The model takes those
  three texts as parameters.
- JSON values are strings: a z-index is a decimal string and `masterKey` is
  text, with `""` standing for an unset or false value.
- Exporter.ByZIndex, LegacyExport.ByLegacyZ: a z-index that `int()` rejects
  raises in the source. The model requires every z-index to parse
  (`ZIndexesOk`, `LegacyZOk`) instead of modelling the exception.
  `Text.ParseInt` reads surrounding white space, an optional sign and ASCII
  digits. Python's `int()` also accepts `_` between digits and non-ASCII
  digits. Z-indexes written that way are excluded by the same preconditions.
- Text.IsUpper, Text.IsLower, Text.IsLetter, Text.IsWordChar, Text.IsSpace,
  Text.Lower, Text.Capitalize, Text.Title, Text.Strip, Text.Words: characters
  are classified as ASCII (`IsSpace` also knows the Latin-1 spaces). Python's
  `\w`, `str.split()`, `strip()`, `lower()`, `capitalize()` and `title()`
  are Unicode-aware. So a text run made only of U+3000 is kept by the model
  where Python drops it, and a class selector such as `.café` stops at the
  `é` in the model.
- LuaLong.LongStringValue: Lua turns every carriage return and
  carriage-return/line-feed pair in a long string into a line feed. The
  reader does not model that conversion; it gives `None` for such text, so
  the read-back lemmas require payloads without carriage returns.
- LegacyLua.LuaStringValue: reads only the literals this generator writes,
  without escape sequences or carriage returns.
- The editor's user interface is left out, apart from `parseBorderRadius`
  and the write-back of one corner. A `/` between horizontal and vertical
  radii is treated as an ordinary value.
- BorderRadius.ParseBorderRadius: any non-string input is `None`.
- Selectors.GetSpecificity: its own contract only bounds the counts. The
  exact counts are stated for selectors made of type names alone
  (`PlainSpecificity`); ids, classes, attribute brackets and pseudo-classes
  are counted by scanners whose contracts bound them.
- Logging and the printed warnings for missing images, CSS and JS files are
  left out. A missing file contributes nothing, as in the source.
- `api.py` (the HTTP layer) is not part of this model.
- The `attachments` field of an imported component is always empty and is
  not modelled.

## Findings

| source | as written | input that shows it | evidently intended | confidence | as-written member | corrected member |
|---|---|---|---|---|---|---|
| project_generator.py:106-109 | `]=]` is replaced by `]==]` once, left to right, so overlapping occurrences survive; a payload ending in `]=` is not touched | `]=]=]` becomes `]==]=]`, and its level-1 literal closes early, so Lua does not read it back (`LongStringValue` gives `None`) | the JS and the page reach Lua as written: a long bracket of a level the payload cannot close, chosen per payload (`LongString`) | not executed | LuaExport.SanitizeAsWrittenLeaks | LuaExport.LongStringReadBack |

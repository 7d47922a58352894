# openagent core logic in Dafny

This project models the deterministic logic of the openagent web application. It covers:

- the browser side of generated pages: the minimal server-side renderer `h` / `renderToString` and the `data-*` directive handlers of the Alpine.js plugin;
- the string helpers of the TSX-to-JavaScript transpiler;
- the named-SQL tooling;
- the small state machines on the Go side: OTP verification, the agent's history, step and command filter, the project store and the project service;
- the line-based `.env` rewriting and the migration selection;
- the assorted pure rules: version increments, connection strings and cache classes.

Every operation is stated against a specification of its own and proved about it. Time, randomness, the file system, the database and the network are parameters.

One module per source file, plus a shared module:

| module | file | models |
|---|---|---|
| `GoStrings` | `go_strings.dfy` | the Go `strings`/`strconv` functions the code calls: `Fields`, `Split`, `SplitN`, `Join`, `TrimSpace`, `HasPrefix`, `Atoi` with its 64-bit range, ASCII `ToLower`/`ToUpper` |
| `Ssr` | `ssr.dfy` | `tests/esgoja/tpl/lib/ssr.js` |
| `Directives` | `directives.dfy` | `tpl/views/js/_common.js` |
| `JsxText` | `jsx_text.dfy` | `server/transpile/jsx.go` helpers |
| `TranspileMisc`, `TranspileExamples` | `transpile_misc.dfy`, `transpile_examples.dfy` | `server/transpile/misc.go` |
| `Queries` | `queries.dfy` | `common/queries.go` |
| `SqlLoader` | `sql_loader.dfy` | `common/sql_loader.go` |
| `OtpAuth` | `otp_auth.dfy` | `auth/functions.go` |
| `AgentLoop` | `agent.dfy` | `server/agent.go` |
| `AdminEnv` | `admin_env.dfy` | `admin/functions.go` |
| `Migrations` | `migrations.dfy` | `server/database.go` |
| `CliVersion` | `cli_version.dfy` | `cli/cli.go` |
| `CacheHeaders` | `cache_headers.dfy` | `server/cache.go` |
| `ConnString` | `conn_string.dfy` | `projects/handlers.go` |
| `ProjectService` | `project_service.dfy` | `projects/service.go` |
| `ProjectStore` | `project_store.dfy` | `projects/models.go` |

Code that works by mutation is modelled imperatively:

- the directive handlers mutate an `Element` class;
- the OTP store, the agent, the SQL query registry, the project store, the service cache and the HTTP response are classes with `modifies` clauses;
- loops in the source are `while` loops with invariants, proved against the function that specifies them.

Pure code is modelled as functions and lemmas.

## Model

| member | source | states |
|---|---|---|
| Ssr.H | tests/esgoja/tpl/lib/ssr.js:4-6 | the vnode keeps its type and its children as given; a missing props object becomes the empty object |
| Ssr.RunLength | tests/esgoja/tpl/lib/ssr.js:37 | the match of `[&<>"]+` at a position: the longest run of special characters, followed by a non-special one or the end |
| Ssr.EscapeAttr | tests/esgoja/tpl/lib/ssr.js:38-44 | the escaping the callback's cases describe; its output holds no `<`, `>` or `"` |
| Ssr.EscapeHtml | tests/esgoja/tpl/lib/ssr.js:36-46 | escapeHtml as written, stated by `EscapeHtmlAgreesWhenSeparated`, `EscapeHtmlKeepsRuns`, `EscapeHtmlQuotePair` and `EscapeAttrTag`: a lone special character becomes its entity, a run of two or more is kept raw |
| Ssr.UnescapeEntity | tests/esgoja/tpl/lib/ssr.js:38-44 | decoding reads each of the four entities back as its character |
| Ssr.UnescapePlain | tests/esgoja/tpl/lib/ssr.js:38-44 | decoding copies characters other than `&` |
| Ssr.UnescapeEscapeAttr | tests/esgoja/tpl/lib/ssr.js:36-46 | decoding undoes the corrected escaping for every string (round trip) |
| Ssr.EscapeHtmlAgreesWhenSeparated | tests/esgoja/tpl/lib/ssr.js:36-46 | where no two special characters are adjacent, escapeHtml as written equals the corrected escaping |
| Ssr.EscapeHtmlKeepsRuns | tests/esgoja/tpl/lib/ssr.js:37-43 | a string made only of two or more special characters comes out unchanged as written (the `default` case) |
| Ssr.RunAll | tests/esgoja/tpl/lib/ssr.js:37 | a string made only of special characters is one run |
| Ssr.EscapeHtmlQuotePair | tests/esgoja/tpl/lib/ssr.js:36-46 | the value `""` is left raw by escapeHtml as written but is `&quot;&quot;` when corrected |
| Ssr.Attribute | tests/esgoja/tpl/lib/ssr.js:28 | one ` key="…"` attribute whose value is `String(value)` passed through escapeHtml as written, stated by `AttrsKeepsEmitted`, `AttrsOne` and `RenderKeepsSpecialRuns` |
| Ssr.Attrs | tests/esgoja/tpl/lib/ssr.js:26-29 | the attribute string of a prop list, stated by `AttrsAppend`, `AttrsSkipsDropped`, `AttrsKeepsEmitted` and `AttrsOne` |
| Ssr.AttrsAppend | tests/esgoja/tpl/lib/ssr.js:26-29 | the attribute string of two prop lists is the concatenation of theirs, so props come out in key order |
| Ssr.AttrsSkipsDropped | tests/esgoja/tpl/lib/ssr.js:26-27 | a `children`, null, undefined or `false` prop contributes nothing, wherever it stands |
| Ssr.AttrsKeepsEmitted | tests/esgoja/tpl/lib/ssr.js:26-29 | any other prop contributes ` key="…"` in its place, its value being `String(value)` through escapeHtml as written |
| Ssr.ComponentProps | tests/esgoja/tpl/lib/ssr.js:17 | `{...props, children}`: `children` is the vnode's children and every other key keeps its value |
| Ssr.Render | tests/esgoja/tpl/lib/ssr.js:10-34 | renderToString, stated per kind of node by `RenderScalars`, `RenderTextIsRaw`, `RenderArrayAppend`, `RenderComponent`, `RenderFragment`, `RenderElement`, `RenderNonNodeIsDiv` and `RenderKeepsSpecialRuns` |
| Ssr.RenderAll | tests/esgoja/tpl/lib/ssr.js:14 | the in-order rendering of a list of nodes, stated by `RenderAllAppend` |
| Ssr.RenderAllAppend | tests/esgoja/tpl/lib/ssr.js:14 | rendering a list of nodes is the in-order concatenation of their renderings |
| Ssr.RenderArrayAppend | tests/esgoja/tpl/lib/ssr.js:14 | an array renders as the concatenation of its parts' renderings |
| Ssr.RenderFragment | tests/esgoja/tpl/lib/ssr.js:20-25 | a Fragment emits only its children, no tag, and ignores its props |
| Ssr.RenderComponent | tests/esgoja/tpl/lib/ssr.js:16-19 | a function vnode is called once with `{...props, children}` and its result is rendered; a throwing call renders as `""` |
| Ssr.RenderElement | tests/esgoja/tpl/lib/ssr.js:20-30 | an element is `<tag attrs>`, its children in order, `</tag>`, with `div` for a missing type |
| Ssr.RenderTextIsRaw | tests/esgoja/tpl/lib/ssr.js:13-28 | a string renders verbatim, while the same string as an attribute value goes through escapeHtml as written |
| Ssr.RenderOneAttribute | tests/esgoja/tpl/lib/ssr.js:20-30 | an element with one emitted prop and no children is its tag, that attribute and its closing tag |
| Ssr.RenderKeepsSpecialRuns | tests/esgoja/tpl/lib/ssr.js:26-43 | an attribute value made only of two or more special characters reaches the markup unescaped, so `h('a', {title: '""'})` renders as `<a title=""""></a>` |
| Ssr.RenderScalars | tests/esgoja/tpl/lib/ssr.js:12-13 | null and undefined render as `""`, a number as its decimal digits |
| Ssr.AttrsOne | tests/esgoja/tpl/lib/ssr.js:28 | one emitted prop gives exactly ` k="v"`, with v its `String()` through escapeHtml as written |
| Ssr.EscapeAttrTag | tests/esgoja/tpl/lib/ssr.js:36-46 | `<b>` escapes to `&lt;b&gt;`, by escapeHtml as written and by the corrected escaping alike |
| Ssr.RenderNonNodeIsDiv | tests/esgoja/tpl/lib/ssr.js:20-30 | a boolean, a bare object or a vnode without a type renders as `<div></div>` |
| Ssr.RenderFragmentExample | tests/esgoja/tpl/lib/ssr.js:4-25 | `renderToString(h(Fragment, null, h('p', null, 'x')))` is `<p>x</p>` |
| Directives.TextOrEmpty | tpl/views/js/_common.js:130 | `result \|\| ''`: `""` for a falsy result, `String(result)` otherwise, the string itself for a string |
| Directives.AddClass | tpl/views/js/_common.js:144 | `classList.add`: the token is present afterwards, nothing else is added, and no token is duplicated |
| Directives.RemoveClass | tpl/views/js/_common.js:146 | `classList.remove`: the token is absent afterwards and every other token stays |
| Directives.ApplyClassObject | tpl/views/js/_common.js:141-148 | toggling each key keeps the class list duplicate-free, and succeeds exactly when every key is a valid token |
| Directives.ApplyClassObjectToggles | tpl/views/js/_common.js:141-148 | after an object result, a key's class is present exactly when its (last) value is truthy; classes not named by a key are left alone |
| Directives.ApplyClassObjectSnoc | tpl/views/js/_common.js:142-148 | the keys are processed in order, one toggle each |
| Directives.ClassNameTokens | tpl/views/js/_common.js:149-150 | the class list a className string sets: valid, duplicate-free tokens |
| Directives.AsciiWordPrefix | tpl/views/js/_common.js:150 | the leading run of non-whitespace characters of a className string |
| Directives.AsciiWords | tpl/views/js/_common.js:150 | the whitespace-separated words of a className string are valid tokens |
| Directives.Dedup | tpl/views/js/_common.js:150 | the first occurrences of the words, duplicate-free and holding the same words |
| Directives.RemoveListener | tpl/views/js/_common.js:25 | removing one handler removes exactly the listeners with that id |
| Directives.CleanupUndoesInstall | tpl/views/js/_common.js:113-114 | a listener's cleanup restores the listener list that held before it was added |
| Directives.Element.constructor | tpl/views/js/_common.js:12 | scaffolding the model adds for the DOM element `el` that every directive is handed (the DOM itself is not part of this model): it starts visible, with empty text and value, unchecked, with no classes and no listeners |
| Directives.Element.Show | tpl/views/js/_common.js:78-86 | display becomes `''` for a truthy result and `'none'` for a falsy one |
| Directives.Element.Text | tpl/views/js/_common.js:127-133 | textContent becomes `result \|\| ''` |
| Directives.Element.Disable | tpl/views/js/_common.js:118-124 | disabled becomes `!!result` |
| Directives.Element.Require | tpl/views/js/_common.js:157-163 | required becomes `!!result` |
| Directives.Element.ModelEffect | tpl/views/js/_common.js:89-98 | a checkbox's checked becomes `!!result`; any other input's value becomes `result \|\| ''`; the other field is unchanged |
| Directives.Element.ClassEffect | tpl/views/js/_common.js:136-154 | an object result toggles its keys and a string replaces the class list; `null`, whose `typeof` is `'object'`, makes `Object.keys` throw; any other result changes nothing |
| Directives.Element.AddListener | tpl/views/js/_common.js:24 | the new handler is appended under a fresh id |
| Directives.Element.RemoveListenerById | tpl/views/js/_common.js:25 | the cleanup removes exactly the handler it registered |
| Directives.Event.constructor | tpl/views/js/_common.js:13-14 | an event starts with its default not prevented |
| Directives.Component.constructor | tpl/views/js/_common.js:107 | the component instance holds the given data |
| Directives.HandleInvoke | tpl/views/js/_common.js:12-75 | a `-prevent` handler prevents the default first; the result is called with the event exactly when the expression is non-empty and evaluates to a function |
| Directives.HandleModelInput | tpl/views/js/_common.js:100-111 | the input's value, or `checked` for a checkbox, is written back only when the component's property is defined; otherwise the instance is unchanged |
| JsxText.EscapeJs | server/transpile/jsx.go:611-632 | the escaping of a string, character by character; the result holds no raw newline, CR or tab |
| JsxText.EscapeJsAppend | server/transpile/jsx.go:613-630 | escaping works per character: the escape of a concatenation is the concatenation of the escapes |
| JsxText.EscapeJSString | server/transpile/jsx.go:611-632 | the Builder loop computes the escaping of the whole string |
| JsxText.UnescapeEscapeJs | server/transpile/jsx.go:611-632 | read back as a JavaScript string literal, the escaped text is the original text: only the six listed characters change, and reversibly |
| JsxText.IsOnlyIndentation | server/transpile/jsx.go:597-608 | true exactly when every character is a space, tab, CR or LF, so also for `""` |
| JsxText.IndexFrom | server/transpile/jsx.go:1104-1107 | a position found holds the character and lies at or after the start |
| JsxText.IndexFromFirst | server/transpile/jsx.go:1104-1107 | the position found is the first one; when none is found no position holds the character |
| JsxText.CloseAt | server/transpile/jsx.go:1104 | a match of `\{([^}]+)\}` at `{`: a `}` at least two places on |
| JsxText.CloseAtFirst | server/transpile/jsx.go:1104 | the captured expression holds no `}` |
| JsxText.ParseTextInterpolation | server/transpile/jsx.go:1100-1147 | the loop over the matches, updating `lastIndex` and appending parts, computes the specified parts |
| JsxText.ReassembleSnoc | server/transpile/jsx.go:1109-1139 | putting one more part back adds its text, or its expression in braces |
| JsxText.ReassembleStep | server/transpile/jsx.go:1109-1125 | one match: the text before it and the braced expression restore the text up to the match's end |
| JsxText.ReassembleBefore | server/transpile/jsx.go:1111-1119 | the string part before a match restores the text up to the match |
| JsxText.BracedSlice | server/transpile/jsx.go:1122 | the expression between the braces, braced again, is the matched slice |
| JsxText.ScanMatch | server/transpile/jsx.go:1109-1125 | the scan at a match records it and continues after the `}` |
| JsxText.ScanSkip | server/transpile/jsx.go:1107 | a position without a match is skipped |
| JsxText.ReassembleEnd | server/transpile/jsx.go:1128-1144 | the trailing part restores the rest of the text |
| JsxText.ReassemblesSame | server/transpile/jsx.go:1100-1147 | reassembly respects equal part lists |
| JsxText.ScanReassembles | server/transpile/jsx.go:1107-1144 | the scan from any position yields parts that restore the text |
| JsxText.MatchReassembles | server/transpile/jsx.go:1109-1125 | the same, from a position where a match starts |
| JsxText.Interpolate | server/transpile/jsx.go:1100-1147 | the split of a text into literal and expression parts, stated by `InterpolateReassembles` and `InterpolateShape` |
| JsxText.InterpolateReassembles | server/transpile/jsx.go:1100-1147 | the parts are the text in source order: each string part verbatim and each expression between its braces gives back the text |
| JsxText.WellFormedStep | server/transpile/jsx.go:1111-1123 | a match adds a non-empty string part, if any, and a non-empty expression without `}` |
| JsxText.ShapedSame | server/transpile/jsx.go:1100-1147 | the shape of the parts respects equal part lists |
| JsxText.WellFormedEnd | server/transpile/jsx.go:1128-1144 | the parts end with a string part whenever the text is non-empty |
| JsxText.ScanWellFormed | server/transpile/jsx.go:1107-1144 | the scan from any position yields parts of that shape |
| JsxText.InterpolateShape | server/transpile/jsx.go:1128-1146 | `""` gives no parts; a non-empty text ends in a string part, possibly empty after a final interpolation; every other part is non-empty; expressions hold no `}` |
| JsxText.ScanNoBraces | server/transpile/jsx.go:1141-1144 | text without `{` scans to a single string part |
| JsxText.InterpolateWithoutBraces | server/transpile/jsx.go:1128-1144 | text without braces is one string part holding the whole text, and `""` gives none |
| JsxText.InterpolateExample | server/transpile/jsx.go:1136-1139 | `{a}` gives the expression `a` and a trailing empty string part |
| JsxText.Pieces | server/transpile/jsx.go:1170-1174 | one piece per part: a quoted escaped literal or a parenthesised expression |
| JsxText.BuildTextConcatenation | server/transpile/jsx.go:1150-1178 | no parts give `""`; a lone string part is quoted; a lone expression is bare; several parts are their pieces joined with ` + ` |
| JsxText.JoinPieces | server/transpile/jsx.go:1164-1177 | the Builder loop writes the pieces joined by ` + ` |
| JsxText.PiecesSnoc | server/transpile/jsx.go:1165-1175 | one more part appends ` + ` and its piece |
| JsxText.Concatenation | server/transpile/jsx.go:1150-1178 | buildTextConcatenation, stated by `PlainTextConcatenation` |
| JsxText.PlainTextConcatenation | server/transpile/jsx.go:1155-1157 | a text without braces becomes one quoted literal that reads back as the text |
| JsxText.InterpolateOne | server/transpile/jsx.go:1100-1147 | a text `a{e}b` (a non-empty, no `{` in a or b, e non-empty without `}`) splits into exactly the literal a, the expression e and the literal b, in that order |
| JsxText.ConcatenationOneInterpolation | server/transpile/jsx.go:1150-1178 | such a text becomes `'a' + (e) + 'b'`, with both literals escaped for JavaScript |
| JsxText.ConcatenationThree | server/transpile/jsx.go:1160-1174 | a literal, an expression and a literal are emitted as the quoted literal, the parenthesised expression and the quoted literal, joined by ` + ` |
| JsxText.OneHead | server/transpile/jsx.go:1103-1126 | the scan over a text that starts with a brace-free run and then a well-formed interpolation emits that run and that expression and resumes after the `}` |
| JsxText.OneTail | server/transpile/jsx.go:1129-1139 | after a match, a brace-free rest of the text is emitted as one final literal |
| JsxText.SplitNonWord | server/transpile/jsx.go:845-846 | `\W+` split: at least one piece, each of word characters only, a trailing empty piece after trailing non-word characters |
| JsxText.Capitalize | server/transpile/jsx.go:854 | the first byte upper-cased and the rest unchanged |
| JsxText.GetTitleCase | server/transpile/jsx.go:838-859 | the method computes the title case of its input |
| JsxText.CapitalizeParts | server/transpile/jsx.go:848-855 | the loop skips empty pieces and capitalises the others, in order |
| JsxText.CapitalizeNonEmptyWords | server/transpile/jsx.go:849-855 | every kept piece is a title word |
| JsxText.TitleCase | server/transpile/jsx.go:838-859 | getTitleCase, stated by `TitleCaseWords`, `TitleCaseOfTitleWords`, `TitleCaseIdempotent` and `TitleCaseMakesComponent` |
| JsxText.TitleCaseWords | server/transpile/jsx.go:838-859 | the title case is `""` for blank input and otherwise the title words joined with single spaces |
| JsxText.SplitNonWordAppendWord | server/transpile/jsx.go:845-846 | word characters appended extend the last piece |
| JsxText.SplitNonWordAppendSpace | server/transpile/jsx.go:845-846 | a space after a word character starts a new empty piece |
| JsxText.SplitNonWordOfJoin | server/transpile/jsx.go:845-846 | non-empty words joined with spaces split back into the same words |
| JsxText.JoinEndsWithWord | server/transpile/jsx.go:858 | such a join starts and ends with a word character |
| JsxText.CapitalizeNonEmptyFixed | server/transpile/jsx.go:849-855 | capitalising title words changes nothing |
| JsxText.WordCharNotSpace | server/transpile/jsx.go:839-845 | a word character is not white space |
| JsxText.TitleCaseOfTitleWords | server/transpile/jsx.go:838-859 | title words joined by single spaces are already title cased |
| JsxText.TitleCaseIdempotent | server/transpile/jsx.go:838-859 | title casing twice is title casing once |
| JsxText.IsCustomReactComponent | server/transpile/jsx.go:571-578 | isCustomReactComponent, stated by `TitleCaseMakesComponent` |
| JsxText.TitleCaseMakesComponent | server/transpile/jsx.go:571-578 | a title-cased name starting with a letter passes isCustomReactComponent (first byte in `A`-`Z`) |
| JsxText.JoinFirst | server/transpile/jsx.go:858 | a join starts with the first word's first character |
| JsxText.WordPrefix | server/transpile/jsx.go:1242 | `\w+` at a position: the longest prefix of word characters |
| JsxText.SpaceRun | server/transpile/jsx.go:1242 | `\s*`: the longest run of white space |
| JsxText.DeclAt | server/transpile/jsx.go:1242 | a match of the declaration pattern at a position captures a non-empty name of word characters |
| JsxText.FindDecl | server/transpile/jsx.go:1243 | the leftmost match captures such a name |
| JsxText.ExtractComponentName | server/transpile/jsx.go:1240-1256 | the result is `Component` or a non-empty name of word characters |
| JsxText.ExtractFromExportDefault | server/transpile/jsx.go:1241-1246 | a file that begins `export default function Name(` yields `Name` |
| JsxText.WordPrefixOf | server/transpile/jsx.go:1242 | the name stops at the first non-word character |
| JsxText.FindDeclNeedsParen | server/transpile/jsx.go:1242-1250 | without a `(` neither pattern matches |
| JsxText.ExtractFallback | server/transpile/jsx.go:1240-1256 | without any `(` the name falls back to `Component` |
| JsxText.FragmentPatternsUnbordered | server/transpile/jsx.go:983-986 | neither `<>` nor `</>` can overlap itself, so its matches do not interfere |
| JsxText.ReplaceAllOfEmpty | server/transpile/jsx.go:983-986 | replacing in `""` gives `""` |
| JsxText.FragmentFirstPass | server/transpile/jsx.go:983 | the first pass rewrites the leading `<>` and the inside, and keeps the closing `</>` |
| JsxText.FragmentOpener | server/transpile/jsx.go:983 | the leading `<>` is the first match |
| JsxText.FragmentCloserKept | server/transpile/jsx.go:983 | the trailing `</>` holds no `<>` and no match straddles it |
| JsxText.FragmentSecondPass | server/transpile/jsx.go:986 | the second pass leaves the new opener alone and rewrites the trailing `</>` |
| JsxText.HandleReactFragments | server/transpile/jsx.go:978-989 | handleReactFragments, stated by `HandleReactFragmentsWraps` |
| JsxText.HandleReactFragmentsWraps | server/transpile/jsx.go:978-989 | `<>inner</>` becomes `<React.Fragment>`, the rewritten inside, `</React.Fragment>` |
| TranspileMisc.ConvertToCamelCase | server/transpile/misc.go:81-103 | the method, with its loop accumulating `result`, computes the specified conversion |
| TranspileMisc.CapitalizeLater | server/transpile/misc.go:95-100 | the loop keeps the first part as it is and appends each later non-empty part capitalised |
| TranspileMisc.CamelTailJoin | server/transpile/misc.go:96-100 | what the loop appends is the capitalised non-empty later parts, concatenated |
| TranspileMisc.CamelStep | server/transpile/misc.go:97-99 | one more part adds its capitalised form, or nothing when it is empty |
| TranspileMisc.JoinNoSep | server/transpile/misc.go:98 | joining without a separator is concatenation |
| TranspileMisc.StripHyphens | server/transpile/misc.go:88-100 | no hyphen remains and nothing is added |
| TranspileMisc.StripHyphensAppend | server/transpile/misc.go:88-100 | hyphens are deleted piecewise |
| TranspileMisc.StripHyphensNone | server/transpile/misc.go:89-92 | text without a hyphen is kept |
| TranspileMisc.StripHyphensJoin | server/transpile/misc.go:88-100 | deleting the hyphens of parts joined by hyphens concatenates the parts |
| TranspileMisc.ToLowerAppend | server/transpile/misc.go:91-98 | lower-casing works per character |
| TranspileMisc.LowerUpper | server/transpile/misc.go:91-98 | lower-casing an upper-cased character is lower-casing it |
| TranspileMisc.LowerCapitalize | server/transpile/misc.go:98 | capitalising a part changes it only in letter case |
| TranspileMisc.LowerCapitalizeNonEmpty | server/transpile/misc.go:96-100 | capitalising the parts changes nothing up to letter case |
| TranspileMisc.SplitMany | server/transpile/misc.go:88-89 | more than one part means the text held a hyphen |
| TranspileMisc.SplitOne | server/transpile/misc.go:88-89 | text without a hyphen splits into itself |
| TranspileMisc.CamelCase | server/transpile/misc.go:81-103 | ToCamelCase as written, stated by `LowerCamelCase`, `CamelCaseLetters`, `CamelCaseSingleWord`, `CamelCaseFirstPart`, `CamelCaseAfterHyphen` and `CamelCaseFinding` |
| TranspileMisc.LowerCamelCase | server/transpile/misc.go:81-103 | up to letter case the conversion only deletes hyphens |
| TranspileMisc.LowerJoined | server/transpile/misc.go:94-102 | the hyphenated branch, up to letter case, is the parts concatenated |
| TranspileMisc.LowerHyphen | server/transpile/misc.go:88 | a character is a hyphen exactly when its lower-case form is |
| TranspileMisc.CamelCaseLetters | server/transpile/misc.go:81-103 | no hyphen remains, the length is that of the text without hyphens (so `""` gives `""`), and up to letter case nothing else changes |
| TranspileMisc.CamelCaseSingleWord | server/transpile/misc.go:89-92 | with no hyphen only the first byte is upper-cased and the rest is unchanged |
| TranspileMisc.SplitFirst | server/transpile/misc.go:88 | the part before the first hyphen splits off as the first part |
| TranspileMisc.CamelCaseFirstPart | server/transpile/misc.go:95 | the first part of a hyphenated text is kept with its case unchanged |
| TranspileMisc.CapitalizeNonEmptyFirst | server/transpile/misc.go:97-98 | a non-empty first part is the first one capitalised |
| TranspileMisc.CamelCaseAfterHyphen | server/transpile/misc.go:96-99 | a character right after a hyphen is upper-cased |
| TranspileMisc.CamelCaseFinding | server/transpile/misc.go:81-103 | `button` converts to the component name `Button`, but `my-button` converts to `myButton`, not a component name |
| TranspileMisc.PascalCase | server/transpile/misc.go:81-103 | the corrected ToCamelCase, stated by `PascalCaseSingleWord`, `PascalCaseIsComponent` and `PascalCaseLetters` |
| TranspileMisc.PascalCaseSingleWord | server/transpile/misc.go:89-92 | the corrected conversion agrees with convertToCamelCase on text without hyphens |
| TranspileMisc.PascalCaseIsComponent | server/transpile/misc.go:81-103 | the corrected conversion of a text starting with an ASCII letter is always a component name |
| TranspileMisc.PascalCaseLetters | server/transpile/misc.go:81-103 | up to letter case the corrected conversion also only deletes hyphens |
| TranspileMisc.FindFrom | server/transpile/misc.go:171 | the leftmost occurrence of a delimiter at or after a position lies within the text |
| TranspileMisc.FindFromSpec | server/transpile/misc.go:171 | it is the first occurrence at or after the position, and none is reported only when there is none |
| TranspileMisc.FindFromAt | server/transpile/misc.go:171 | an occurrence with none before it is the one found |
| TranspileMisc.RemoveComments | server/transpile/misc.go:169-173 | `(?s)<!--.*?-->` replaced by `""` in one leftmost, lazy pass never lengthens the text |
| TranspileMisc.RemoveCommentsNoOpener | server/transpile/misc.go:169-173 | text without `<!--` is left alone |
| TranspileMisc.CommentDelimitersUnbordered | server/transpile/misc.go:171 | neither delimiter can overlap itself |
| TranspileMisc.OccursAtShift | server/transpile/misc.go:171 | occurrences in a suffix are occurrences in the whole text, shifted |
| TranspileMisc.FindAfterFree | server/transpile/misc.go:171 | with no occurrence before it, the lazy `.*?` stops at the first closer |
| TranspileMisc.RemoveCommentsStep | server/transpile/misc.go:171 | one round: the text before the first comment is kept, the comment goes, the rest is rewritten |
| TranspileMisc.RemoveCommentsStrip | server/transpile/misc.go:169-173 | a comment, multiline ones included, is deleted and the text on both sides kept |
| TranspileMisc.RemoveCommentsStripByChar | server/transpile/misc.go:169-173 | the same, with the conditions stated per character |
| TranspileMisc.RemoveCommentsByChar | server/transpile/misc.go:169-173 | when nothing after it can start a comment, only that comment goes |
| TranspileMisc.RemoveCommentsUnclosed | server/transpile/misc.go:169-173 | an opener that is never closed leaves the rest of the text as it is |
| TranspileMisc.ClassAttrUnbordered | server/transpile/misc.go:106 | `class=` cannot overlap itself |
| TranspileMisc.ReplaceClassToClassName | server/transpile/misc.go:105-107 | the `class=` to `className=` replacement, stated by `ReplaceClassAround` and `ReplaceClassAbsent` |
| TranspileMisc.ReplaceClassAround | server/transpile/misc.go:105-107 | every `class=` becomes `className=` where it stands and the text around it is rewritten in the same way |
| TranspileMisc.ReplaceClassAbsent | server/transpile/misc.go:105-107 | text without `class=` is left alone |
| TranspileExamples.RemoveCommentsSinglePass | server/transpile/misc.go:171 | the rewrite is a single pass: deleting one comment can join two pieces into a new `<!--` that stays |
| TranspileExamples.RemoveCommentsOneComment | server/transpile/layouts_test.go:335-340 | the comment in `<div>Hello <!-- ... --> World</div>` goes and the text around it stays |
| TranspileExamples.RemoveCommentsMultiline | server/transpile/layouts_test.go:347-352 | a comment holding real line breaks is removed, a case beyond the test, whose raw string holds no line break |
| TranspileExamples.RemoveCommentsRawBackslashes | server/transpile/layouts_test.go:347-352 | the test's own input, with each `\n` a backslash and `n`, loses its comment and keeps the text around it |
| TranspileExamples.RemoveCommentsTwo | server/transpile/layouts_test.go:341-346 | two comments are both removed, not only the first |
| TranspileExamples.RegroupTwo | server/transpile/layouts_test.go:341-346 | the text with two comments, regrouped around the first one |
| TranspileExamples.RemoveCommentsTwoComments | server/transpile/layouts_test.go:341-346 | the multiple-comments case of the test table |
| TranspileExamples.ReplaceClassTwo | server/transpile/misc.go:105-107 | each `class=` becomes `className=` and the text between them stays |
| TranspileExamples.ReplaceClassExample | server/transpile/misc.go:105-107 | a concrete element with two `class=` attributes |
| Queries.LeadingDigits | common/queries.go:150-155 | the part of the word kept by the trimming loop: its leading digits, up to the first non-digit |
| Queries.LeadingDigitsAt | common/queries.go:150-155 | the digits end exactly at the first non-digit |
| Queries.MaxParam | common/queries.go:141-166 | the largest placeholder number among the words, never negative (0 when there is none) |
| Queries.MaxParamIsMax | common/queries.go:141-166 | no word names a larger number, and a non-zero result is named by some word |
| Queries.MaxParamBounds | common/queries.go:157-161 | every placeholder number is at most the result |
| Queries.MaxParamAttained | common/queries.go:157-161 | a non-zero result is the number of some word |
| Queries.TrimTrailing | common/queries.go:150-155 | the inner loop cuts the word at its first non-digit |
| Queries.CountQueryParameters | common/queries.go:141-166 | the loop updating `maxParam` computes the maximum over the whitespace-separated words |
| Queries.WordParamIgnoresTail | common/queries.go:150-156 | `$` + digits + a tail starting with a non-digit names the digits' value |
| Queries.WordParamExample | common/queries.go:150-156 | the word `$2,` counts as placeholder 2 |
| Queries.DocPrefixColon | common/queries.go:176-180 | a line starting `-- $` holds no `:` before its fourth character, so `parts[0][3:]` is in range |
| Queries.FilterMapAppend | common/queries.go:173-185 | the entries of consecutive blocks of lines follow each other |
| Queries.FilterMapFrom | common/queries.go:173-185 | every entry comes from some line |
| Queries.DetailsSnoc | common/queries.go:173-185 | one more line adds its entry, if it documents a parameter |
| Queries.GenericParams | common/queries.go:192-198 | `$1`, ..., `$k`, exactly k of them |
| Queries.CollectDetails | common/queries.go:170-185 | the first loop appends one `$N=desc` entry per documenting line, in line order |
| Queries.GenericParamList | common/queries.go:194-197 | the fallback loop appends `$1` to `$n` |
| Queries.ExtractParameterDetails | common/queries.go:169-202 | the entries joined with `, `; without any, `$1, ..., $k` for k placeholders; `""` for none |
| Queries.SplitOnceAt | common/queries.go:178 | `SplitN(s, ":", 2)` cuts at the first colon |
| Queries.DetailOfDoc | common/queries.go:176-183 | the comment `-- $N:desc` yields the entry `$N=desc` |
| Queries.DocParam | common/queries.go:180 | `parts[0][3:]` of `-- $N` is `$N` |
| Queries.DetailOfSplit | common/queries.go:178-182 | the entry is the trimmed text after `-- ` and before the colon, `=`, and the trimmed description |
| Queries.DetailOfNonEmpty | common/queries.go:180-182 | every entry is non-empty |
| Queries.DetailsNonEmpty | common/queries.go:187-189 | the first entry found is non-empty |
| Queries.JoinEmpty | common/queries.go:188 | a join with a non-empty first part is non-empty |
| Queries.ParameterDetails | common/queries.go:169-202 | the parameter description of an error message, stated by `ParameterDetailsEmpty` |
| Queries.ParameterDetailsEmpty | common/queries.go:169-202 | the description is `""` exactly when no line documents a parameter and no `$N` appears |
| Queries.AddDefaultParameters | common/queries.go:205-219 | AddDefaultParameters, stated by `AddDefaultsKeepsParams` and `AddDefaultsIdempotent` |
| Queries.AddDefaultsKeepsParams | common/queries.go:205-219 | the given parameters are kept, in order, at the end; at most one `"public"` is added, exactly for `ListDatabaseTables` without parameters and `GetTableColumns` with one |
| Queries.AddDefaultsIdempotent | common/queries.go:205-219 | adding defaults twice adds nothing more |
| Queries.LowerSpace | common/queries.go:225 | lower-casing keeps white space white space |
| Queries.TrimLeftLower | common/queries.go:225 | trimming commutes with lower-casing |
| Queries.TrimRightLower | common/queries.go:225 | the same at the right end |
| Queries.UpperOfLower | common/queries.go:225 | upper-casing a lower-cased text is upper-casing it |
| Queries.Classify | common/queries.go:224-233 | the statement classification, stated by `ClassifyCaseInsensitive` and `ClassifyIgnoresPadding` |
| Queries.ClassifyCaseInsensitive | common/queries.go:224-233 | SELECT, then INSERT/UPDATE/DELETE, then generic, recognised in any letter case |
| Queries.ClassifyIgnoresPadding | common/queries.go:224-233 | leading and trailing white space does not change the kind |
| Queries.TrimPadding | common/queries.go:225 | trimming removes padding on both sides |
| Queries.TrimLeftPadding | common/queries.go:225 | left padding is removed |
| Queries.TrimLeftAppend | common/queries.go:225 | left trimming of a text with a suffix |
| Queries.TrimRightSpaces | common/queries.go:225 | trailing white space is removed |
| SqlLoader.SkipReSpace | common/sql_loader.go:13 | `\s*`: the first index whose character is not white space |
| SqlLoader.ReSpaceAt | common/sql_loader.go:13 | `\S+` ends at the first white space or the end |
| SqlLoader.ReSpaceAtRun | common/sql_loader.go:13 | nothing before that index is white space |
| SqlLoader.ReSpaceRun | common/sql_loader.go:13 | a white-space run followed by a non-space ends where skipping stops |
| SqlLoader.NonReSpaceRun | common/sql_loader.go:13 | a non-space run ends at the next white space |
| SqlLoader.NameDirectiveCanonical | common/sql_loader.go:13-54 | the line `-- name: X` declares query X |
| SqlLoader.NoDashNoDirective | common/sql_loader.go:47 | a line without `-` declares nothing |
| SqlLoader.DirectiveIsName | common/sql_loader.go:13-54 | what a directive captures is a non-empty name without white space |
| SqlLoader.ParseDirective | common/sql_loader.go:47-55 | a directive stores the body gathered so far, if any, and starts an empty body under the new name |
| SqlLoader.ParseBodyLine | common/sql_loader.go:56-60 | a body line under a name is appended with a newline |
| SqlLoader.ParseSkipped | common/sql_loader.go:56 | a comment, or any line before the first directive, is skipped |
| SqlLoader.UnnamedIgnored | common/sql_loader.go:56 | lines before the first directive are ignored |
| SqlLoader.CommentsSkipped | common/sql_loader.go:56 | `--` lines inside a query leave its body as it is |
| SqlLoader.BodyAppended | common/sql_loader.go:56-60 | the body lines of a named query are appended in order, each with a newline |
| SqlLoader.ParseChain | common/sql_loader.go:43-61 | parsing steps compose |
| SqlLoader.BodySnoc | common/sql_loader.go:58-59 | one more body line adds itself and a newline |
| SqlLoader.DirectiveStarts | common/sql_loader.go:47-55 | a directive line stores the query before it and starts a new one |
| SqlLoader.BodyNonEmpty | common/sql_loader.go:49 | a body of one or more lines is non-empty, so it is stored |
| SqlLoader.Loaded | common/sql_loader.go:43-66 | the registry after scanning a file, stated by `QueryDefined`, `DirectiveFirst`, `EmptyQueryNotStored` and `RedefinitionOverwrites` |
| SqlLoader.QueryDefined | common/sql_loader.go:43-66 | a directive and its body lines store the trimmed body under the name and change no other key |
| SqlLoader.DirectiveFirst | common/sql_loader.go:47-55 | a file starting with a directive starts that query with an empty body |
| SqlLoader.EmptyQueryNotStored | common/sql_loader.go:64-66 | a name followed by no body line is not stored |
| SqlLoader.RedefinitionOverwrites | common/sql_loader.go:49-66 | defining a name again overwrites the earlier body; other keys are as before |
| SqlLoader.Regroup | common/sql_loader.go:43-61 | regrouping the lines of a file |
| SqlLoader.RedefinedBody | common/sql_loader.go:56-66 | the body lines after a directive are stored, trimmed, under its name |
| SqlLoader.FlushThenStore | common/sql_loader.go:49-52 | storing under a name after a flush of that name leaves every other key as it was |
| SqlLoader.Lookup | common/sql_loader.go:72-78 | GetSQL's answer: the body exactly when the name is loaded, else the not-found error |
| SqlLoader.QueryRegistry.constructor | common/sql_loader.go:12 | the registry starts empty |
| SqlLoader.QueryRegistry.ParseSQLLines | common/sql_loader.go:32-69 | the scanner loop, updating the current name and body and writing the map, leaves the map the specified parse gives |
| SqlLoader.QueryRegistry.GetSQL | common/sql_loader.go:72-78 | the body, or the error naming the query |
| SqlLoader.QueryRegistry.MustGetSQL | common/sql_loader.go:82-88 | a loaded name gives its body; the panic on a missing name is the precondition |
| OtpAuth.Send | auth/functions.go:66-73 | the entry for the address is overwritten with the new code, expiry now + 5 minutes and 0 attempts; every other entry is unchanged |
| OtpAuth.Verify | auth/functions.go:86-119 | VerifyOTP on the store, stated by `VerifyNoEntry`, `VerifyExpired`, `VerifyTooMany`, `VerifyWrongCode`, `VerifySucceedsIff`, `VerifyOthersUnchanged` and `VerifyKeepsBound` |
| OtpAuth.VerifyNoEntry | auth/functions.go:90-93 | with no entry the call fails with `no OTP request found` and the store is untouched |
| OtpAuth.VerifyExpired | auth/functions.go:95-99 | an expired entry is deleted and the call fails, whatever code is offered |
| OtpAuth.VerifyTooMany | auth/functions.go:101-109 | an entry already at 3 attempts is deleted and the call fails even with the right code |
| OtpAuth.VerifyWrongCode | auth/functions.go:101-114 | a wrong code within the limit fails and keeps the entry with its attempt count incremented |
| OtpAuth.VerifySucceedsIff | auth/functions.go:86-119 | a call succeeds exactly when an unexpired entry below the limit holds the offered code, and then the entry is removed |
| OtpAuth.VerifyOthersUnchanged | auth/functions.go:86-119 | only the entry of the verified address can change |
| OtpAuth.SendKeepsBound | auth/functions.go:66-73 | sending keeps every stored attempt count at most 3 |
| OtpAuth.VerifyKeepsBound | auth/functions.go:101-109 | verifying keeps every stored attempt count at most 3 |
| OtpAuth.SendThenVerify | auth/functions.go:58-119 | a freshly sent code is accepted within its five minutes, and consumed |
| OtpAuth.WrongGuessCounts | auth/functions.go:101-114 | after a send, the n-th wrong guess within the lifetime leaves the entry at n attempts |
| OtpAuth.FourthAttemptLocked | auth/functions.go:101-109 | three wrong guesses lock the entry: the fourth call fails even with the right code |
| OtpAuth.OtpStore.constructor | auth/functions.go:31 | the store starts empty |
| OtpAuth.OtpStore.SendOTP | auth/functions.go:66-73 | the method leaves the store the specified send gives |
| OtpAuth.OtpStore.VerifyOTP | auth/functions.go:86-119 | the method's result and new store are those the specified verification gives |
| OtpAuth.IsPublicPath | auth/functions.go:323-339 | isPublicPath, stated by `PublicPathIff` and `LoginExtensionPublic` |
| OtpAuth.PublicPathIff | auth/functions.go:323-339 | a path is public exactly when it starts with one of the five listed prefixes |
| OtpAuth.IsAdminPath | auth/functions.go:342-355 | isAdminPath, stated by `AdminPathIff` |
| OtpAuth.AdminPathIff | auth/functions.go:342-355 | a path is an admin path exactly when it starts with `/admin` or `/api/admin/` |
| OtpAuth.LoginExtensionPublic | auth/functions.go:323-339 | the test is by prefix only: anything that extends `/login` is public |
| OtpAuth.DropRun | auth/functions.go:306-308 | a run of characters outside `[a-zA-Z0-9]` is dropped and the letters and digits are kept |
| OtpAuth.Sanitize | auth/functions.go:306-308 | the `[^a-zA-Z0-9]+` to `_` replacement, stated by `SanitizeShape`, `SanitizeKeepsAlnums`, `SanitizeFixed` and `SanitizeIdempotent` |
| OtpAuth.SanitizeShape | auth/functions.go:306-308 | `[^a-zA-Z0-9]+` replaced by `_` leaves only letters, digits and single underscores |
| OtpAuth.SanitizeKeepsAlnums | auth/functions.go:306-308 | every letter and digit survives, in order |
| OtpAuth.AlnumsCons | auth/functions.go:306 | the letters and digits of a text, one character at a time |
| OtpAuth.SanitizeFixed | auth/functions.go:306-308 | an already sanitized name is left as it is |
| OtpAuth.SanitizedTail | auth/functions.go:306-308 | the tail of a sanitized name is sanitized |
| OtpAuth.SanitizeIdempotent | auth/functions.go:306-308 | sanitizing twice is sanitizing once |
| OtpAuth.OrDefault | auth/functions.go:292-298 | an unset (empty) variable takes the default, any other value is kept |
| OtpAuth.SessionCookieName | auth/functions.go:301-320 | GetSessionCookieName, stated by `SessionCookieNameShape` |
| OtpAuth.SessionCookieNameShape | auth/functions.go:301-320 | the cookie name is the first 64 characters of `app_version`, both sanitized, with the defaults `OpenAgent` and `1.0.0.0`, and holds only letters, digits and `_` |
| CliVersion.IncrementRevision | cli/cli.go:431-450 | incrementRevision, stated by `IncrementWrongParts`, `IncrementNotInteger`, `IncrementVersion`, `IncrementBuildNumber`, `IncrementWraps` and `IncrementBumpsBuild`: the error cases for a malformed version and the fourth part incremented otherwise |
| CliVersion.IncrementWrongParts | cli/cli.go:431-435 | a version without exactly 4 dot-separated parts is rejected with the format error |
| CliVersion.IncrementNotInteger | cli/cli.go:437-441 | a 4th part that is not an integer is rejected, naming that part |
| CliVersion.IncrementVersion | cli/cli.go:443-449 | `a.b.c.n` becomes `a.b.c.(n+1)`; the first three parts are kept verbatim and not validated |
| CliVersion.IncrementBuildNumber | cli/cli.go:443-447 | the new revision is the old one plus one in Go's 64-bit `int` |
| CliVersion.IncrementWraps | cli/cli.go:444 | the largest revision wraps to the smallest `int` |
| CliVersion.IncrementBumpsBuild | cli/cli.go:431-450 | the bumped version keeps its first three parts and GetBuildNumber of it goes up by one |
| AgentLoop.Truncate | server/agent.go:184-206 | the history truncation of addToHistory, stated by `TruncateUnderBudget`, `TruncateFits`, `TruncateKeepsSystem`, `TruncateKeepsNewest` and `TruncateKeepsOrder` |
| AgentLoop.TruncateUnderBudget | server/agent.go:184-191 | a history whose words plus the new message's fit in 3500 is not truncated |
| AgentLoop.TruncateFits | server/agent.go:191-206 | after truncation the words fit the budget, unless at most one message is left or only a system prompt and one message remain |
| AgentLoop.TruncateKeepsSystem | server/agent.go:192-196 | a leading `system` message is never removed |
| AgentLoop.TruncateKeepsNewest | server/agent.go:191-206 | truncation keeps the newest message and only messages of the old history, and never lengthens it |
| AgentLoop.TruncateKeepsOrder | server/agent.go:191-206 | truncation keeps the order: the result is a suffix `h[j..]` of the history, or one message `h[j]` followed by a suffix `h[k..]` with j < k |
| AgentLoop.TruncateShape | server/agent.go:191-206 | the positions j and k of that shape, found by following the removals one at a time |
| AgentLoop.ShapeAfterSkip | server/agent.go:192-196 | removing the message after a system prompt keeps the shape relative to the longer history |
| AgentLoop.ShapeAfterDrop | server/agent.go:197-201 | removing the oldest message keeps the shape, shifted by one |
| AgentLoop.NewestAfterSkip | server/agent.go:192-196 | skipping the message after the system prompt keeps only old messages and the newest one |
| AgentLoop.NewestAfterDrop | server/agent.go:197-203 | dropping the oldest message keeps only old messages and the newest one |
| AgentLoop.FirstForbiddenSpec | server/agent.go:227-231 | the prefix loop finds nothing exactly when no listed prefix starts the lower-cased command, and otherwise finds the first that does |
| AgentLoop.FirstBlockedFieldSpec | server/agent.go:237-257 | the field loop finds nothing exactly when no field is caught by the write rule, and otherwise the first that is |
| AgentLoop.CommandSafety | server/agent.go:223-273 | isCommandSafe for a list of forbidden prefixes, stated by `CommandSafetyIff` and `UnsafeHasReason`; the agent passes the list as written, for which `ChmodPrefixInert` and `ChmodRunsAsWritten` hold |
| AgentLoop.CommandSafetyIff | server/agent.go:223-273 | a command is safe exactly when no forbidden prefix starts it, no field writes outside the data directory and any `cd` goes to an allowed directory |
| AgentLoop.WriteCheckSpec | server/agent.go:235-258 | the write check passes exactly when no field is an outside write |
| AgentLoop.UnsafeHasReason | server/agent.go:229-267 | every rejection comes with a non-empty reason starting `Command blocked:` |
| AgentLoop.ForbiddenBlocked | server/agent.go:227-231 | a lower-cased command starting with a listed prefix is rejected |
| AgentLoop.LowerHasNoUpper | server/agent.go:225-228 | no lower-cased text starts with a prefix that holds an upper-case letter |
| AgentLoop.ChmodPrefixInert | server/agent.go:215-228 | `chmod -R 000 /` is listed but no command can ever match it |
| AgentLoop.ChownPrefixInert | server/agent.go:215-228 | `chown -R ` is listed but no command can ever match it |
| AgentLoop.ChmodListed | server/agent.go:213-219 | the list as written holds `chmod -R 000 /` |
| AgentLoop.ChmodRunsAsWritten | server/agent.go:213-273 | with the list as written, the command `chmod -R 000 /` itself is judged safe |
| AgentLoop.ChmodSpelledSafe | server/agent.go:223-273 | the same, for the command given character by character |
| AgentLoop.ChmodTrim | server/agent.go:224 | trimming leaves `chmod -R 000 /` as it is |
| AgentLoop.ChmodLowerNotListed | server/agent.go:225-270 | lower-cased, that command starts with no entry as written and is no `cd` |
| AgentLoop.ChmodNoListedPrefix | server/agent.go:213-231 | no entry as written starts a text that begins `chm` and holds a lower-case `r` at index 7 |
| AgentLoop.ChmodNoWriteOp | server/agent.go:235-236 | that command holds none of `>`, `touch `, `mkdir `, `cp `, `mv `, so the field check is skipped |
| AgentLoop.SafeWhenRulesHold | server/agent.go:223-273 | a trimmed command that passes the prefix rule and the `cd` rule and writes nothing is safe |
| AgentLoop.ForbiddenAnyCaseBlocked | server/agent.go:213-231 | with the list lower-cased, a command starting with any listed prefix in any letter case is rejected |
| AgentLoop.ChmodBlocked | server/agent.go:213-231 | with the list lower-cased, `chmod -R 000 /` in any letter case is rejected |
| AgentLoop.CdOutsideBlocked | server/agent.go:261-270 | `cd` to anything but `/app/data`, a path under it, `.` or `..` is rejected |
| AgentLoop.RedirectOutsideBlocked | server/agent.go:235-254 | ` > /path` outside `/app/data/` in a command without a pipe is rejected |
| AgentLoop.WriteCheckBlocks | server/agent.go:235-258 | a field caught by the write rule rejects a command that passed the prefix rule |
| AgentLoop.IsCommandSafe | server/agent.go:223-273 | the method's two loops return the safety verdict and reason the specification gives |
| AgentLoop.FieldLoop | server/agent.go:237-257 | the field loop returns the first field the write rule catches |
| AgentLoop.StepOf | server/agent.go:277-296 | the state change of Step, stated by `StepNoOp`, `StepAtLimit`, `StepAdvances` and `StepKeepsBound` |
| AgentLoop.StepNoOp | server/agent.go:280-284 | a step from Finished, Blocked, Error, Thinking or Executing changes nothing |
| AgentLoop.StepAtLimit | server/agent.go:285-291 | at the iteration limit the agent finishes with the limit message and counts no iteration |
| AgentLoop.StepAdvances | server/agent.go:293-296 | below the limit a step counts one iteration, clears the error and starts thinking |
| AgentLoop.StepKeepsBound | server/agent.go:285-296 | steps never take the iteration count past the limit |
| AgentLoop.ParseAction | server/agent.go:404-463 | `FINAL_ANSWER:` wins over `COMMAND:`; a command is its trimmed text, and anything else is an invalid format |
| AgentLoop.Dispatch | server/agent.go:404-456 | the branch executeInternal takes for a parsed action, stated by `DispatchFlags` and `DispatchBlocks` |
| AgentLoop.DispatchFlags | server/agent.go:404-417 | only a final answer is final, and it and an empty command give their fixed observations |
| AgentLoop.DispatchBlocks | server/agent.go:419-456 | a block reason is returned exactly for an unsafe command; a safe command reports what running it gave |
| AgentLoop.Execute | server/agent.go:401-464 | executeInternal on a reply, stated by `ExecuteDispatch` and `ConcludeStates` |
| AgentLoop.ExecuteDispatch | server/agent.go:401-464 | executeInternal's three results, stated on the raw reply |
| AgentLoop.Conclude | server/agent.go:320-338 | the state after an execution, stated by `ConcludeStates` |
| AgentLoop.ConcludeStates | server/agent.go:320-338 | a block moves to Blocked with the reason; otherwise the observation is kept and the agent finishes or awaits the next step |
| AgentLoop.Agent.constructor | server/agent.go:102-121 | a new agent is idle at iteration 0 of 20 with an empty history, no output and no error; it checks commands against the forbidden list as written |
| AgentLoop.Agent.AddToHistory | server/agent.go:182-210 | the history becomes the truncated history with the new message appended; nothing else changes |
| AgentLoop.Agent.Step | server/agent.go:277-297 | the agent's state becomes the specified step's; the history is kept |
| AgentLoop.Agent.ThinkingFailed | server/agent.go:309-316 | a failed model call stops the agent in Error with `Thinking error: ` and the error |
| AgentLoop.Agent.ExecuteInternal | server/agent.go:401-464 | the method returns the specified outcome, filtering commands against the agent's list as written, and records its note in the history |
| AgentLoop.Agent.ExecuteReply | server/agent.go:319-338 | executing a reply leaves the state the specified conclusion gives |
| AgentLoop.Agent.ApplyOutcome | server/agent.go:323-338 | the state update after executeInternal, as the specified conclusion |
| AdminEnv.ExpectedCookie | admin/functions.go:25-29 | the expected cookie is `authenticated_` and the first eight characters of APP_VERSION, or of `1.0.0.0_` when the version is shorter |
| AdminEnv.IsMaintenanceAuthenticated | admin/functions.go:16-33 | the maintenance cookie test, stated by `MaintenanceUsesEightChars`, `MaintenanceShortVersion` and `MaintenanceCookieShape` |
| AdminEnv.MaintenanceUsesEightChars | admin/functions.go:26-32 | two versions that agree on their first eight characters accept the same cookies |
| AdminEnv.MaintenanceShortVersion | admin/functions.go:26-28 | every version shorter than eight characters accepts what the default `1.0.0.0_` accepts |
| AdminEnv.MaintenanceCookieShape | admin/functions.go:16-33 | an accepted cookie is `authenticated_` followed by exactly eight characters; a missing cookie is refused |
| AdminEnv.GetBuildNumber | admin/functions.go:36-50 | GetBuildNumber, stated by `BuildNumberOfVersion`, `BuildNumberWrongParts` and `BuildNumberNotInteger` |
| AdminEnv.BuildNumberOfVersion | admin/functions.go:41-49 | `a.b.c.n` without further dots has build number n |
| AdminEnv.BuildNumberWrongParts | admin/functions.go:38-44 | an empty version or one without exactly four dot-separated parts has build number 0 |
| AdminEnv.BuildNumberNotInteger | admin/functions.go:45-48 | a fourth part that is not a 64-bit integer gives 0 |
| AdminEnv.RewriteKeepsComments | admin/functions.go:77-81 | blank lines and `#` comments are kept verbatim and update no key |
| AdminEnv.RewriteKeepsMalformed | admin/functions.go:83-87 | lines without `=` are kept verbatim and update no key |
| AdminEnv.RewriteAssignment | admin/functions.go:89-95 | an assignment to an updated key becomes `key=new value` (key trimmed); any other assignment is kept |
| AdminEnv.RewriteEach | admin/functions.go:76-96 | one output line per input line, each the rewrite of its line |
| AdminEnv.UpdatedKeyLine | admin/functions.go:89-93 | a key is marked updated only if some line assigns it |
| AdminEnv.UpdatedKeysHas | admin/functions.go:89-93 | every updated key assigned on a line is marked updated |
| AdminEnv.RewriteKeyInUpdates | admin/functions.go:89-93 | a marked key is one of the updates and its line carries the new value |
| AdminEnv.Missing | admin/functions.go:99-103 | the keys appended are those of the updates not yet written, each once, in iteration order |
| AdminEnv.Assignments | admin/functions.go:101 | each appended line is `key=value` |
| AdminEnv.UpdatesAllWritten | admin/functions.go:76-103 | after the update every key of the updates has a `key=value` line in the file |
| AdminEnv.PresentNotAppended | admin/functions.go:98-103 | a key already assigned in the file is not appended again |
| AdminEnv.OtherLinesKept | admin/functions.go:76-96 | lines that assign no updated key keep their place and text |
| AdminEnv.AppendedOnce | admin/functions.go:98-103 | the file grows by exactly the missing keys, one line each |
| AdminEnv.UpdateEnvContent | admin/functions.go:64-106 | the content UpdateEnvFile writes, stated by `NoUpdatesNoChange` and `UpdateEmptyFile`, and produced by the method `UpdateEnvFile` |
| AdminEnv.NoUpdatesNoChange | admin/functions.go:71-106 | with no updates the content written is the content read |
| AdminEnv.UpdateEmptyFile | admin/functions.go:66-106 | a missing file reads as empty, so the first key is written after one empty line |
| AdminEnv.UpdateEnvFile | admin/functions.go:64-106 | the method's two loops produce the content the specification gives |
| AdminEnv.RewriteLines | admin/functions.go:76-96 | the first loop produces the rewritten lines and the set of updated keys |
| AdminEnv.RewriteOne | admin/functions.go:77-95 | one iteration of that loop is the specified rewrite of its line |
| AdminEnv.AppendMissing | admin/functions.go:98-103 | the second loop appends `key=value` for each key not yet updated |
| Migrations.SortStringsSpec | server/database.go:83 | `sort.Strings` leaves the names in byte order and holds the same names, each as often |
| Migrations.InsertSorted | server/database.go:83 | inserting a name into a sorted list keeps it sorted |
| Migrations.InsertMultiset | server/database.go:83 | inserting adds exactly that name |
| Migrations.LessEqTotal | server/database.go:83 | the byte order on names is total |
| Migrations.LessEqTrans | server/database.go:83 | the byte order on names is transitive |
| Migrations.Candidates | server/database.go:72-82 | the candidates are some of the directory's names, in directory order |
| Migrations.CandidatesIff | server/database.go:73-82 | a name is a candidate exactly when a non-directory entry carries it, ends in `.sql` and starts with `0` or `1` |
| Migrations.LastApplied | server/database.go:89-101 | lastApplied is 0 for a missing schema or an empty or unparsable MIGRATION_START, and the parsed value otherwise |
| Migrations.Numbers | server/database.go:108-114 | each name's number is the integer before its first `_`, if it parses |
| Migrations.MaxNumber | server/database.go:121-124 | the running maximum starts at 0 and never goes down |
| Migrations.MaxNumberBounds | server/database.go:121-124 | the maximum bounds every parsed number |
| Migrations.MaxNumberAttained | server/database.go:121-124 | the maximum is 0 or some file's number |
| Migrations.PendingIff | server/database.go:107-119 | a name is pending exactly when its number parses and is above lastApplied |
| Migrations.PendingSorted | server/database.go:107-119 | filtering keeps the names in their sorted order |
| Migrations.HighestBounds | server/database.go:105-124 | highestApplied bounds every parsed number |
| Migrations.HighestAttained | server/database.go:105-124 | highestApplied is 0 or the number of one of the names |
| Migrations.PlanMigrations | server/database.go:50-159 | the selection applySchema makes, stated by `NoFilesIsError`, `PlanPendingSpec`, `PendingAdvancesStart` and `RerunFindsNothing` |
| Migrations.NoFilesIsError | server/database.go:85-87 | a directory without a candidate is the `no migration files found` error |
| Migrations.PlanPendingSpec | server/database.go:72-125 | the pending files are exactly the candidates above lastApplied, sorted |
| Migrations.PendingAdvancesStart | server/database.go:127-159 | MIGRATION_START is written exactly when something is pending, and then with the highest number, which is above lastApplied |
| Migrations.RerunFindsNothing | server/database.go:89-159 | once MIGRATION_START holds the highest number, selecting again finds nothing pending |
| Migrations.MigrationStartContent | server/database.go:166-210 | the content updateMigrationStart writes, stated by `MigrationStartReadBack` and produced by the method `UpdateMigrationStart` |
| Migrations.MigrationStartReadBack | server/database.go:166-196 | the number written as `%03d` reads back as the same lastApplied |
| Migrations.CollectMigrationNames | server/database.go:72-82 | the directory loop collects the candidates |
| Migrations.SelectStep | server/database.go:107-125 | one iteration of the filtering loop extends the pending list and the running maximum |
| Migrations.SelectPending | server/database.go:104-125 | the filtering loop yields the pending list and highestApplied |
| Migrations.ApplySchemaPlan | server/database.go:50-159 | applySchema's selection, up to executing SQL, yields the specified plan or error |
| Migrations.ConfigEach | server/database.go:182-201 | one output line per input line; empty lines and lines without `=` are kept |
| Migrations.ConfigSetsEveryLine | server/database.go:188-200 | every line whose trimmed key is managed takes the new value, not only the first such line |
| Migrations.ConfigKeepsOtherLines | server/database.go:182-201 | every other line is kept as it was |
| Migrations.ConfigAppendsMissing | server/database.go:203-206 | a managed key is appended once exactly when no line holds it |
| Migrations.DatabaseConfigContent | server/database.go:399-476 | the content updateDatabaseConfig writes, stated by `ConfigMissingIff` and produced by the method `UpdateDatabaseConfig` |
| Migrations.ConfigMissingIff | server/database.go:409-467 | a database key is appended exactly when no line assigns it |
| Migrations.RewriteConfigLines | server/database.go:418-450 | the shared line loop yields the rewritten lines and the keys found |
| Migrations.UpdateMigrationStart | server/database.go:166-210 | the content written is the specified MIGRATION_START update of the content read |
| Migrations.UpdateDatabaseConfig | server/database.go:399-476 | the content written is the specified DB_* update of the content read |
| Migrations.ColumnType | server/database.go:1421-1432 | seven numeric types map to `number`, `boolean` to `boolean`, five time types to `date` and everything else to `text` |
| CacheHeaders.Classify | server/cache.go:14-23 | a path is a static asset, else an API path, else a page, and exactly one of them |
| CacheHeaders.CachedHeaders | server/cache.go:14-85 | the headers SetCacheHeaders leaves, stated by `CachedHeadersSet` and `ExpiresOnlyStatic` |
| CacheHeaders.CachedHeadersSet | server/cache.go:53-85 | every path gets its class's Cache-Control (a year, one minute or five minutes) and the ETag given; no other header changes |
| CacheHeaders.ExpiresOnlyStatic | server/cache.go:57-59 | Expires is set exactly for static assets; other paths keep what they had |
| CacheHeaders.IsStaticAsset | server/cache.go:26-45 | isStaticAsset, stated by `StaticByExtension`, `StaticByDirectory` and `StaticIgnoresCase` |
| CacheHeaders.IsAPIPath | server/cache.go:48-50 | isAPIPath, stated through `Classify` and `ApiPolicy` |
| CacheHeaders.StaticByExtension | server/cache.go:27-34 | a path ending in one of the twelve extensions, in any case, is a static asset |
| CacheHeaders.StaticByDirectory | server/cache.go:37-42 | a path under `/static/`, `/tsx/css/` or `/tsx/js/`, in any case, is a static asset |
| CacheHeaders.StaticIgnoresCase | server/cache.go:28 | the static test depends only on the lower-cased path |
| CacheHeaders.ApiPolicy | server/cache.go:48-50 | a non-static path under `/api/` or `/auth/` gets `private, max-age=60` |
| CacheHeaders.StaticBeatsApi | server/cache.go:16-19 | an API path ending in `.js` is cached as a static asset |
| CacheHeaders.AbsentHeaderNeverMatches | server/cache.go:113-116 | a request without If-None-Match is never answered 304, even for an empty ETag |
| CacheHeaders.Response.constructor | server/cache.go:14 | a response starts with no headers and no status |
| CacheHeaders.Response.SetCacheHeaders | server/cache.go:14-85 | the headers become the specified cached headers; the status is kept |
| CacheHeaders.Response.HandleConditionalRequest | server/cache.go:112-124 | a matching non-empty If-None-Match answers 304 and sets nothing; otherwise the ETag header is set and false returned |
| ConnString.FirstDbName | projects/handlers.go:584-590 | the loop stops at the first field starting with `dbname=`, or finds none |
| ConnString.SetDbName | projects/handlers.go:584-594 | that field alone becomes `dbname=<name>`, or `dbname=<name>` is appended when there is none |
| ConnString.SetDbNameFound | projects/handlers.go:584-594 | the field written is the first `dbname=` field of the result |
| ConnString.FirstDbNameAt | projects/handlers.go:584-590 | a `dbname=` field with none before it is the one found |
| ConnString.SetDbNameTwice | projects/handlers.go:584-594 | setting the name twice is setting it once to the second name |
| ConnString.SetDbNameFields | projects/handlers.go:582-594 | a name without white space keeps every part a field |
| ConnString.UpdateConnectionStringDBName | projects/handlers.go:579-601 | updateConnectionStringDBName, stated by `UpdatedFields`, `UpdateTwice` and `UnsupportedIffEmpty` |
| ConnString.UpdatedFields | projects/handlers.go:581-595 | splitting the output again gives the input's fields with the name set |
| ConnString.UpdateTwice | projects/handlers.go:579-601 | updating twice is updating once with the second name |
| ConnString.UnsupportedIffEmpty | projects/handlers.go:579-601 | the output is empty exactly when the type is neither `postgres` nor `postgresql` |
| ConnString.UpdateDbName | projects/handlers.go:579-601 | the method's loop, with its break, gives the specified output |
| ProjectService.CreateCheck | projects/service.go:48-62 | creation may proceed exactly when the name and domain are set and the lookup found no project; otherwise the first failing check's error |
| ProjectService.Create | projects/service.go:47-65 | a failed check is returned as the error; otherwise the repository's answer |
| ProjectService.UpdateCheck | projects/service.go:109-123 | an update may proceed exactly when the name and domain are set and the domain is free or the project's own |
| ProjectService.Update | projects/service.go:108-126 | a failed check is returned as the error; otherwise the repository's error |
| ProjectService.CreateCheckImpliesUpdateCheck | projects/service.go:47-126 | whatever Create accepts, Update accepts too |
| ProjectService.UpdateOwnDomain | projects/service.go:60-62 | a project keeping its own domain passes Update and fails Create's domain check |
| ProjectService.CreateKeepsDomainsUnique | projects/service.go:55-64 | a creation that passes the checks keeps every domain held by at most one project |
| ProjectService.UpdateKeepsDomainsUnique | projects/service.go:116-125 | an update that passes the checks keeps every domain held by at most one project |
| ProjectService.GetByDomainStep | projects/service.go:73-100 | a fresh cached project is returned without asking the repository; otherwise the repository's project is returned and cached with the time, and its error is returned and caches nothing |
| ProjectService.CachedForAnHour | projects/service.go:79-82 | up to an hour after a fetch the cached project is served, whatever the repository now holds |
| ProjectService.ExpiresAfterAnHour | projects/service.go:79-88 | more than an hour later the repository is asked again |
| ProjectService.FailureKeepsCache | projects/service.go:85-88 | a failed fetch leaves the cache as it was, and other domains are never touched |
| ProjectService.Service.constructor | projects/service.go:29-44 | the cache starts empty |
| ProjectService.Service.GetByDomain | projects/service.go:73-100 | the method returns and caches what the specified step gives |
| ProjectStore.Lock | projects/models.go:83 | a write lock is granted only on an idle mutex |
| ProjectStore.RLock | projects/models.go:70 | a read lock is granted only while no writer holds the mutex |
| ProjectStore.SaveUnderWriteLockBlocks | projects/models.go:69-92 | as written, a mutator's save waits for the write lock its caller holds, from every state of the mutex |
| ProjectStore.SaveWithoutLockReleases | projects/models.go:82-92 | with save taking no lock of its own, a mutator on an idle mutex leaves it idle |
| ProjectStore.Store.constructor | projects/models.go:33-44 | a store whose file does not exist starts empty |
| ProjectStore.Store.CreateProject | projects/models.go:82-92 | with `save` taking no lock of its own: an existing ID is refused with `already exists` and nothing changes; otherwise the project is stored under its ID and save's error returned |
| ProjectStore.Store.GetProject | projects/models.go:95-105 | the stored project, or `not found` exactly when the ID is absent |
| ProjectStore.Store.UpdateProject | projects/models.go:108-118 | with `save` taking no lock of its own: an absent ID is refused with `not found` and nothing changes; otherwise the project replaces the stored one |
| ProjectStore.Store.DeleteProject | projects/models.go:121-131 | with `save` taking no lock of its own: an absent ID is refused with `not found`; otherwise exactly that project is removed |
| ProjectStore.Store.ListProjects | projects/models.go:134-144 | every stored project exactly once, in some order |
| ProjectStore.MapValues | projects/models.go:138-141 | the loop over the map yields each value once with its key |
| ProjectStore.CreateThenGet | projects/models.go:82-105 | with `save` taking no lock of its own, a project created under a new ID is read back as itself |
| ProjectStore.DeleteThenGet | projects/models.go:95-131 | with `save` taking no lock of its own, a deleted project is not found afterwards, and other projects stay |

## Left out

- Strings are sequences of characters; Go's byte indexing (`str[0]`) is modelled per character, and all case mapping (`strings.ToUpper`, `ToLower`, `toUpperCase`) is ASCII only.
- File, network and process I/O is outside the model: reading and writing `.env`, `os.Setenv`, `os.ReadDir`, reading SQL files, executing SQL, running shell commands and HTTP requests and responses. Their inputs and results are parameters.
- The clock is a parameter `now`. `GetByDomain` reads `time.Now()` twice and the model uses one `now` for both; `SendOTP` and `VerifyOTP` take it in nanoseconds.
- Concurrency is left out. The agent's mutex, the OTP store's mutex and the service's mutex are not modelled, and `Step`'s goroutine is modelled as the separate methods `ExecuteReply` and `ThinkingFailed`, called in sequence. The project store's read/write mutex is modelled only as far as the finding below needs.
- Go's randomised map iteration order is the parameter `order`: the keys of `updates` in `UpdateEnvFile`, and the map order of `ListProjects`, which the contract leaves open.
- AdminEnv.UpdateEnvFile: the block at admin/functions.go:105-111 has an empty body, so the model writes `strings.Join(newLines, "\n")` unchanged; the final loop of `os.Setenv` calls is I/O.
- Migrations.ApplySchemaPlan: reading each migration file, `db.Exec`, the `information_schema` query and the reset of MIGRATION_START to 0 for a missing schema are I/O. The reset write itself is `MigrationStartContent` with 0.
- Migrations.UpdateDatabaseConfig: the five `if !dbConfigFound[...]` tests are modelled by the shared append loop over the fixed key order `DB_HOST`, `DB_PORT`, `DB_USER`, `DB_PASSWORD`, `DB_NAME`.
- CacheHeaders: the md5 ETags, the Expires date and `http.TimeFormat` come from the clock and a hash, so they are parameters. GenerateETag (server/cache.go:88-109) is not part of this model: the ETag it gives is passed in. It never returns an error, so the static path always sets one. Header-name canonicalisation is not modelled.
- CacheHeaders.Response.HandleConditionalRequest: If-None-Match is an exact string comparison, a simplified form of section 13.1.2 of RFC 9110. Lists of entity tags, weak comparison and `*` are not interpreted, as in the source. The `max-age` values are the delta-seconds of section 5.2.2.1 of RFC 9111.
- ProjectStore: projects are values, so the aliasing of `*Project` pointers shared with callers is not modelled. `load()` and the JSON encoding in `save()` are I/O; the result of the write is the parameter `saveErr`. projects/types.go declares another `Project` and repository; the store modelled is the string-keyed one of projects/models.go.
- ProjectService: `Delete`, `List` and `GetByID` only forward to the repository and are not modelled. The repository is a parameter: its `GetByDomain` answer is a `Lookup`, and domain uniqueness is stated over a map from ID to project. `NewProjectService`'s query loading and its `log.Fatal` are I/O.
- SqlLoader: `bufio.Scanner` is replaced by the file's lines as a parameter. `LoadNamedSQLFiles` and its `filepath.Walk` are I/O. SqlLoader.QueryRegistry.MustGetSQL: the panic on a missing name is a precondition.
- OtpAuth: generating the code, sending the e-mail, `GenerateSessionToken` and the JWT functions are randomness, network or crypto and are not modelled. SendOTP is modelled as the store update only.
- AgentLoop: the language-model call (`thinkInternal`) and the shell are parameters. The result of running a command is the parameter `run`. The timeout, duration and stdout/stderr formatting of executeInternal are part of `run`'s text and not modelled. `Message` has no `Timestamp` field (server/agent.go:63): it is set from the clock (server/agent.go:209, 352) and nothing in the core reads it.
- Ssr: JavaScript values are the constructors of `Node`. Numbers are integers, so `String()` of a floating-point number is not modelled. Components are the parameter `comps`, and `fuel` bounds the depth of component calls: a render that runs out of fuel gives `""`, as a stack overflow caught by the `try` does.
- The order and uniqueness of props: props are a list and attributes come out in list order. JavaScript's `Object.keys` lists integer-like keys first, in ascending order, and an object holds each key once, while the list may repeat a key. A props list written in `Object.keys` order with distinct keys renders as the object does.
- Directives: Alpine's `evaluateLater`, its effect scheduling and the lookup of the component instance are the framework's job. The value an evaluation produced is a parameter of the effect or handler that receives it. DOM events are modelled only by their listener lists and the `defaultPrevented` flag.
- JsxText: the regular expressions used by `getTitleCase`, `extractComponentNameFromTSX` and `handleReactFragments` are modelled only for those patterns, as explicit scans. There is no general regex engine.
- Queries: the statement classification (common/queries.go:225-233) is stated through its definition together with the case-insensitivity and leading-space lemmas. The database calls that follow it are I/O.
- TranspileMisc.CamelCase: strings.Split on `-` is modelled exactly. The `[-_]` variant in server/transpile.go and the other transpile flows built on golang.org/x/net/html are not part of this model.
- ProjectStore.Store.CreateProject: models the store with `save` corrected to take no lock of its own (the corrected half of the projects/models.go:69-92 finding). As written, `save` takes `mu.RLock()` (projects/models.go:70) inside the caller's `mu.Lock()` (projects/models.go:83), so the success path never returns; `SaveUnderWriteLockBlocks` proves that.
- ProjectStore.Store.UpdateProject: models the store with the corrected `save`. As written its success path blocks in `save`'s read lock (projects/models.go:70 under projects/models.go:109).
- ProjectStore.Store.DeleteProject: models the store with the corrected `save`. As written its success path blocks in `save`'s read lock (projects/models.go:70 under projects/models.go:122).
- ProjectStore.CreateThenGet: holds for the store with the corrected `save`; as written the create never returns, so there is no read afterwards.
- ProjectStore.DeleteThenGet: holds for the store with the corrected `save`; as written the delete never returns, so there is no read afterwards.

## Findings

| source | as written | input that shows it | evidently intended | confidence | as-written member | corrected member |
|---|---|---|---|---|---|---|
| tests/esgoja/tpl/lib/ssr.js:36-46 | the pattern `/[&<>"]+/g` hands a whole run of special characters to a `switch` that knows single characters only, so a run of two or more is left unescaped | the attribute value `""` is emitted as `""`, which closes the quoted attribute early | every special character replaced by its entity, giving `&quot;&quot;` | not executed | Ssr.EscapeHtmlQuotePair | Ssr.UnescapeEscapeAttr |
| server/transpile/misc.go:81-103 | with a hyphen, the first part is kept as it is and only later parts are capitalised, although the comment at line 94 says the first part is capitalised too | `my-button` becomes `myButton`, which starts in lower case and is not a component name, while `button` becomes `Button` | `MyButton`, a name starting with a capital like the no-hyphen case | not executed | TranspileMisc.CamelCaseFinding | TranspileMisc.PascalCaseIsComponent |
| server/agent.go:213-231 | the command is lower-cased before the prefix test, but the list holds `chmod -R 000 /` and `chown -R ` with a capital `R`, so those two entries can never match | `chmod -R 000 /` is lower-cased to `chmod -r 000 /`, passes the prefix test and is judged safe | both prefixes compared in lower case, so the command is blocked | not executed | AgentLoop.ChmodRunsAsWritten | AgentLoop.ChmodBlocked |
| projects/models.go:69-92 | CreateProject, UpdateProject and DeleteProject hold `mu.Lock()` while calling `save()`, which calls `mu.RLock()` on the same RWMutex; a read lock waits while a writer holds it, so the call never returns | any CreateProject with a new ID | `save` runs under its caller's lock without taking one of its own | not executed | ProjectStore.SaveUnderWriteLockBlocks | ProjectStore.SaveWithoutLockReleases |

# Icon compiler model (tokir)

A Dafny model of the icon compiler of tokir, a Kotlin tool that turns an
Android vector-drawable XML file into Kotlin source defining a Material
`ImageVector` property.

The model covers four parts of the pipeline:

- **Document walker** (`IconParser`, `IconParserProperties`). The XML pull
  parser becomes a sequence of `Event` records. Each record holds an event
  type, a tag name, a depth and an attribute map. `events[0]` is the state
  the parser starts in. Each `next()` moves one position on. Past the last
  record the parser keeps reporting the end of the document.
  - `Parse` is the walker's `while` loop. It is proved equal to the
    functional reference `ParseSpec`.
  - The lemmas about `ParseSpec` state its error cases, the auto-mirror
    rule and where each path lands. `Layout` is an independent reference
    for the shape of the root list.
- **Code generator** (`ImageVectorGenerator`). The functions `FileSpec`,
  `GetterText`, `RenderNode` and `PathText` give the emitted text. The
  methods `CreateFileSpec`, `IconGetter`, `AddRecursively` and `AddPath`
  build the same text with a string builder and loops, as the Kotlin code
  does. Each method is proved to produce its function's text. The lemmas
  state the shape of the text.
- **Processing helpers** (`IconProcessor`): colour replacement, the
  auto-mirror test, the file-name truncation and the cross-theme check.
  Kotlin's `replace`, `contains`, `substringBefore`, `joinToString` and
  `sorted` are modelled in `Strings` and `StringSort`.
- **Themes and IR** (`IconTheme`, `Vector`, `Icons`).
  - The enum becomes a datatype with its reverse lookup.
  - The sealed `VectorNode` hierarchy becomes a datatype whose `Group`
    holds `Path` values only.
  - `IconWriter.Generate` composes parsing and generation.

Collaborators outside the model are passed in as a `Vector.Platform` value
of total functions:

- the literal `1f`;
- `String.toFloatOrNull`;
- the `${f}` rendering of a float;
- `PathParser.parsePathString`;
- `PathNode.asFunctionCall`;
- `Char.lowercase()`, which returns a string because some characters lower-case to more than one.

`Float` and `PathNode` are opaque types. `IconWriter.Generate` also takes
the XML library as a function from text to events.

Behaviour worth noting, read from the code:

- `autoMirrored` is read from every `vector` start tag, not only the
  root, so the last one wins (IconParser.kt:35-37).
- The walk also stops at an end tag whose depth is below 1
  (IconParser.kt:109-110).
- A `path` without `android:pathData` fails through the `!!` on a null
  value. It is modelled as the error `MissingPathData`.
- The cross-theme check compares each theme's list of names after sorting
  it (IconProcessor.kt:68-78). Duplicates therefore count:
  `PassedIffSameNames` states that the check passes exactly when the
  themes hold the same multisets of names.
- The fill type is carried in the IR and never emitted.
  `FileSpecIgnoresFillType` states this. Alphas are stored as given, with
  no range check.

## Model

| member | source | states |
|---|---|---|
| `Vector.NewGroup` | shared/src/commonMain/kotlin/pl/lemanski/tokir/generator/vector/Vector.kt:18 | a new group holds no paths |
| `Vector.AddToGroup` | shared/src/commonMain/kotlin/pl/lemanski/tokir/generator/vector/Vector.kt:18 | adding a path puts it last and keeps the earlier paths in order |
| `IconTheme.FindByPackageName` | shared/src/commonMain/kotlin/pl/lemanski/tokir/generator/IconTheme.kt:21-23 | `find` returns a listed theme with that package name, or none exists |
| `IconTheme.ToIconTheme` | shared/src/commonMain/kotlin/pl/lemanski/tokir/generator/IconTheme.kt:20-24 | success gives a theme with that package name; failure carries "No matching theme found" and no theme has that name |
| `IconTheme.AllThemesComplete` | shared/src/commonMain/kotlin/pl/lemanski/tokir/generator/IconTheme.kt:9-15 | `values()` has five entries, lists every theme and repeats none |
| `IconTheme.PackageNamesDistinct` | shared/src/commonMain/kotlin/pl/lemanski/tokir/generator/IconTheme.kt:10-14 | distinct themes have distinct package names |
| `IconTheme.ToIconThemeRoundTrip` | shared/src/commonMain/kotlin/pl/lemanski/tokir/generator/IconTheme.kt:10-24 | looking up a theme's own package name returns that theme |
| `IconTheme.ToIconThemeFails` | shared/src/commonMain/kotlin/pl/lemanski/tokir/generator/IconTheme.kt:20-24 | lookup fails if and only if the string is none of the five package names |
| `IconTheme.ClassNameIsNoPackageName` | shared/src/commonMain/kotlin/pl/lemanski/tokir/generator/IconTheme.kt:20-24 | `"Filled".toIconTheme()` fails with the no-match message |
| `IconTheme.NamesAgree` | shared/src/commonMain/kotlin/pl/lemanski/tokir/generator/IconTheme.kt:9-14 | the package name is the lower-case class name; the class name is the constant's name |
| `IconTheme.ClassNameOf` | shared/src/commonMain/kotlin/pl/lemanski/tokir/generator/IconTheme.kt:33-34 | `className` is `"class_name"` for every theme |
| `IconTheme.AutoMirroredClassNameOf` | shared/src/commonMain/kotlin/pl/lemanski/tokir/generator/IconTheme.kt:43-44 | `autoMirroredClassName` is `"auto_mirrored_class_name"` for every theme |
| `IconTheme.AutoMirroredPackageName` | shared/src/commonMain/kotlin/pl/lemanski/tokir/generator/IconTheme.kt:46-47 | the lower-cased `AutoMirroredName` is `"automirrored"` |
| `IconParser.IsAtEnd` | shared/src/commonMain/kotlin/pl/lemanski/tokir/generator/IconParser.kt:109-110 | the end of the document always ends the walk; an end tag ends it exactly when its depth is below 1; nothing else does |
| `IconParser.GetValueAsBoolean` | shared/src/commonMain/kotlin/pl/lemanski/tokir/generator/IconParser.kt:94-95 | true exactly when the attribute is present and lower-cases to "true"; false when absent |
| `IconParser.ToBoolean` | shared/src/commonMain/kotlin/pl/lemanski/tokir/generator/IconParser.kt:94-95 | true if and only if the attribute is present and equals "true", ignoring case |
| `IconParser.GetValueAsFloat` | shared/src/commonMain/kotlin/pl/lemanski/tokir/generator/IconParser.kt:88-89 | a value exactly when the attribute is present and parses as a float, and then the parsed value |
| `IconParser.ReadPath` | shared/src/commonMain/kotlin/pl/lemanski/tokir/generator/IconParser.kt:39-57 | no path data gives `MissingPathData`; a path-data error propagates; alphas default to one when absent or unparsable; fill type is `EvenOdd` if and only if the attribute is exactly "evenOdd" |
| `IconParser.Step` | shared/src/commonMain/kotlin/pl/lemanski/tokir/generator/IconParser.kt:32-77 | one iteration keeps the open group last; non-start events and other tags change nothing; only a `vector` tag changes the flag; only a bad `path` fails |
| `IconParser.AppendPath` | shared/src/commonMain/kotlin/pl/lemanski/tokir/generator/IconParser.kt:58-62 | adding a path keeps the open group last and leaves the flag and group slot alone |
| `IconParser.OpenGroup` | shared/src/commonMain/kotlin/pl/lemanski/tokir/generator/IconParser.kt:65-69 | a group tag opens a group, which is then the last root node |
| `IconParser.FirstStopIsFirst` | shared/src/commonMain/kotlin/pl/lemanski/tokir/generator/IconParser.kt:97-102 | the seek stops at the first start tag or document end after the initial position |
| `IconParser.SeekToStartTag` | shared/src/commonMain/kotlin/pl/lemanski/tokir/generator/IconParser.kt:97-107 | the loop returns the first start-tag position, or fails with "No start tag found" when the document ends first |
| `IconParser.Run` | shared/src/commonMain/kotlin/pl/lemanski/tokir/generator/IconParser.kt:31-81 | the walk from a state fails only with a path error, and never rewrites the root nodes that were already final (all but an open group) |
| `IconParser.ParseSpec` | shared/src/commonMain/kotlin/pl/lemanski/tokir/generator/IconParser.kt:19-82 | success implies the first start tag is `vector`; "No start tag found" exactly when the seek reaches the document end; the root-tag error names a tag other than `vector` |
| `IconParser.Parse` | shared/src/commonMain/kotlin/pl/lemanski/tokir/generator/IconParser.kt:19-82 | the walker loop computes the reference `ParseSpec` |
| `IconParserProperties.StopIsFirst` | shared/src/commonMain/kotlin/pl/lemanski/tokir/generator/IconParser.kt:31-79 | the loop advances one event at a time and stops at the first end-of-document or depth-below-1 end tag |
| `IconParserProperties.RunFails` | shared/src/commonMain/kotlin/pl/lemanski/tokir/generator/IconParser.kt:31-79 | the walk fails if and only if a `path` tag before the stop cannot be read, with the first such error |
| `IconParserProperties.FirstStopUnique` | shared/src/commonMain/kotlin/pl/lemanski/tokir/generator/IconParser.kt:97-102 | a position with a start tag or document end and none before it is where the seek stops |
| `IconParserProperties.ParseNoStartTag` | shared/src/commonMain/kotlin/pl/lemanski/tokir/generator/IconParser.kt:97-106 | the parse fails with "No start tag found" if and only if the document ends before any start tag |
| `IconParserProperties.ParseNotVector` | shared/src/commonMain/kotlin/pl/lemanski/tokir/generator/IconParser.kt:24 | the parse fails with the root-tag error if and only if the first start tag is not `vector` |
| `IconParserProperties.ParsePathFailure` | shared/src/commonMain/kotlin/pl/lemanski/tokir/generator/IconParser.kt:40-56 | with a `vector` root, the parse fails if and only if some walked `path` tag is unreadable, and reports the first one |
| `IconParserProperties.ParseMissingPathData` | shared/src/commonMain/kotlin/pl/lemanski/tokir/generator/IconParser.kt:40-56 | a walked `path` tag without `android:pathData` makes the whole parse fail |
| `IconParserProperties.RunLayout` | shared/src/commonMain/kotlin/pl/lemanski/tokir/generator/IconParser.kt:31-79 | from any state the walk lays out the remaining path and group tags as the reference layout says |
| `IconParserProperties.ParseLayout` | shared/src/commonMain/kotlin/pl/lemanski/tokir/generator/IconParser.kt:58-69 | paths before the first group go to the root; each group holds the paths up to the next group tag |
| `IconParserProperties.LayoutPathsFirst` | shared/src/commonMain/kotlin/pl/lemanski/tokir/generator/IconParser.kt:58-69 | in the layout no root path follows a group |
| `IconParserProperties.LayoutKeepsPaths` | shared/src/commonMain/kotlin/pl/lemanski/tokir/generator/IconParser.kt:58-69 | the layout holds each path tag's path once, in document order |
| `IconParserProperties.ParseShape` | shared/src/commonMain/kotlin/pl/lemanski/tokir/generator/IconParser.kt:26-81 | a parsed vector has all root paths before the first group and every walked path once, in order |
| `IconParserProperties.RunMirror` | shared/src/commonMain/kotlin/pl/lemanski/tokir/generator/IconParser.kt:31-79 | the walk's flag is that of the last `vector` tag it passes, else the flag it started with |
| `IconParserProperties.ParseAutoMirrored` | shared/src/commonMain/kotlin/pl/lemanski/tokir/generator/IconParser.kt:27-37 | the parsed flag comes from the last `vector` start tag before the stop |
| `ImageVectorGenerator.BackingProperty` | shared/src/commonMain/kotlin/pl/lemanski/tokir/generator/ImageVectorGenerator.kt:55-59 | `"_"`, then the platform's lower-case form of the first character, then the rest of the name unchanged; `"_"` for an empty name |
| `ImageVectorGenerator.ParameterListContents` | shared/src/commonMain/kotlin/pl/lemanski/tokir/generator/ImageVectorGenerator.kt:125-130 | each alpha parameter is present if and only if that alpha is not one; fill alpha comes first |
| `ImageVectorGenerator.BareHeaderIff` | shared/src/commonMain/kotlin/pl/lemanski/tokir/generator/ImageVectorGenerator.kt:132-138 | the header is `MaterialPath {` with no parentheses if and only if both alphas are one |
| `ImageVectorGenerator.Parameters` | shared/src/commonMain/kotlin/pl/lemanski/tokir/generator/ImageVectorGenerator.kt:132-136 | empty exactly when both alphas are one; otherwise parenthesised |
| `ImageVectorGenerator.PathText` | shared/src/commonMain/kotlin/pl/lemanski/tokir/generator/ImageVectorGenerator.kt:138-142 | the header, then the body unchanged, then `}\n` |
| `ImageVectorGenerator.RenderNode` | shared/src/commonMain/kotlin/pl/lemanski/tokir/generator/ImageVectorGenerator.kt:96-116 | a group's text opens with `group (\n` and closes with `)\n`; a path's opens with `MaterialPath` and closes with `}\n` |
| `ImageVectorGenerator.GetterText` | shared/src/commonMain/kotlin/pl/lemanski/tokir/generator/ImageVectorGenerator.kt:70-89 | given the renderings of the root nodes, the getter opens with the null-check line and closes with the return line |
| `ImageVectorGenerator.FileSpec` | shared/src/commonMain/kotlin/pl/lemanski/tokir/generator/ImageVectorGenerator.kt:29-53 | the file starts with `package <theme package>` and a blank line, followed at once by the `val <name>: ImageVector` declaration and `get() {`, and ends with the private backing `var` declaration |
| `ImageVectorGenerator.Calls` | shared/src/commonMain/kotlin/pl/lemanski/tokir/generator/ImageVectorGenerator.kt:110 | one call per path node, in order |
| `ImageVectorGenerator.AddPath` | shared/src/commonMain/kotlin/pl/lemanski/tokir/generator/ImageVectorGenerator.kt:122-143 | the builder produces the header, the body and the closing brace |
| `ImageVectorGenerator.AddRecursively` | shared/src/commonMain/kotlin/pl/lemanski/tokir/generator/ImageVectorGenerator.kt:96-116 | the builder loop produces the node's rendering: a group wraps its paths' blocks in order |
| `ImageVectorGenerator.IconGetter` | shared/src/commonMain/kotlin/pl/lemanski/tokir/generator/ImageVectorGenerator.kt:66-90 | the builder loop produces the getter text over all root nodes in order |
| `ImageVectorGenerator.CreateFileSpec` | shared/src/commonMain/kotlin/pl/lemanski/tokir/generator/ImageVectorGenerator.kt:29-53 | the builder produces the file text |
| `ImageVectorGenerator.GetterParts` | shared/src/commonMain/kotlin/pl/lemanski/tokir/generator/ImageVectorGenerator.kt:73-89 | given the root renderings, the getter is the null-check line, the `MaterialIcon(name = "<Theme>.<name>")` line, those renderings, `}`, and the return line, in that order |
| `ImageVectorGenerator.RenderNodesAppend` | shared/src/commonMain/kotlin/pl/lemanski/tokir/generator/ImageVectorGenerator.kt:80-82 | rendering a concatenation of root lists is the concatenation of their renderings |
| `ImageVectorGenerator.RenderNodesAt` | shared/src/commonMain/kotlin/pl/lemanski/tokir/generator/ImageVectorGenerator.kt:80-82 | each root node's rendering appears once, right after those of the nodes before it |
| `ImageVectorGenerator.RenderPathsAppend` | shared/src/commonMain/kotlin/pl/lemanski/tokir/generator/ImageVectorGenerator.kt:102-104 | rendering a concatenation of path lists is the concatenation of their renderings |
| `ImageVectorGenerator.GroupRendering` | shared/src/commonMain/kotlin/pl/lemanski/tokir/generator/ImageVectorGenerator.kt:100-106 | a group is `group (`, its paths' blocks in order, then `)`; an empty group is `group (\n)\n` |
| `ImageVectorGenerator.NewGroupRendering` | shared/src/commonMain/kotlin/pl/lemanski/tokir/generator/ImageVectorGenerator.kt:100-106 | a freshly made group renders as `group (\n)\n` |
| `ImageVectorGenerator.PathEnding` | shared/src/commonMain/kotlin/pl/lemanski/tokir/generator/ImageVectorGenerator.kt:109-140 | `}` directly follows the last call; a path without nodes is its header and `}`; with both alphas one it is `MaterialPath {\n}\n` |
| `ImageVectorGenerator.PathBodySnoc` | shared/src/commonMain/kotlin/pl/lemanski/tokir/generator/ImageVectorGenerator.kt:110 | consecutive calls are separated by exactly one newline |
| `ImageVectorGenerator.RenderNodesIgnoreFillType` | shared/src/commonMain/kotlin/pl/lemanski/tokir/generator/ImageVectorGenerator.kt:96-116 | root lists that differ only in fill types render identically |
| `ImageVectorGenerator.FileSpecIgnoresFillType` | shared/src/commonMain/kotlin/pl/lemanski/tokir/generator/ImageVectorGenerator.kt:122-143 | vectors whose paths differ only in fill type give the same file |
| `IconWriter.Generate` | shared/src/commonMain/kotlin/pl/lemanski/tokir/generator/IconWriter.kt:17-25 | parse then render: a parse error aborts with that error, otherwise the generated file text, framed by the package line and the backing declaration |
| `Strings.SubstringBefore` | shared/src/commonMain/kotlin/pl/lemanski/tokir/generator/IconProcessor.kt:87 | the result is a prefix that stops at the first occurrence of the delimiter, or the whole string |
| `IconProcessor.ProcessXmlFile` | shared/src/commonMain/kotlin/pl/lemanski/tokir/generator/IconProcessor.kt:39-50 | the output has the input's length and contains no `@android:color/white` |
| `IconProcessor.ProcessXmlFileSpec` | shared/src/commonMain/kotlin/pl/lemanski/tokir/generator/IconProcessor.kt:44-49 | the output keeps the length, holds no white reference, reads black where the input read white, and keeps every other character |
| `IconProcessor.ProcessXmlFileNoop` | shared/src/commonMain/kotlin/pl/lemanski/tokir/generator/IconProcessor.kt:49 | text without a white reference is returned unchanged |
| `IconProcessor.ProcessXmlFileIdempotent` | shared/src/commonMain/kotlin/pl/lemanski/tokir/generator/IconProcessor.kt:49 | processing twice equals processing once |
| `IconProcessor.IsAutoMirrored` | shared/src/commonMain/kotlin/pl/lemanski/tokir/generator/IconProcessor.kt:55-56 | true if and only if the text contains `android:autoMirrored="true"` |
| `IconProcessor.ToKotlinPropertyName` | shared/src/commonMain/kotlin/pl/lemanski/tokir/generator/IconProcessor.kt:87 | a prefix of the file name with no dot, ending at the first dot, or the whole name if it has none |
| `IconProcessor.Keys` | shared/src/commonMain/kotlin/pl/lemanski/tokir/generator/IconProcessor.kt:62 | `groupBy` keys: exactly the themes present, each once, in order of first appearance |
| `IconProcessor.NamesOf` | shared/src/commonMain/kotlin/pl/lemanski/tokir/generator/IconProcessor.kt:62-69 | a theme's name list is empty exactly when no icon has that theme |
| `IconProcessor.NamesOfSingle` | shared/src/commonMain/kotlin/pl/lemanski/tokir/generator/IconProcessor.kt:62-69 | one icon contributes its name exactly when it has the theme |
| `IconProcessor.NamesOfAppend` | shared/src/commonMain/kotlin/pl/lemanski/tokir/generator/IconProcessor.kt:62-69 | the name list of a concatenation is the concatenation of the name lists, so names keep icon order |
| `IconProcessor.NamesOfMembers` | shared/src/commonMain/kotlin/pl/lemanski/tokir/generator/IconProcessor.kt:62-69 | a name is listed for a theme exactly when some icon of that theme carries it |
| `StringSort.Sort` | shared/src/commonMain/kotlin/pl/lemanski/tokir/generator/IconProcessor.kt:69 | `sorted()` returns an ordered permutation of the names |
| `StringSort.SortEqualIff` | shared/src/commonMain/kotlin/pl/lemanski/tokir/generator/IconProcessor.kt:69 | two name lists sort equal if and only if they hold the same names with the same multiplicities |
| `IconProcessor.NameLists` | shared/src/commonMain/kotlin/pl/lemanski/tokir/generator/IconProcessor.kt:68-70 | one sorted name list per key, in key order |
| `IconProcessor.ListString` | shared/src/commonMain/kotlin/pl/lemanski/tokir/generator/IconProcessor.kt:75 | a list prints between `[` and `]` |
| `IconProcessor.MismatchMessage` | shared/src/commonMain/kotlin/pl/lemanski/tokir/generator/IconProcessor.kt:75 | the message starts with "Not all icons were found in all themes " and ends with a space and the expected list |
| `IconProcessor.CompareAll` | shared/src/commonMain/kotlin/pl/lemanski/tokir/generator/IconProcessor.kt:72-78 | passes if and only if every list equals the expected one; otherwise fails on the first differing list, with both lists in the message |
| `IconProcessor.MismatchIsNotMissing` | shared/src/commonMain/kotlin/pl/lemanski/tokir/generator/IconProcessor.kt:64-76 | the two failure messages differ |
| `IconProcessor.EnsureIconsExistInAllThemes` | shared/src/commonMain/kotlin/pl/lemanski/tokir/generator/IconProcessor.kt:61-79 | a missing theme fails with the missing-themes message; passing implies every theme is present |
| `IconProcessor.MissingThemeIff` | shared/src/commonMain/kotlin/pl/lemanski/tokir/generator/IconProcessor.kt:64-66 | the check fails with the missing-themes message if and only if some theme has no icon |
| `IconProcessor.EmptyFails` | shared/src/commonMain/kotlin/pl/lemanski/tokir/generator/IconProcessor.kt:61-66 | an empty icon list fails with the missing-themes message |
| `IconProcessor.PassedIff` | shared/src/commonMain/kotlin/pl/lemanski/tokir/generator/IconProcessor.kt:61-79 | the check passes if and only if all themes are present and their sorted name lists are equal |
| `IconProcessor.PassedIffSameNames` | shared/src/commonMain/kotlin/pl/lemanski/tokir/generator/IconProcessor.kt:61-79 | the check passes if and only if all themes are present and hold the same names, counted with multiplicity |

## Left out

- The path-data grammar (`PathParser.parsePathString`), `PathNode`, `FillType`'s own file and `PathNode.asFunctionCall`: their source is not part of this model. They are an opaque type and opaque functions in `Vector.Platform`.
- Float semantics: `toFloatOrNull`, the `${f}` rendering and `!= 1f` are opaque functions of `Vector.Platform`. `IsOne` compares against its literal one. Alphas are passed through unchanged, with no range check.
- The XML library (ktxml `MiniXmlPullParser`): it is replaced by a sequence of events. XML lexing, namespaces and the library's own exceptions are not modelled. The depth of each event is taken as given.
- Group aliasing: the Kotlin walker appends to the open group through a shared mutable list. The model rebuilds the last root element instead. This is equivalent because the open group is always the last root node (`IconParser.ValidState`).
- `IconParser.ToBoolean`: compares case-insensitively over ASCII letters only. Kotlin also folds non-ASCII letters, but no non-ASCII letter folds to a letter of "true", so the result is the same for every input.
- Exceptions: the `!!` failure becomes the error value `MissingPathData`, not a JVM/JS exception. The exception types (`IllegalStateException`, `XmlPullParserException`) are not distinguished.
- `IconProcessor.processIcon`: asynchronous browser `FileReader` input with a polling delay; it is I/O only.
- The tint regex in `processXmlFile`: it is built but never applied.
- `IconWriter.Generate`: the `Blob`/`File` wrapping of the text is browser API and is left out.
- `Main.kt` and `App.kt`: browser UI and glue, with no compiler logic.
- The runtime behaviour of the generated Kotlin (the memoising getter): only the emitted text is modelled.
- `Strings.Lower`: only ASCII letters are lower-cased. Its other uses are the theme and `AutoMirrored` name constants, which are ASCII. The icon name's first character goes through the platform's `lowercase` instead.
- `StringSort.Le`: orders strings by Unicode scalar value. Kotlin/JS `compareTo` orders by UTF-16 code unit. The two differ only for names that mix characters above U+FFFF with characters from U+E000 to U+FFFF. That changes only the order of names inside the mismatch message. Whether the check passes does not change: under any total order, two sorted lists are equal exactly when they hold the same multiset, which `SortEqualIff` proves for this order.

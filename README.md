# HSML compile pipeline, modelled in Dafny

HSML is a small line-based markup for describing a house as a tree of boxes.
A line `House/Kitchen: "text" { w:4 layout:row }` declares a node at a `/`-separated
path, with optional content and an inline style. A line that holds a `{`, ends
with `}` and has no `:` anywhere, such as `Room { }`, is a style rule. Its
selector is a name, a path (it holds a `/`), or a descendant pair `a b`. A style
pair is written `key:value`, so a braced line with any pair in it holds a colon:
`Room { t:0.12 }` declares a top-level node `Room` with that inline style, not a
rule, and as the code stands a rule's style is always empty
(`ParserLines.ColonLineIsDecl`).

The editor compiles the text in a fixed order of stages (`applyChanges` in
`src/app/App.tsx`):

1. **parse** (`parseHSML`): lines become node declarations and style rules, each tagged with its 1-based line number.
2. **build** (`buildTree`): declarations become a tree rooted at `root`, creating every missing prefix node.
3. **resolve** (`resolveStyles`): each node's style is merged from the rules selecting it by name, then by path, then by descendant, with the inline style last. It is then decoded into typed fields: dimensions, layout, gap, padding, margin, flex factors, wall thickness, kind, and openings (doors and windows).
4. **measure** (`measureTree`): sizes are computed bottom-up. A leaf defaults to 1. A row or col sums its children along the main axis plus gaps. A stack takes maxima. Padding is added on both sides, and an explicit size always wins.
5. **validate** (`validateHSML`): a pre-order walk collects errors and warnings. These cover size, non-finite fields, openings against the room's walls, and flex overflow.
6. **lay out** (`layoutTree`): this runs only when there is no error. Flex children get a provisional main size, share positive leftover space by `grow`, and are placed along the main axis by a cursor.

Each stage is a Dafny module. Pure code becomes functions. Loops become methods
that are proved equal to a specification function. The validator's issue list,
which the source mutates, is a class whose methods append to it.

| module | file | models |
|---|---|---|
| `Base` | base.dfy | Option, Result, sequence helpers |
| `Strings` | strings.dfy | `trim`, `indexOf`, `split`, `\s+` words, number literals |
| `Scanner` | scanner.dfy | the quote/bracket/paren-aware character loops of `splitTopLevelPairs`, `splitArgs`, `splitContentAndInlineStyle` |
| `Parser`, `ParserFacts`, `ParserLines` | parser*.dfy | `parseHSML` and its helpers |
| `TreeBuilder`, `TreeFacts` | treebuilder.dfy, tree_facts.dfy | `buildTree` over a node table |
| `Types` | types.dfy | resolved node, style, openings, issues |
| `Resolver`, `ResolverFacts` | resolver*.dfy | `resolveStyles` |
| `Measure` | measure.dfy | `measureTree` |
| `Layout`, `LayoutFacts` | layout*.dfy | `layoutTree` |
| `Validator`, `ValidatorFacts` | validator*.dfy | `validateHSML` |
| `Pipeline` | pipeline.dfy | `applyChanges` |

### How the model is built

- **Numbers** are `real`.
- **`Number(t)`** on a literal matching `-?\d+(\.\d+)?` is computed exactly from its digits.
- **JavaScript's `isFinite`** is a parameter `fin: real -> bool` of the validator. A real has no NaN or infinity, so finiteness cannot be computed from the value. Keeping it as a parameter means every non-finite branch of the validator is still modelled.
- **Failing parse functions.** The parser functions that throw return `Result<_, ParseError>`. The first error ends the parse, and in the pipeline it becomes the single issue `error` at `root`.
- **`buildTree`'s shared objects** are modelled as a table of cells indexed by creation order, plus the `byPath` map. A proved invariant says each cell has one parent and paths are unique.
- **`measured`.** The measurer writes `node.measured` in place. The model returns the same tree with every `measured` filled in (`Measure.Measure`).
- **`measured!` dereferences** in the validator and the layout become preconditions (`Checkable`, `Layable`). Lemmas prove that every tree from the measurer satisfies them, so the pipeline never throws there.

## Model

| member | source | states |
|---|---|---|
| Strings.Trim | src/hsml/parseHSML.ts:43 | the result is the slice of the input that starts where the leading white space ends, no longer than the input, and with no white space at either end |
| Strings.TrimStartDrops | src/hsml/parseHSML.ts:43 | what the leading trim drops is white space only |
| Strings.TrimEndDrops | src/hsml/parseHSML.ts:43 | what the trailing trim drops is white space only |
| Strings.TrimFacts | src/hsml/parseHSML.ts:43-44 | trimming keeps only input characters, and the result is empty exactly when the input is all white space, so a blank line is skipped |
| Strings.TrimOfTrimmed | src/hsml/parseHSML.ts:43 | a string with no white space at either end is its own trim |
| Strings.TrimIdempotent | src/hsml/parseHSML.ts:43 | trimming twice is trimming once |
| Strings.IndexOf | src/hsml/parseHSML.ts:93 | the result is -1 exactly when the character is absent; otherwise it is the index of its first occurrence |
| Strings.SplitOn | src/hsml/parseHSML.ts:61 | there is at least one piece, and no piece holds the separator |
| Strings.JoinSplit | src/hsml/parseHSML.ts:61 | joining the pieces of a split back on the separator gives the original string |
| Strings.SplitJoin | src/hsml/parseHSML.ts:61 | splitting pieces joined on a character none of them contains gives the pieces back |
| Strings.SplitLines | src/hsml/parseHSML.ts:37 | every text has at least one line |
| Strings.SplitLinesCount | src/hsml/parseHSML.ts:37 | a text without a line feed is exactly one line |
| Strings.NonEmptyPieces | src/hsml/parseHSML.ts:61 | every piece kept is non-empty and free of the separator |
| Strings.WordEndRun | src/hsml/parseHSML.ts:154 | the run that ends a `\s+` token holds no white space |
| Strings.WordsAreTokens | src/hsml/parseHSML.ts:154 | every piece of `split(/\s+/).filter(Boolean)` is a non-empty run without white space |
| Strings.WordsOfToken | src/hsml/parseHSML.ts:154 | a single run without white space is one word |
| Strings.WordsCons | src/hsml/parseHSML.ts:154 | a token followed by a blank and more text is the first word, and the words of the rest follow it |
| Strings.WordsOfPair | src/hsml/parseHSML.ts:154 | two tokens around one blank are exactly two words |
| Strings.NumberLiteralStart | src/hsml/parseHSML.ts:214 | a text matching `-?\d+(\.\d+)?` starts with a minus sign or a digit |
| Strings.DecimalLiteral | src/hsml/parseHSML.ts:214 | `"12.5"` is a number literal with the value 12.5 |
| Strings.NegativeLiteral | src/hsml/parseHSML.ts:214 | `"-3"` is a number literal with the value -3 |
| Strings.MalformedLiterals | src/hsml/parseHSML.ts:214 | `"1."`, `".5"` and `"-"` are not number literals |
| Scanner.SplitTopLevel | src/hsml/parseHSML.ts:176-206 | the character loop of `splitTopLevelPairs` (blank or tab separator) and `splitArgs` (comma separator) returns the pieces of the scan specification |
| Scanner.FlushPieces | src/hsml/parseHSML.ts:197 | what the final push emits is non-empty, trimmed, no longer than the collected text, and made of its characters |
| Scanner.ScanPieces | src/hsml/parseHSML.ts:184-204 | every piece of a scan is non-empty, trimmed, no longer than its source text, and made of its characters |
| Scanner.PiecesTrimmed | src/hsml/parseHSML.ts:176-206 | every piece of a split is non-empty, its own trim, and drawn from the input |
| Scanner.ScanNoCut | src/hsml/parseHSML.ts:196-202 | a stretch with no top-level separator only extends the current piece |
| Scanner.PiecesWithoutCut | src/hsml/parseHSML.ts:204 | text with no top-level separator is one piece (its trim), or no piece when it is blank |
| Scanner.PiecesAtCut | src/hsml/parseHSML.ts:196-200 | a separator at top level ends the piece before it and restarts the scan on what follows |
| Scanner.PlainInsideGroup | src/hsml/parseHSML.ts:186-195 | plain text inside a string, a bracket or a parenthesis does not change the nesting state and is never cut |
| Scanner.GroupIsOnePiece | src/hsml/parseHSML.ts:190-200 | a bracket group, a paren group or a string with plain text inside is never split, whatever blanks or commas it holds |
| Scanner.GroupOpened | src/hsml/parseHSML.ts:188-193 | `[`, `(` and `"` each open a group that the matching closer closes again |
| Scanner.SepChar | src/hsml/parseHSML.ts:196 | the separator of pairs is a blank and the separator of arguments is a comma, both at top level |
| Scanner.SplitJoinTokens | src/hsml/parseHSML.ts:176-206 | tokens joined with the separator split back into the same tokens |
| Scanner.StyleBrace | src/hsml/parseHSML.ts:113-125 | the search gives -1 or the index of a `{` at or after the start position |
| Scanner.SplitContentAndInlineStyle | src/hsml/parseHSML.ts:108-127 | the loop that returns at the first `{` outside strings and parentheses gives the specification split: trimmed text before it and trimmed text from it on, else the trimmed whole and "" |
| Scanner.TrimKeepsBrace | src/hsml/parseHSML.ts:122 | text that starts with `{` still starts with it after trimming |
| Scanner.ContentSplitShape | src/hsml/parseHSML.ts:122 | the style part is empty exactly when no inline-style brace is found, and otherwise starts with `{` |
| Scanner.ContentWithoutBrace | src/hsml/parseHSML.ts:126 | without any `{` the whole trimmed text is content and the style part is empty |
| Scanner.NoBraceNoStyle | src/hsml/parseHSML.ts:126 | without any `{` the search for the style brace gives -1 |
| Scanner.QuotedSkipsBraces | src/hsml/parseHSML.ts:115-117 | inside a string, characters other than quotes and backslashes (braces included) are passed over without changing where the style brace is found |
| Scanner.QuotedContentThenStyle | src/hsml/parseHSML.ts:115-123 | a brace inside quoted content does not open the style: `"a {b}" {w:1}` splits into `"a {b}"` and `{w:1}` |
| Parser.SplitOnceParts | src/hsml/parseHSML.ts:92-96 | with a separator present, before + separator + after is the text and the before part holds no separator; otherwise the result is the whole text and "" |
| Parser.DropLast | src/hsml/parseHSML.ts:53 | `slice(0, -1)` of a non-empty text is the text without its last character, and of an empty text is empty |
| Parser.Inner | src/hsml/parseHSML.ts:146 | `slice(1, -1)` of a text of length two or more is the text without its first and last characters, and is empty otherwise |
| Parser.ReplacePair | src/hsml/parseHSML.ts:147-150 | a global replace of a two-character pattern never makes the text longer |
| Parser.ParseString | src/hsml/parseHSML.ts:143-151 | every failure is `Expected STRING` of the given text |
| Parser.ParseFuncStringArg | src/hsml/parseHSML.ts:136-141 | every failure is `Invalid name(...)` for the given name, or the `Expected STRING` error of the inner text |
| Parser.NameEnd | src/hsml/parseHSML.ts:216 | the index ends the run of `[A-Za-z0-9_-]` characters that starts at the given position: all before it are name characters, and it is the end or a non-name character |
| Parser.CallShape | src/hsml/parseHSML.ts:216 | a match splits the text into a call name, `(`, raw arguments with no line terminator, and `)` |
| Parser.ParseArg | src/hsml/parseHSML.ts:267-273 | only a trimmed argument that starts with a quote can fail (a malformed string) |
| Parser.ParseArgs | src/hsml/parseHSML.ts:220 | a success has one argument per piece, each the `parseArg` value of its piece |
| Parser.ParseList | src/hsml/parseHSML.ts:227-233 | a success is always a list value |
| Parser.ParseItems | src/hsml/parseHSML.ts:231 | a success has one value per piece |
| Parser.StyleSkip | src/hsml/parseHSML.ts:170 | a pair with an empty key is skipped and changes nothing |
| Parser.StyleFail | src/hsml/parseHSML.ts:171 | a pair whose value does not parse makes the whole body fail with that error |
| Parser.StyleAdd | src/hsml/parseHSML.ts:171 | a pair whose value parses sets its key to that value, overwriting any earlier value |
| Parser.SplitPair | src/hsml/parseHSML.ts:167-169 | the key and value are the trimmed halves of `splitOnce(p, ":")` |
| Parser.ParseStyleBody | src/hsml/parseHSML.ts:163-174 | the loop over the top-level pairs equals the fold that specifies the body's style map |
| Parser.ParseLine | src/hsml/parseHSML.ts:42-86 | a line that parses gives nothing exactly when it is blank or a `#` comment; a rule only when it holds `{`, ends with `}` and has no `:`; otherwise a declaration; both carry the line number |
| Parser.ParseInlineStyle | src/hsml/parseHSML.ts:75-84 | the method gives the specification inline style: `{...}` alone is the style body, and text ending in `}` with a `{` in it is read from that brace |
| Parser.ParseLinesOk | src/hsml/parseHSML.ts:41-87 | a line that parses adds its node or rule, tagged with its line number, and the loop goes on |
| Parser.ParseLinesErr | src/hsml/parseHSML.ts:41-87 | the first line that throws ends the loop with its error |
| Parser.ParseHSML | src/hsml/parseHSML.ts:36-90 | the line loop returns the specification `Parse(src)` |
| ParserFacts.ReplacePairAbsent | src/hsml/parseHSML.ts:147-150 | a replace pass over text without the pattern's first character changes nothing |
| ParserFacts.UnescapeEscape | src/hsml/parseHSML.ts:147-150 | for text without backslashes, unescaping undoes escaping quotes and line feeds |
| ParserFacts.UnescapeBackslashThenN | src/hsml/parseHSML.ts:147-150 | the `\n` pass runs first, so an escaped backslash followed by `n` decodes to a backslash and a line feed |
| ParserFacts.ParseStringQuoted | src/hsml/parseHSML.ts:143-151 | a quoted, escaped text parses back to the original text |
| ParserFacts.ParseStringFails | src/hsml/parseHSML.ts:145 | `parseString` fails exactly when the trimmed text does not both start and end with a quote |
| ParserFacts.LoneQuoteIsEmpty | src/hsml/parseHSML.ts:145-146 | a single `"` both starts and ends the literal, so it parses to the empty text |
| ParserFacts.FuncArgQuoted | src/hsml/parseHSML.ts:136-141 | `name("...")` unwraps to the quoted text |
| ParserFacts.ParseUrlContent | src/hsml/parseHSML.ts:131 | content `url("...")` is url content holding the quoted text |
| ParserFacts.ParseStyleContent | src/hsml/parseHSML.ts:132 | content `style("...")` is style content holding the quoted text |
| ParserFacts.UnclosedUrlFails | src/hsml/parseHSML.ts:138 | a `url(` without a closing `)` fails with `Invalid url(...)` |
| ParserFacts.ParseSelectorRender | src/hsml/parseHSML.ts:153-161 | each well-formed name, path or descendant selector is read back from its text |
| ParserFacts.ParseSelectorThreeTokens | src/hsml/parseHSML.ts:160 | three or more tokens fall back to a name selector of the whole trimmed text |
| ParserFacts.ParseSelectorBlank | src/hsml/parseHSML.ts:160 | a blank selector has no tokens and is the name selector of the empty text |
| ParserFacts.ValueIsIdent | src/hsml/parseHSML.ts:224 | a text that is not a string, list, number or call is read as an identifier |
| ParserFacts.ValueIsList | src/hsml/parseHSML.ts:213 | a text starting with `[` is read as a list |
| ParserFacts.ValueIsCall | src/hsml/parseHSML.ts:216-222 | a call is read with its arguments split at top-level commas and each parsed |
| ParserFacts.ParseValueKinds | src/hsml/parseHSML.ts:208-225 | `parseValue` classifies its trimmed input in the source's order: empty, string, list, number, call, identifier |
| ParserFacts.IdentRoundTrip | src/hsml/parseHSML.ts:267-273 | a name-shaped argument is read back as the identifier it spells |
| ParserFacts.CallRoundTrip | src/hsml/parseHSML.ts:216-222 | a call written with plain arguments is read back with the same name and each argument parsed on its own |
| ParserFacts.JoinedNames | src/hsml/parseHSML.ts:235-265 | comma-joined identifiers are their own trim and split back into the identifiers |
| ParserFacts.ListRoundTrip | src/hsml/parseHSML.ts:227-233 | a list of identifiers is read back item by item |
| ParserFacts.ListOfNothing | src/hsml/parseHSML.ts:230 | `[` and `]` around blank text is the empty list |
| ParserFacts.EntriesAt | src/hsml/parseHSML.ts:166-169 | one key/value entry per pair, in order |
| ParserFacts.FoldEntries | src/hsml/parseHSML.ts:166-172 | folding the pair texts equals folding their entries |
| ParserFacts.FoldKeys | src/hsml/parseHSML.ts:166-172 | the loop keeps a key exactly when the start had it or some pair names it with a non-empty key |
| ParserFacts.FoldKeeps | src/hsml/parseHSML.ts:166-172 | a key no pair names keeps its starting value |
| ParserFacts.FoldLastWins | src/hsml/parseHSML.ts:171 | a non-empty key's value comes from the last entry that names it |
| ParserFacts.StyleBodyKeys | src/hsml/parseHSML.ts:163-174 | a parsed style body holds exactly the non-empty keys its pairs name |
| ParserFacts.StyleBodyLastWins | src/hsml/parseHSML.ts:171 | when a key repeats, the last pair that names it gives its value |
| ParserLines.Results | src/hsml/parseHSML.ts:41-87 | one result per line from the start position on |
| ParserLines.LinesCollect | src/hsml/parseHSML.ts:41-87 | the line loop collects the per-line results |
| ParserLines.ParseLinesNumbering | src/hsml/parseHSML.ts:56 | the line numbers of the nodes (of the rules) the loop adds are the 1-based numbers of the declaration lines (rule lines) from the start position on, in order |
| ParserLines.ParseNumbering | src/hsml/parseHSML.ts:36-90 | the line numbers of the nodes are exactly those of the declaration lines, in order, and the line numbers of the rules those of the rule lines |
| ParserLines.ResultsOkIff | src/hsml/parseHSML.ts:41-87 | the collected results succeed exactly when every line's result does |
| ParserLines.ResultsFirstError | src/hsml/parseHSML.ts:41-87 | the collected results fail with the error of the first failing line |
| ParserLines.ParseLinesOkIff | src/hsml/parseHSML.ts:41-87 | the line loop succeeds exactly when every remaining line parses |
| ParserLines.ParseLinesFirstError | src/hsml/parseHSML.ts:41-87 | when line i is the first to fail, the loop fails with its error |
| ParserLines.ParseOkIff | src/hsml/parseHSML.ts:36-90 | `parseHSML` succeeds exactly when every line parses |
| ParserLines.ParseFirstError | src/hsml/parseHSML.ts:36-90 | `parseHSML` fails with the error of the first failing line |
| ParserLines.BareValue | src/hsml/parseHSML.ts:208-225 | a value without `"`, `[` or `(` always parses |
| ParserLines.BareBody | src/hsml/parseHSML.ts:163-174 | a style body without `"`, `[` or `(` always parses |
| ParserLines.BareContent | src/hsml/parseHSML.ts:129-134 | content without `"`, `[` or `(` is text content of itself |
| ParserLines.BareLine | src/hsml/parseHSML.ts:42-86 | a line without `"`, `[` or `(` always parses |
| ParserLines.BareSource | src/hsml/parseHSML.ts:36-90 | a source without `"`, `[` or `(` always parses |
| ParserLines.ColonLineIsDecl | src/hsml/parseHSML.ts:47-50 | a line holding `:` is never a rule, so `House { layout:row gap:0.4 }` is a node |
| ParserLines.PathPrefixCut | src/hsml/parseHSML.ts:98-106 | the path text is the trim of everything before the first `:` or `{`, and the rest starts with that character |
| ParserLines.PathRoundTrip | src/hsml/parseHSML.ts:61 | non-empty segments without `/` survive joining on `/` and splitting with empty pieces dropped |
| TreeBuilder.MergeStylesFacts | src/hsml/buildTree.ts:38-40 | the merge has every key of either map, with `b`'s value where both have one |
| TreeBuilder.StartValid | src/hsml/buildTree.ts:5-7 | the table with only `root` at path "" satisfies the tree invariant (root at cell 0, `byPath` registers every node under its own path, children created after parents, child paths joined, siblings in creation order, one parent each) |
| TreeBuilder.AddChildValid | src/hsml/buildTree.ts:20-22 | creating a node at an unregistered path, one segment below the current node, keeps the invariant |
| TreeBuilder.AddChildOwned | src/hsml/buildTree.ts:21 | after appending the new child, every node but the root still has a parent created before it |
| TreeBuilder.DescendValid | src/hsml/buildTree.ts:14-25 | walking down a path keeps the invariant and stops at the node registered under the whole path |
| TreeBuilder.DeclareValid | src/hsml/buildTree.ts:9-33 | one declaration keeps the invariant |
| TreeBuilder.BuiltValid | src/hsml/buildTree.ts:4-36 | the table left after all declarations satisfies the invariant |
| TreeBuilder.Walk | src/hsml/buildTree.ts:14-25 | the inner loop leaves the table and current node of the specification `Descend` |
| TreeBuilder.BuildTable | src/hsml/buildTree.ts:9-33 | the outer loop leaves the table of the specification `DeclareFrom` |
| TreeBuilder.BuildTree | src/hsml/buildTree.ts:4-36 | the method returns the specification tree `Tree(nodes)` |
| TreeFacts.JoinPathInjective | src/hsml/buildTree.ts:15 | children with the same name under different paths get different paths |
| TreeFacts.ParentUnique | src/hsml/buildTree.ts:21 | a node has one parent: the only cell whose child list holds it |
| TreeFacts.SiblingsApart | src/hsml/buildTree.ts:21 | the subtrees of two siblings share no node |
| TreeFacts.SamePathSameCell | src/hsml/buildTree.ts:16-22 | no two cells share a path |
| TreeFacts.TreeUnique | src/hsml/buildTree.ts:4-36 | the paths in a cell's tree are pairwise different, and they are the paths of the cells under it |
| TreeFacts.AllUnderRoot | src/hsml/buildTree.ts:4-36 | the paths of the nodes under the root are exactly the paths `byPath` registers |
| TreeFacts.DescendKeys | src/hsml/buildTree.ts:15-22 | the walk registers exactly the path prefixes it passes |
| TreeFacts.TreeOfNothing | src/hsml/buildTree.ts:5 | `buildTree([])` is the root alone: named `root`, path "", no children |
| TreeFacts.TreeRoot | src/hsml/buildTree.ts:5 | the root of any built tree is named `root` and has the empty path |
| TreeFacts.TreeJoined | src/hsml/buildTree.ts:15 | a child's path is its parent's path, `/` and its name, or just its name under the root |
| TreeFacts.TreePathsUnique | src/hsml/buildTree.ts:14-25 | no two nodes of a built tree share a path |
| TreeFacts.TreeHasEveryPrefix | src/hsml/buildTree.ts:14-25 | the paths of the built tree are "" and every prefix of every declared path |
| TreeFacts.DescendGrown | src/hsml/buildTree.ts:14-25 | the walk only appends children and creates empty nodes |
| TreeFacts.DeclareLands | src/hsml/buildTree.ts:27-32 | the reached node's content is replaced only when the declaration has content, and its style is merged with the declaration winning |
| TreeFacts.DeclareKeepsOthers | src/hsml/buildTree.ts:27-32 | every other node keeps its content and style |
| TreeFacts.DeclareKeepsChildren | src/hsml/buildTree.ts:21 | no existing node is renamed or moved, and each existing child list only grows at its end |
| TreeFacts.DeclareTarget | src/hsml/buildTree.ts:11-25 | a declaration lands on the node registered under its whole path; an empty path lands on the root |
| Resolver.ApplyRules | src/hsml/resolveStyles.ts:65-71 | the loop gives the specification pass: the selected rules' styles merged in rule order |
| Resolver.ComputeMergedStyle | src/hsml/resolveStyles.ts:47-63 | the method gives the specification merge: name pass, then path pass, then descendant pass, then the inline style, from the empty map |
| Resolver.Lookup | src/hsml/resolveStyles.ts:10 | `style[key]` is present exactly when the key is in the map, with its value |
| Resolver.NumberVal | src/hsml/resolveStyles.ts:79-82 | a number is returned exactly when the value is a number |
| Resolver.NumericOrAuto | src/hsml/resolveStyles.ts:73-77 | a fixed dimension exactly when the value is a number, else `auto` |
| Resolver.StringVal | src/hsml/resolveStyles.ts:84-90 | the text of a string or an identifier, else nothing |
| Resolver.LayoutVal | src/hsml/resolveStyles.ts:92-96 | `row` exactly when `stringVal` gives "row", `col` exactly when it gives "col", else unset |
| Resolver.GetPadding | src/hsml/resolveStyles.ts:98-104 | x falls back to `p`, then 0; z does the same; y falls back straight to 0 |
| Resolver.GetMargin | src/hsml/resolveStyles.ts:106-112 | the same fallbacks over `m`, `mx`, `mz`, `my` |
| Resolver.InferKind | src/hsml/resolveStyles.ts:114-119 | a room exactly when declared `room`, named `Room` or `...Room`, or given an opening; otherwise a container exactly when there are children, else a leaf |
| Resolver.DecodeItem | src/hsml/resolveStyles.ts:127-145 | an item gives an opening only when it is a `door` or `window` call with a wall in N/E/S/W and numeric offset, width and height; a window's sill defaults to 0.9 and a door's is 0 |
| Resolver.DecodeOpenings | src/hsml/resolveStyles.ts:121-149 | the loop gives the specification list of openings: the decoded items in order, and none for a value that is not a list |
| Resolver.ResolveHead | src/hsml/resolveStyles.ts:9-33 | the typed style and kind are those of the specification for the node |
| Resolver.ResolveNode | src/hsml/resolveStyles.ts:8-45 | the recursion with its loop over children equals the specification `Resolve` |
| Resolver.ResolveStyles | src/hsml/resolveStyles.ts:4-6 | resolution starts with no ancestors |
| ResolverFacts.AppliedIsFold | src/hsml/resolveStyles.ts:65-71 | one pass merges the styles of the selected rules in order |
| ResolverFacts.MergedIsFold | src/hsml/resolveStyles.ts:47-63 | the merged style merges every source, in cascade order, over the empty map |
| ResolverFacts.CascadeWinner | src/hsml/resolveStyles.ts:47-63 | a key of the merged style has the value of the last source that sets it |
| ResolverFacts.CascadeAbsent | src/hsml/resolveStyles.ts:47-63 | a key no source sets is absent from the merged style |
| ResolverFacts.InlineWins | src/hsml/resolveStyles.ts:61 | every key of the inline style has its inline value, whatever the rules say |
| ResolverFacts.MatchingHas | src/hsml/resolveStyles.ts:66-68 | a rule the pass selects contributes its style, in rule order |
| ResolverFacts.DescSelects | src/hsml/resolveStyles.ts:55-58 | a descendant rule `a b` applies exactly when some strict ancestor is named `a` and the node is named `b` |
| ResolverFacts.ResolvedAlong | src/hsml/resolveStyles.ts:35 | every node is resolved with the names of all its strict ancestors, in order |
| ResolverFacts.RootIsAnAncestor | src/hsml/resolveStyles.ts:35 | with the root named `root`, a rule `root X` reaches every node named X below it |
| ResolverFacts.ResolveShape | src/hsml/resolveStyles.ts:37-44 | name, path and content are copied, children are resolved in the same order and number, and nothing is measured yet |
| ResolverFacts.ResolvedFields | src/hsml/resolveStyles.ts:18-33 | the style keeps the merged map and reads every field from it, with gap defaulting to 0 and wall thickness to 0.12 for a room, else 0 |
| ResolverFacts.ResolvedSpacing | src/hsml/resolveStyles.ts:15-16 | padding and margin use the fallbacks of `getPadding` and `getMargin` on the merged map |
| ResolverFacts.ResolvedKind | src/hsml/resolveStyles.ts:12-13 | the openings are those decoded from `open`, and the kind is a room exactly when declared `room`, named `...Room` or given an opening; otherwise a container exactly when there are children, else a leaf |
| ResolverFacts.OpeningsAppend | src/hsml/resolveStyles.ts:127-146 | decoding a list decodes each part on its own, keeping list order |
| ResolverFacts.OpeningsFromItems | src/hsml/resolveStyles.ts:121-149 | every opening comes from a list item, and there are never more openings than items |
| ResolverFacts.OpeningExamples | src/hsml/resolveStyles.ts:131-145 | `door(N, 4, 1.5, 2.1)` is a north door with sill 0, and a window without a fifth argument has sill 0.9 |
| Measure.MaxBounds | src/hsml/measure.ts:31 | the `Math.max` reduce from 0 is at least 0 and at least every size on its axis |
| Measure.MaxAttained | src/hsml/measure.ts:31 | the maximum is 0 or some element's size, so it is the least such bound |
| Measure.SumBounds | src/hsml/measure.ts:30 | with non-negative sizes the sum is non-negative and bounds each size |
| Measure.ChildSizes | src/hsml/measure.ts:22 | one size per child, in order, each that child's measured size |
| Measure.MeasureTree | src/hsml/measure.ts:3-5 | the returned size is the one the measured tree records for its root |
| Measure.MeasureShape | src/hsml/measure.ts:18-56 | measuring writes only `measured`, keeping everything else and the children's order and number, and the size comes from the children's sizes |
| Measure.EveryNodeMeasured | src/hsml/measure.ts:7-57 | every node of the measured tree has a size, and each child's size is what its parent's computation used |
| Measure.LeafSize | src/hsml/measure.ts:12-20 | a leaf takes each axis from its explicit value, else 1 |
| Measure.ExplicitKept | src/hsml/measure.ts:8-10 | an explicit dimension is the measured value on its axis, whatever the layout |
| Measure.RowSize | src/hsml/measure.ts:28-44 | for a row, auto width is the sum of widths plus gaps plus padding on both sides, and auto depth is the deepest child plus padding |
| Measure.ColSize | src/hsml/measure.ts:28-44 | for a col, auto depth is the sum of depths plus gaps plus padding, and auto width is the widest child plus padding |
| Measure.StackSize | src/hsml/measure.ts:46-56 | for a stack, each auto axis is the largest child plus padding on both sides, and the gap is ignored |
| Measure.AutoHeight | src/hsml/measure.ts:40 | an auto height is the tallest child plus vertical padding, in every layout |
| Measure.StackBounds | src/hsml/measure.ts:46-56 | an auto stack axis is at least twice the padding, and at least any child's size plus that padding |
| Layout.Infos | src/layout/layoutFlex.ts:42-48 | one info per child, in order |
| Layout.Grown | src/layout/layoutFlex.ts:54-58 | growing keeps the number of infos |
| Layout.Distribute | src/layout/layoutFlex.ts:50-58 | the grow step keeps the number of infos |
| Layout.FlexInfos | src/layout/layoutFlex.ts:36-58 | one final info per child |
| Layout.StackBoxes | src/layout/layoutFlex.ts:29-32 | one box per child |
| Layout.FlexBoxes | src/layout/layoutFlex.ts:60-73 | one box per child |
| Layout.GrowMains | src/layout/layoutFlex.ts:54-58 | growing each info in place, one after another, gives the specification `Grown` |
| Layout.LayoutTree | src/layout/layoutFlex.ts:4-76 | the recursion with its loops returns the specification box `LayoutOf` |
| Layout.PlaceStacked | src/layout/layoutFlex.ts:27-34 | the stacking loop builds the specification children |
| Layout.PlaceFlex | src/layout/layoutFlex.ts:36-73 | the flex branch builds the specification children |
| Layout.FinalInfos | src/layout/layoutFlex.ts:36-58 | the infos and grow step give the specification final infos |
| Layout.PlaceAlong | src/layout/layoutFlex.ts:60-73 | the cursor loop builds the specification children |
| LayoutFacts.BoxHead | src/layout/layoutFlex.ts:9-25 | a box is named by the node's path (its name at the root), carries the node and its kind, sits at the given origin, takes each size from the override else the measured size, and has one child box per child |
| LayoutFacts.ChildInOrder | src/layout/layoutFlex.ts:27-73 | child box i lays out child node i |
| LayoutFacts.ChildrenIgnoreOverride | src/layout/layoutFlex.ts:27-73 | a box's origin and size override do not change how its children are placed |
| LayoutFacts.StackPlacement | src/layout/layoutFlex.ts:29-32 | in a stack every child sits at the padding, at its measured size |
| LayoutFacts.FlexPlacement | src/layout/layoutFlex.ts:60-73 | child i sits at the padding plus the cursor on the main axis; it takes its final main size on that axis, its measured cross size across it, and its measured height |
| LayoutFacts.FlexInfosKeep | src/layout/layoutFlex.ts:42-58 | the final info keeps the child, its measured size, its cross size and its grow factor; only the main size may change |
| LayoutFacts.ProvisionalMain | src/layout/layoutFlex.ts:44 | before growing, the main size is `basis`, else the measured size on the main axis |
| LayoutFacts.NoGrowKeeps | src/layout/layoutFlex.ts:54 | with no positive leftover or no positive total grow, no main size changes |
| LayoutFacts.GrownSum | src/layout/layoutFlex.ts:54-58 | growing raises the sum of main sizes by `leftover * SumGrow / sumGrow` |
| LayoutFacts.GrowFills | src/layout/layoutFlex.ts:50-58 | with positive leftover and positive total grow, the grown main sizes plus gaps fill the content length exactly |
| LayoutFacts.GrowOnlyMain | src/layout/layoutFlex.ts:54-58 | growing changes only main sizes and never shrinks a child whose grow factor is not negative |
| LayoutFacts.CursorIsPrefixSum | src/layout/layoutFlex.ts:60-73 | the cursor at child i is the sum of earlier main sizes plus one gap for each |
| LayoutFacts.ShrinkIgnored | src/layout/layoutFlex.ts:4-76 | `shrink` is never read by the layout: two trees that differ only in the shrink factors of any of their nodes are both layable and are laid out with the same ids, kinds, origins and sizes at every depth |
| LayoutFacts.FlexInfosAgree | src/layout/layoutFlex.ts:36-58 | the final child infos of a row or col node (sizes, main and cross, grow) do not depend on shrink factors |
| LayoutFacts.DistributeAgrees | src/layout/layoutFlex.ts:50-58 | the grow step gives agreeing results on info lists that agree in sizes and grow factors |
| LayoutFacts.MeasuredIsLayable | src/layout/layoutFlex.ts:43 | in a fully measured tree no `measured!` fails |
| LayoutFacts.MeasuredTreeLayable | src/layout/layoutFlex.ts:43 | every tree the measurer returns can be laid out |
| Validator.IssueList.constructor | src/hsml/validate.ts:4 | the list starts empty |
| Validator.IssueList.Push | src/hsml/validate.ts:19 | the list gains exactly the one issue at its end |
| Validator.IssueList.EnsureFinite | src/hsml/validate.ts:95-105 | appends the `label must be a finite number` error exactly when the value is present and not finite |
| Validator.IssueList.CheckDims | src/hsml/validate.ts:17-24 | appends the size issues of the specification |
| Validator.IssueList.CheckFields | src/hsml/validate.ts:30-37 | appends the eight field checks' issues in source order |
| Validator.IssueList.CheckOpening | src/hsml/validate.ts:51-57 | appends one opening's four checks in source order |
| Validator.IssueList.ValidateOpenings | src/hsml/validate.ts:48-59 | appends the checks of every opening, in list order |
| Validator.IssueList.ValidateOverflow | src/hsml/validate.ts:61-89 | appends the overflow issues of the specification |
| Validator.IssueList.ValidateNode | src/hsml/validate.ts:16-46 | appends size, field, room and overflow issues in that order |
| Validator.IssueList.Walk | src/hsml/validate.ts:9-14 | appends the node's issues, then each child subtree's, as the specification walk |
| Validator.IssueList.WalkChildren | src/hsml/validate.ts:11-13 | appends each child subtree's issues, in child order |
| Validator.ValidateHSML | src/hsml/validate.ts:3-7 | starting from an empty list, returns the specification issues of the tree |
| ValidatorFacts.PreOrder | src/hsml/validate.ts:9-14 | the pre-order starts with the node itself |
| ValidatorFacts.WalkIsPreOrder | src/hsml/validate.ts:9-14 | the walk calls the callback once per node, in pre-order, and concatenates the results |
| ValidatorFacts.IssuesInPreOrder | src/hsml/validate.ts:3-14 | the issues of a tree are those of its nodes in pre-order, with the root's own issues first |
| ValidatorFacts.NodeIssueShapes | src/hsml/validate.ts:16-46 | every issue of a node is at its path; it is a warning exactly when it is about overflow; it is about openings only in a room and about overflow only in a row or col; and it is always about size, a field, an opening or overflow |
| ValidatorFacts.IssuePaths | src/hsml/validate.ts:3-14 | every issue of a tree is reported at the path of one of its nodes |
| ValidatorFacts.DimErrors | src/hsml/validate.ts:17-24 | a missing or non-finite size gives exactly one error and no axis check; otherwise there is one error per non-positive axis and no other |
| ValidatorFacts.FiniteCheck | src/hsml/validate.ts:95-105 | `ensureFinite` reports at most once, and exactly when the value is present and not finite |
| ValidatorFacts.FieldErrors | src/hsml/validate.ts:30-34 | gap, each padding axis and wall thickness are reported exactly when they are not finite |
| ValidatorFacts.OptionalFieldErrors | src/hsml/validate.ts:35-37 | basis, grow and shrink are skipped when missing and reported exactly when present and not finite |
| ValidatorFacts.FieldMembers | src/hsml/validate.ts:30-37 | an issue is a field issue exactly when one of the eight checks reports it |
| ValidatorFacts.SameChecks | src/hsml/validate.ts:16-46 | a node's issues depend only on its path, kind, size, children and the checked style fields |
| ValidatorFacts.MarginIgnored | src/hsml/validate.ts:16-46 | the margin is never checked, so changing it changes no issue |
| ValidatorFacts.OpeningErrors | src/hsml/validate.ts:52-57 | each of the four opening checks reports exactly its own condition |
| ValidatorFacts.WallLengths | src/hsml/validate.ts:51 | N and S walls are as long as the room is wide, and E and W walls as long as it is deep |
| ValidatorFacts.OverflowWarning | src/hsml/validate.ts:61-89 | a row or col with children warns once, with the amount, exactly when measured main sizes plus gaps exceed the content length by more than 1e-6 and the shrink factors sum to 0 |
| ValidatorFacts.AtMostOneWarning | src/hsml/validate.ts:16-46 | a node has at most one warning, and only a row or col can have one: its overflow warning |
| ValidatorFacts.MeasuredNotBasis | src/hsml/validate.ts:70-74 | overflow reads measured sizes, not `basis`: a row 3 wide with two children measuring 1 has no overflow, whatever their basis |
| ValidatorFacts.OverflowExample | src/hsml/validate.ts:76-87 | the same row with children measuring 2 and no shrink warns of an overflow of 1 |
| ValidatorFacts.MeasuredIsCheckable | src/hsml/validate.ts:62-72 | in a tree whose every node is measured no `measured!` read by the validator fails |
| ValidatorFacts.MeasuredTreeCheckable | src/hsml/validate.ts:49 | every tree the measurer returns can be validated |
| Pipeline.ApplyChanges | src/app/App.tsx:54-74 | running parse, build, resolve, measure, validate and, without errors, layout gives the specification outcome `Compiled` |
| Pipeline.Failed | src/app/App.tsx:70-73 | a failed parse gives an outcome whose issues hold an error and which has no layout |
| Pipeline.Decide | src/app/App.tsx:62-69 | the validator's issues are kept, and there is a layout exactly when no issue is an error, the measured tree's layout from the origin |
| Pipeline.LayoutIffNoError | src/app/App.tsx:63-69 | a run produces a layout exactly when its issues hold no error, so warnings never block layout |
| Pipeline.ParseErrorAborts | src/app/App.tsx:70-73 | a parse error is the run's only issue, an error at `root`, and there is no layout |
| Pipeline.ParsedRun | src/app/App.tsx:57-69 | after a successful parse the issues are the validator's on the resolved, measured tree, and any layout is that tree's layout from the origin |

## Left out

- Floating point: numbers are exact reals. IEEE rounding and NaN/Infinity arithmetic are not modelled. `isFinite` is the parameter `fin`, and NaN makes `(...) || 0` in `validateOverflow` fall back to 0, which reals never need.
- Message text: issues carry a `Message` value (the kind of message, the field label, the overflow amount) instead of the formatted string. `toFixed(3)` formatting of the overflow amount is not modelled.
- Parse error text: a `ParseError` value (expected string, invalid wrapper, invalid list) stands for the thrown error's message. The error carries no line number, as in the code; only nodes and rules are numbered.
- Parser.StyleFromPairs, Parser.StyleAdd, ParserFacts.StyleBodyKeys: a style map is a plain map from key text to value. JavaScript's special object key `__proto__` is not modelled: there it sets the prototype instead of adding an own key, so `Object.assign` and object spread drop the pair. The model keeps it as an ordinary key, which only `style.raw` could show.
- The invalid-layout check in `validateNode` (src/hsml/validate.ts:26-28) cannot fire: the resolver only ever sets `row`, `col` or nothing, and the model's layout type has no other value.
- Validator.IssueList.Walk: the walk callback is fixed to `validateNode` (a generic `fn` is used only in the specification lemmas), since no other caller exists.
- TypeErrors from `measured!`: the validator and the layout require every dereferenced `measured` to be present. `LayoutFacts.MeasuredTreeLayable` and `ValidatorFacts.MeasuredTreeCheckable` prove that the measurer's output always satisfies this, so the pipeline's `catch` is reached only by parse errors.
- Regular expressions are replaced by character predicates with the same meaning: `\r?\n`, `\s+`, `-?\d+(\.\d+)?`, the call pattern, and `.` not matching line terminators.
- Key insertion order of a style map is not modelled (maps are unordered); only the final value of each key is.
- `measureTree` writes `node.measured` in place on the shared tree; the model returns a new tree with every `measured` filled, so aliasing of the resolved tree is not modelled.
- `buildTree`'s node objects are cells of a table indexed by creation order, with child lists as indices; object identity is the index.
- App.tsx: React state (`setIssues`, `setLayout`, `useMemo`), the editor text, the rendering and the 3D scene are left out. The two state updates become the `Outcome` of a run.
- RoomML (src/roomml), geometry (src/geom), the demo and the debug layout are not part of this model.

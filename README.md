# go-css parser, modelled in Dafny

This project models the core of `go-css`, a small parser for a subset of
CSS. The parser turns a list of scanner tokens into a stylesheet: a map
from selector name (`div`, `.foo`, `#bar`) to that selector's
property/value map. The model has three parts:

- **Token classification** (`tokens.dfy`, module `Tokens`). Each token's
  literal text is mapped to a closed token kind: `{`, `}`, `:`, `;`, and
  `.`/`#` (a selector marker) each have one, and every other text is a
  value. The module also holds the printable kind name, a selector's
  classification as class, id or tag, and the builder that drains the
  scanner into the parser's token list.
- **The state machine** (`parser.dfy`, module `Parser`). `Step` and `Run`
  are the specification: one token at a time, applied to an explicit
  `State`. The state holds every local of the Go `parse` function: `rule`,
  `style`, `value`, `selector`, `isBlock`, `css`, `styles` and `prevToken`.
  `Parse` is the imperative loop. It removes the front token each turn,
  updates local variables, runs the merge loop on `}`, and stops at the
  first error. Its postcondition says it returns exactly
  `Run(Initial(), l)`'s stylesheet and error. `MergeStyles` is the inner
  merge loop over a map's keys, visited in an arbitrary order.
- **Properties** (`properties.dfy`, module `ParserProperties`) and concrete
  inputs (`examples.dfy`, module `ParserExamples`).

The model follows the code, including these behaviours a reader might not
expect:

- Whitespace tokens reach the token list. `parse` skips them, and they
  do not update the previous kind.
- The list of selector names is never cleared after a block. Every `}`
  therefore re-binds every name seen so far, so `a{x:1;} b{y:2;}` gives
  both `a` and `b` the map `{x:1, y:2}` (`ParserExamples.EarlierNamesRebound`).
- The selector marker (`.` or `#`) is not cleared after it is joined to a
  name.
- `style` and `value` survive a `;` within a block. Only `}` resets them, so `p: v; q;` also declares `q` as `v` (`ParserProperties.ValueSurvivesSemicolon`).
- Input that ends inside a block is accepted, and that block commits
  nothing (`ParserExamples.UnterminatedBlock`).

In Go, every name bound at one `}` shares the single `styles` map, and the
merge loop keeps adding to that map while it runs. `Parse` therefore first
merges all names' earlier entries into the block's map, and then binds
every name to the finished map. `ParserProperties.InterleavedMergeAgrees`
proves that this gives the same map as the Go loop. In the Go loop, a name
seen a second time in the same `}` reads back the shared map.

## Model

| member | source | states |
|---|---|---|
| `Tokens.NewTokenType` | parser.go:86-100 | Total classifier: `{` is BlockStart, `}` BlockEnd, `:` StyleSeparator, `;` StatementEnd, `.` and `#` Selector, any other text Value; it never yields FirstToken or RuleName |
| `Tokens.EntryType` | parser.go:50-52 | A list entry's kind is the classification of its text, so it is never FirstToken or RuleName |
| `Tokens.TypeName` | parser.go:70-84 | The printed name is "VALUE" exactly for Value, FirstToken and RuleName; it is never empty |
| `Tokens.TypeNameSeparatesKinds` | parser.go:70-100 | On every kind the classifier can produce, two texts have the same printed kind name if and only if they have the same kind |
| `Tokens.HasPrefix` | parser.go:40-43 | The prefix test `strings.HasPrefix` that `RuleType` applies; its use is characterised by `RuleType`'s contract |
| `Tokens.RuleType` | parser.go:40-48 | "class" exactly when the selector starts with `.`, "id" exactly when it starts with `#`, "tag" otherwise, the empty selector included |
| `Tokens.IsSpace` | parser.go:157 | An entry is whitespace exactly when its scanner token is of the whitespace kind; its role in the parse is stated by `Step`, `WhitespaceInvisible` and `WhitespaceIrrelevant` |
| `Tokens.NextEntry` | parser.go:54-68 | A nil token or the end-of-input token ends the list; any other token, whitespace included, becomes an entry carrying the token and its text |
| `Tokens.Scanned` | parser.go:111-130 | The token list holds every scanner token in order, up to but excluding the first nil or end-of-input token |
| `Tokens.BuildList` | parser.go:114-122 | The push-back loop builds exactly that list |
| `Parser.Initial` | parser.go:135-150 | The parser starts from Go's zero values: no names, empty property, value and marker, no open block, an empty stylesheet and block map, and FirstToken as the previous kind |
| `Parser.StepValue` | parser.go:162-177 | What a value token does depends on the previous kind. After RuleName it fails with "invalid syntax" at its line, and only then. After FirstToken, BlockEnd or another value it is appended as a name. After a selector marker, the marker joined to it is appended as a name. In both name cases the property and value are kept. After `{` or `;` it becomes the property, and the value is kept. After `:` it becomes the value, and the property is kept. In every accepted case the selector marker, stylesheet, block map and block flag are unchanged, and the previous kind becomes Value |
| `Parser.Step` | parser.go:155-212 | One turn of the loop. Whitespace changes nothing. Every error carries the consumed token's line. An accepted token becomes the previous kind, never removes a name, and only `}` writes the stylesheet. The exact successor state of each kind is stated by `StepTransitions`. The guards are stated by `BlockStartGuard`, `StatementEndGuard` and `BlockEndGuard` |
| `ParserProperties.StepTransitions` | parser.go:161-212 | The exact successor of every non-whitespace token. A `.` or `#` writes only the marker. A `:` writes only the previous kind. An accepted `{` only opens the block, and an accepted `;` only adds the declaration to the block map. A value is appended as a name, or becomes the property or the value, as the previous kind decides, or it fails with "invalid syntax" after RuleName. Each accepted token also sets the previous kind, and no other field changes |
| `Parser.Run` | parser.go:152-215 | The loop from a given state, stopping at the first error. Its properties are stated by `RunAppend`, `FailureAtToken`, `WhitespaceInvisible` and `RunKeepsCoherent` |
| `Parser.MergeNames` | parser.go:195-204 | The `}` merge over every collected name. Its result is characterised by `MergeNamesSpec` |
| `Parser.BindNames` | parser.go:205 | Rebinding every collected name to the merged map. Its result is characterised by `BindNamesSpec` |
| `Parser.MergeOld` | parser.go:196-204 | Merging an earlier entry keeps the block's declarations and adds each earlier property the block lacks; the keys are the union |
| `Parser.MergeStyles` | parser.go:199-203 | The key-by-key merge loop computes that merge, whatever order it visits the keys in |
| `Parser.Parse` | parser.go:133-215 | The parse loop returns exactly the stylesheet and the first error of running the state machine over the whole list from the initial state |
| `Parser.Unmarshal` | parser.go:219-221 | Parsing the scanner's output is the state machine run over the token list that `BuildList` builds from it |
| `ParserProperties.RunAppend` | parser.go:152-155 | Tokens are consumed front to back: running `a + b` is running `a`, then `b` from where `a` ended; a run that failed in `a` processes nothing of `b` |
| `ParserProperties.RunCons` | parser.go:152-161 | Running a list whose front is one token is that token's step, followed, if it succeeded, by the rest of the list from the state it left |
| `ParserProperties.RunThrough` | parser.go:152-161 | After a successful prefix, the next token is stepped from the state the prefix left, and the rest follows only if it succeeded |
| `ParserProperties.FailureAtToken` | parser.go:176-194 | A failed parse stopped at one token: the tokens before it succeeded and led to the returned state, that token failed on it, and the error carries that token's line |
| `ParserProperties.BlockStartGuard` | parser.go:180-184 | `{` opens a block exactly when the previous non-whitespace token was a value; otherwise the parse stops there with "missing rule identifier" at its line and the stylesheet as it was |
| `ParserProperties.StatementEndGuard` | parser.go:185-190 | `;` commits `style: value` exactly when it follows a value and both are non-empty; otherwise it fails with "expected style before semicolon" at its line |
| `ParserProperties.BlockEndGuard` | parser.go:191-194 | `}` outside a block fails with "rule block ends without a beginning" at its line, with the stylesheet as it was; inside a block it is accepted |
| `ParserProperties.NoInvalidSyntaxFrom` | parser.go:164-176 | From any state whose previous kind the classifier can produce, no run fails with "invalid syntax", and the previous kind stays producible |
| `ParserProperties.InvalidSyntaxUnreachable` | parser.go:164-176 | The "invalid syntax" default branch is unreachable: no parse reports it |
| `ParserProperties.Significant` | parser.go:157-159 | The result is no longer than the input and holds no whitespace token |
| `ParserProperties.SignificantKeeps` | parser.go:157-159 | Keeps exactly the non-whitespace tokens, so a token is in the result if and only if it is in the input and is not whitespace. A list without whitespace is returned unchanged |
| `ParserProperties.SignificantAppend` | parser.go:157-159 | Dropping whitespace keeps the order: it distributes over concatenation |
| `ParserProperties.WhitespaceInvisible` | parser.go:155-159 | Deleting every whitespace token leaves the outcome unchanged, the previous kind included |
| `ParserProperties.WhitespaceIrrelevant` | parser.go:155-159 | Two token lists that differ only in whitespace tokens parse to the same stylesheet and the same error |
| `ParserProperties.MergeNamesSpec` | parser.go:195-204 | The merged block map has the block's properties plus those of the names' earlier entries; the block's value wins, and otherwise the earliest name in the list that declares the property gives its value |
| `ParserProperties.InterleavedMerge` | parser.go:195-205 | Go's merge-and-bind loop, name by name: a name bound earlier in the same `}` reads back the shared map. Related to `MergeNames` by `InterleavedMergeAgrees` |
| `ParserProperties.InterleavedMergeAgrees` | parser.go:195-205 | Go's loop merges and binds name by name, and a name already bound in the same `}` reads back the shared map. That loop gives the same map as merging every name first, so binding afterwards yields the Go stylesheet |
| `ParserProperties.BindNamesSpec` | parser.go:195-207 | Binding gives every listed name the same map and leaves every other entry alone |
| `ParserProperties.BlockEndCommits` | parser.go:191-210 | An accepted `}` binds every collected name to the merged map and leaves other entries alone; it clears the block map, property and value and closes the block, and keeps the names and the selector marker |
| `ParserProperties.NoBlockEndNoCommit` | parser.go:205 | The stylesheet is written only at `}`: a run without one leaves it unchanged, so an unterminated block commits nothing |
| `ParserProperties.StepKeepsCoherent` | parser.go:161-212 | One step keeps every committed name among the collected names and all entries equal, and it only adds names |
| `ParserProperties.RunKeepsCoherent` | parser.go:152-213 | Every run keeps that invariant, and the collected names only ever grow |
| `ParserProperties.ParsedEntriesAgree` | parser.go:195-210 | Every stylesheet a parse returns, complete or partial, maps all of its selectors to one and the same map |
| `ParserProperties.NamesRun` | parser.go:164-174 | Value tokens after the start, a block end or another value are all appended to the selector names |
| `ParserProperties.MarkerRun` | parser.go:167-179 | From any state, a `.` or `#` followed by a value records the marker and appends the marker joined to the value as a name, with no error |
| `ParserProperties.ValueSurvivesSemicolon` | parser.go:169-190 | Inside a block, `p: v; q;` declares both `p` and `q` as `v`, because `;` keeps the value and a bare value after `;` replaces only the property |
| `ParserProperties.DeclsRun` | parser.go:169-190 | Well-formed `p: v;` declarations inside a block write each pair into the block map, a later one winning, and change neither the stylesheet nor the names |
| `ParserProperties.BodyRun` | parser.go:180-210 | A well-formed body `{ p: v; ... }` after a name binds all collected names, earlier blocks' included, to the declarations merged with their earlier entries, and resets the block state |
| `ParserProperties.BlockRun` | parser.go:161-212 | A well-formed block after the start or a block end appends its names and then commits as the body does |
| `ParserProperties.MergeNamesEmpty` | parser.go:196-197 | With no earlier entries the merge leaves the block map unchanged |
| `ParserProperties.FirstBlock` | parser.go:133-215 | The first block of the input binds its names to exactly its own declarations |
| `ParserExamples.SingleBlock` | parser.go:133-215 | `sel { prop: val; }` gives exactly one entry, `sel`, mapping exactly `prop` to `val` |
| `ParserExamples.TwoSelectorsOneBlock` | parser.go:173-174 | `a b { x: 1; }` gives `a` and `b` the same map `{x: 1}` |
| `ParserExamples.TwoBlocks` | parser.go:195-210 | `a { x: v1; } b { y: v2; }` ends with names `[a, b]`, both bound to the second block's map merged with `a`'s earlier entry |
| `ParserExamples.EarlierNamesRebound` | parser.go:208-210 | `a{x:1;} b{y:2;}` gives both `a` and `b` the map `{x: 1, y: 2}`, because the names are never cleared |
| `ParserExamples.LaterBlockWins` | parser.go:199-203 | `a{x:1;} a{x:2;}` gives `a` the map `{x: 2}` |
| `ParserExamples.RepeatedSelectorMerges` | parser.go:196-205 | `a{x:1;} a{y:2;}` gives `a` the map `{x: 1, y: 2}` |
| `ParserExamples.MarkerJoinsName` | parser.go:167-168 | `. foo` leaves one name, `.foo`, with the marker kept and the previous kind a value |
| `ParserExamples.ClassSelector` | parser.go:167-168 | `. foo { x: 1; }` joins the marker to the name across whitespace, giving the class selector `.foo` |
| `ParserExamples.UnterminatedBlock` | parser.go:152-155 | `a { x: 1;` without `}` ends without error, with the block open and nothing committed |
| `ParserExamples.LoneBlockEnd` | parser.go:191-194 | `}` alone fails with "rule block ends without a beginning" on its line, with an empty stylesheet |
| `ParserExamples.MissingSeparatorInBlock` | parser.go:169-189 | Inside the block, `x` becomes the property and `1` another name, and the `;` fails on the second line with names `[a, 1]` and nothing committed |
| `ParserExamples.MissingSeparatorLine` | parser.go:185-189 | In `a {` / `x 1;` / `}` the `1` becomes another selector name, so the `;` fails with "expected style before semicolon" on line 2 |

## Left out

- The scanner (`github.com/gorilla/css/scanner`), `ioutil.ReadAll` and `bytes.NewReader` are I/O and a foreign lexer. The scanner's output is a finite parameter: a sequence of tokens, each with a kind (whitespace, end of input, other), a text and a line. `None` stands for a nil token. Running off the end of the sequence also ends the list.
- Whether `buildList` terminates depends on the scanner eventually returning nil or end of input. That is not modelled, because the scanner's output is finite here.
- `CSSStyle` and `StylesTable` are a lookup into code that is not part of this model.
- `fmt.Errorf` message formatting is left out. An error is a datatype holding the error kind and the line.
- The pointer structure of `container/list` is left out. The list is a sequence consumed from the front.
- Go map aliasing is left out beyond its visible result: all names bound at one `}` end up with equal maps, which `ParserProperties.ParsedEntriesAgree` states.
- The scanner's token kinds other than whitespace and end of input are merged into one kind, because `parse` tests only for whitespace.
- Go strings are byte strings; here texts are `seq<char>`. The parser only compares texts, joins them and uses them as keys.

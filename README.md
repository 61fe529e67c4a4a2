# Mock generator core, modelled in Dafny

The repository generates Go mocks. It reads a Go source file and writes a
mock file for it. For every exported function the mock file holds:

- a function with the same signature, which looks its arguments up in JSON
  fixture data and returns the recorded results;
- a fixture struct `<Func>Struct` with an `Input` struct and, when the
  function has results, an `Output` struct.

The mock file also copies the file's struct and interface declarations. It
ends with an import block, computed from the package qualifiers the
signatures use.

This project models the generator in `mock/fileWriter.go`. It works on the
parsed declarations and produces Go source text. It is split into these
modules:

- `GoStrings`: the Go string operations used. These are `strings.Join`,
  `strings.Split` on one character, `strings.Trim` with a one-character
  cutset, `strings.HasSuffix`, ASCII `strings.Title` and the `%d` verb.
- `TypePrinter`: `typeString` and `typeFieldList`, over a `TypeExpr`
  datatype with one constructor per AST node kind. A panic is a `Failure`.
- `TypeReader`: a reader for Go type text. Reading what `typeString`
  printed gives the type back (up to parameter names), so the printed
  text denotes the type it came from.
- `ParamLists`: `genList`, which builds the aligned names, types and
  `name type` strings of a field list.
- `Qualifiers`: `stripSpecialCharsinPrefix`, the `builtinTypes` set, and
  the package qualifier taken from a type's text.
- `FixtureStructs`: `GenerateFunctionStruct`.
- `MockFunctions`: the text of the mock function written by
  `GenerateFuncCode`.
- `ImportBlocks`: the import block written by `GenerateImportCode`.
- `MockGen`: the `MockedObject` class. Its methods update the collected
  qualifiers, the `reflect.DeepEqual` counter and the four text buffers.

Code that builds text with loops is modelled as methods with loops. Each
method is proved equal to a specification function on its inputs, and the
properties are proved about those functions. The `MockedObject` methods
state the whole new state of the object.

Where Go would panic, the model checks the same condition up front.

- `typeString` and `genList` return a `Failure`.
- `GenerateFuncCode`, `GenerateStructCode` and `GenerateInterfaceCode`
  return `ok == false` and leave the object unchanged.
- `stripSpecialCharsinPrefix` panics when the text before the first `.`
  is nonempty and made of special characters only (for a param
  `x [.5]int` that text is `[`). Its caller in `GenerateFuncCode` passes
  that text unchecked, so the model's `GenerateFuncCode` checks the
  condition first (`FuncCodeDefined`) and reports the panic as
  `ok == false`. The same check covers a param without a second word,
  which would make `GenerateFunctionStruct` panic.

## Model

| member | source | states |
|---|---|---|
| TypePrinter.TypeString | mock/fileWriter.go:80-133 | typeString renders a type exactly when it is built only from supported constructs: an array length must be absent or a literal, a selector must be on a plain identifier, an interface must have no methods, and no other node kind may occur. Any other type panics. |
| TypePrinter.TypeFieldList | mock/fileWriter.go:51-78 | typeFieldList succeeds, with or without optParen, exactly when the list is nil or every field's type is printable. |
| TypePrinter.FieldTypes | mock/fileWriter.go:58-67 | The loop over the fields succeeds exactly when every field's type is printable, and then gives one entry per declared name, and one for an unnamed field. |
| TypeReader.WellFormedPrints | mock/fileWriter.go:80-133 | Every type Go's parser can produce from supported constructs renders without panicking. |
| TypeReader.FieldTypesAreEntries | mock/fileWriter.go:59-66 | The i-th rendered entry of a field list is the rendering of the i-th entry type, with each field's type repeated once per name. |
| TypeReader.FirstCharacter | mock/fileWriter.go:80-133 | A rendering is nonempty and never starts with a delimiter (`, ) ] (` or space). It starts with `<` exactly for a receive-only channel. |
| TypeReader.ResultListShape | mock/fileWriter.go:51-78 | A nil list renders as "". With optParen, a single entry stays bare and never starts with `(`; any other count is the plain comma-joined list wrapped in `(` and `)`. |
| TypeReader.ReadPrinted | mock/fileWriter.go:80-133 | Round trip: reading the rendering of a well-formed type, followed by any text that may follow a type, gives back the type (names dropped) and leaves that text. Each case (`*`, `[]`, `[n]`, `pkg.T`, `interface{}`, `map[K]V`, `...`, `func(...)`, the three chan directions) is rendered as its prefix followed by the rendering of its parts. |
| TypeReader.ReadPrintedFunc | mock/fileWriter.go:118-119 | Round trip for a function type: parameter list, result list and its optional parentheses are read back. |
| TypeReader.ReadPrintedResults | mock/fileWriter.go:118-119 | Round trip for the result list of a function type: none, one bare entry, or a parenthesised list. |
| TypeReader.ReadPrintedList | mock/fileWriter.go:51-78 | Round trip for a comma-joined list of entries, including the empty list. |
| TypeReader.ReadPrintedEntries | mock/fileWriter.go:51-78 | Round trip for a nonempty comma-joined list of entries. |
| ParamLists.GenFields | mock/fileWriter.go:156-182 | The names, types and params lists built field by field always have equal length. |
| ParamLists.GenList | mock/fileWriter.go:135-185 | genList panics exactly when typeString does on one of the list's types, and on success its three lists (names, types, params) have equal length. |
| ParamLists.MultiNameForcesNames | mock/fileWriter.go:147-154 | When some field declares more than one name, genList behaves as if names were asked for. |
| ParamLists.GenListTypes | mock/fileWriter.go:156-182 | genList succeeds exactly when typeFieldList does, and its types are typeFieldList's entries. |
| ParamLists.NamedParamsJoin | mock/fileWriter.go:161-176 | When named, every param is its name, a space and its type. |
| ParamLists.UnnamedParamsAreTypes | mock/fileWriter.go:177-181 | When unnamed, every name is "" and the params are the types. |
| ParamLists.NamedListKeepsNames | mock/fileWriter.go:171-176 | When every field is named, the names are the declared names in order. |
| ParamLists.UnnamedListGetsPlaceholders | mock/fileWriter.go:162-168 | When named and no field has a name, the field at index idx is named `_a<idx>`. |
| ParamLists.PlaceholdersDistinct | mock/fileWriter.go:163 | Placeholders for different field indexes differ. |
| Qualifiers.StripSpecialCharsInPrefix | mock/fileWriter.go:466-493 | The `for flag` loop computes StripPrefix: it repeatedly trims the first character from both ends while that character is special. |
| Qualifiers.TrimShortens | mock/fileWriter.go:482-485 | Each trim of the leading special character shortens the text and keeps a non-special character in it, so the loop ends and never indexes an empty string. |
| Qualifiers.StripPrefix | mock/fileWriter.go:466-493 | What the loop computes: the result is empty only for empty input, and never starts with `* [ ] ( )` or space. |
| Qualifiers.StripIdempotent | mock/fileWriter.go:466-493 | Stripping twice is stripping once. |
| Qualifiers.StripKeepsMiddle | mock/fileWriter.go:466-493 | The result is a contiguous slice of the input, and everything cut from either end is special. |
| Qualifiers.StripBehindSpecials | mock/fileWriter.go:466-493 | Special characters in front of a name made of non-special characters are all removed, and the name is kept whole. |
| Qualifiers.TrailingCharacterCut | mock/fileWriter.go:484 | Because strings.Trim cuts both ends, `*pkg*` strips to `pkg`. |
| Qualifiers.QualifierSet | mock/fileWriter.go:302-316 | Every type text containing a `.` adds its stripped qualifier to the set. |
| Qualifiers.QualifierSetExactly | mock/fileWriter.go:302-316 | The qualifiers collected from a list of types are exactly the stripped text before the first `.` of each type that contains a `.`. |
| Qualifiers.QualifierOfSelector | mock/fileWriter.go:302-307 | A type `*[]pkg.T`, or any special prefix followed by `pkg.`, adds `pkg`. |
| Qualifiers.VariadicQualifierIsEmpty | mock/fileWriter.go:302-307 | A variadic `...pkg.T` adds the empty qualifier. |
| Qualifiers.MapQualifierKeepsKeyword | mock/fileWriter.go:302-307 | `map[string]time.Time` adds `map[string]time`, not `time`. |
| FixtureStructs.FixtureOf | mock/fileWriter.go:385-415 | The fixture has the given name, one Input field per param, and an Output struct exactly when there are results, with at least one field per result. |
| FixtureStructs.RenderFixture | mock/fileWriter.go:385-415 | The rendering opens with `type <name> struct {` followed by the Input block, and ends with the closing brace. |
| FixtureStructs.GenerateFunctionStruct | mock/fileWriter.go:385-415 | The two index loops write the rendering of the fixture: `Input`, then `Output` only when there are results. |
| FixtureStructs.ReturnFieldsCode | mock/fileWriter.go:388-392 | The loop writes one `ReturnI` field line per result type, in order. |
| FixtureStructs.ParamFieldsCode | mock/fileWriter.go:394-405 | The loop writes one Input field line per param, and appends a field line to the return fields exactly for the params whose type starts with `*`. |
| FixtureStructs.InputOnePerParam | mock/fileWriter.go:394-405 | Input has one field per param, in order: the Title-cased name, the param's second word as type, and the name as JSON tag. |
| FixtureStructs.ReturnOnePerResult | mock/fileWriter.go:389-392 | The i-th return field is `ReturnI`, typed with the i-th result type. |
| FixtureStructs.PointerFieldsExactly | mock/fileWriter.go:399-401 | The pointer fields are exactly the fields of the params whose type starts with `*`; each is typed with the first word of the type text. |
| FixtureStructs.OutputShape | mock/fileWriter.go:407-412 | Output exists exactly when there are results. It lists `ReturnI` for each result first, then the pointer params' fields. |
| MockFunctions.FuncText | mock/fileWriter.go:318-376 | The mock function opens with `func`, the receiver when there is one, the signature and the fixture lookup `jsonData := ServicesMap[...]`, and ends with the closing brace. |
| MockFunctions.AppendVarDecls | mock/fileWriter.go:327-329 | The loop appends one `var returnI T` line per result. |
| MockFunctions.AppendWriteBacks | mock/fileWriter.go:352-358 | The loop appends one `*p = *outp.P` line per pointer param. |
| MockFunctions.AppendReturnAssigns | mock/fileWriter.go:360-362 | The loop appends one `returnI = outp.ReturnI` line per result. |
| MockFunctions.ReturnVarsCode | mock/fileWriter.go:366-370 | The loop lists `return0` to `returnN-1`. |
| MockFunctions.ComparisonsPerParam | mock/fileWriter.go:334-346 | The match condition has one comparison per param, in order. |
| MockFunctions.ComparisonsReadInput | mock/fileWriter.go:334-346 | Each comparison reads the Input field the fixture struct declares for that param. |
| MockFunctions.DeepCountPositive | mock/fileWriter.go:339-345 | The count of reflect.DeepEqual comparisons is at most the number of params. It is positive exactly when some param's second word is not a builtin type. |
| MockFunctions.ChanParamComparedDeeply | mock/fileWriter.go:23-49 | A `chan T` param is looked up as `chan`, which is not builtin, so it is compared with reflect.DeepEqual. |
| MockFunctions.IntParamComparedDirectly | mock/fileWriter.go:338-341 | An `int` param is compared with `==`. |
| MockFunctions.WriteBacksReadPointerFields | mock/fileWriter.go:352-358 | Each write-back reads the Output field the fixture struct declares for that pointer param. |
| MockFunctions.VarDeclsEach | mock/fileWriter.go:327-329 | The i-th declaration is `var returnI` of the i-th result type. |
| MockFunctions.ReturnLinesEach | mock/fileWriter.go:360-370 | The i-th assignment is `returnI = outp.ReturnI`, and the i-th returned name is `returnI`. |
| MockFunctions.ReturnsReadOutput | mock/fileWriter.go:327-370 | Declarations, assignments, returned names and Output return fields agree one to one, index by index. |
| MockFunctions.PointerParamIffStarType | mock/fileWriter.go:355 | A param `name T` is written back exactly when T starts with `*`. |
| MockFunctions.ParamWords | mock/fileWriter.go:338 | Splitting `name T` on spaces gives the name, then the first word of T. |
| MockFunctions.NoResultsStillReadsOutput | mock/fileWriter.go:331 | A function with no results gets no Output struct, yet its mock still reads `elem.Output`. |
| ImportBlocks.AppendImportLines | mock/fileWriter.go:245-256 | The inner loop appends, for one qualifier, the line of each import that provides it, in import order. |
| ImportBlocks.LineChoice | mock/fileWriter.go:249-255 | Per (qualifier, import) pair, at most one line is written. A line is written exactly when the alias equals the qualifier, the path ends in `/q"`, or the path is `"q"`. An aliased match is written with its alias. |
| ImportBlocks.LinesForCount | mock/fileWriter.go:245-256 | At most one line per import, and none when no import provides the qualifier. That case is not an error. |
| ImportBlocks.LinesForProviders | mock/fileWriter.go:245-256 | The lines for a qualifier are exactly those of the imports that provide it. |
| ImportBlocks.ImportBlock | mock/fileWriter.go:237-264 | The block starts with `fmt` and `encoding/json`, then has `reflect` when asked for, and always ends with `)`. With no qualifier lines it is just those. |
| ImportBlocks.OrderIrrelevant | mock/fileWriter.go:244 | Any two visiting orders of the same qualifiers write the same lines, up to their order. |
| ImportBlocks.MapOrderIrrelevant | mock/fileWriter.go:244 | Two enumerations of the same qualifier set write the same multiset of lines. |
| ImportBlocks.PathSuffixProvides | mock/fileWriter.go:251-252 | An unaliased import `"dir/pkg"` provides `pkg` and is written as its path. |
| ImportBlocks.EmptyQualifierTakesUnaliased | mock/fileWriter.go:249-250 | The empty qualifier matches the empty alias of every unaliased import. |
| MockGen.FuncCodeDefined | mock/fileWriter.go:295-383 | The conditions under which GenerateFuncCode runs without panicking (genList succeeds on receiver, params and results, every qualifier can be stripped, every param has a nonempty second word). They imply that every type of the declaration is printable. |
| MockGen.MockedObject.constructor | mock/fileWriter.go:417-422 | A new object has the file name, no qualifiers, a zero counter and empty buffers. |
| MockGen.MockedObject.GenerateFuncCode | mock/fileWriter.go:295-383 | It fails, and changes nothing, exactly when genList or a qualifier strip would panic, or a param has no second word. Otherwise it adds the qualifiers of the params and results, raises the counter by the number of DeepEqual comparisons, and appends the fixture struct and the mock function. Nothing else changes. |
| MockGen.MockedObject.EmitFunction | mock/fileWriter.go:318-381 | functionDecls grows by a newline and the mock function text; the counter rises by the number of DeepEqual comparisons; nothing else changes. |
| MockGen.MockedObject.EmitStruct | mock/fileWriter.go:378-380 | structDecls grows by a newline and the rendering of the fixture `<name>Struct`; nothing else changes. |
| MockGen.MockedObject.WriteFuncCode | mock/fileWriter.go:318-376 | The text is the mock function for the receiver, name, params and results. The counter rises by the number of DeepEqual comparisons. |
| MockGen.MockedObject.AddQualifiers | mock/fileWriter.go:302-316 | A qualifier loop adds exactly the qualifier set of its types, and touches nothing else. |
| MockGen.MockedObject.MatchConditionCode | mock/fileWriter.go:332-346 | The `result` loop writes the match condition and counts the DeepEqual comparisons. |
| MockGen.MockedObject.GenerateImportCode | mock/fileWriter.go:237-264 | For the order in which the qualifier set is visited, importDecls is the import block with `reflect` exactly when the counter is positive. Nothing else changes. |
| MockGen.AppendQualifierLines | mock/fileWriter.go:244-257 | The outer loop visits every qualifier exactly once and appends its import lines. |
| MockGen.MockedObject.GenerateStructCode | mock/fileWriter.go:266-278 | It fails exactly when the slice `lines[startLine:endLine-1]` is out of range. Otherwise it appends a struct block with those lines when there are any, and nothing when there are none. |
| MockGen.MockedObject.GenerateInterfaceCode | mock/fileWriter.go:280-293 | The same, into an interface block. |
| MockGen.TypeBlockKeepsLines | mock/fileWriter.go:274-277 | The copied lines can be read back from the block: between its head and its tail, splitting on `\n` gives the lines. |

## Left out

- `writeToFile` and `runFmt` (mock/fileWriter.go:424-464) create files and run `gofmt`. This is I/O.
- `WriteExportedContent` (mock/fileWriter.go:187-235) drives the generator through `ast.Inspect`, a library walk over the syntax tree. The model takes its results as inputs: a `FuncDecl` per function, the start and end line of each type declaration, and the `(path, alias)` pairs of the imports.
- The `token.FileSet` position-to-line lookups (mock/fileWriter.go:268-271 and 282-285) are library calls. Their results are the `startLine` and `endLine` parameters.
- A Go slice expression is checked against the slice's capacity. The model checks against its length.
- mock/fileParser.go and morpheus.go are not part of this model. They are directory reading, JSON decoding and command-line handling.
- Go's map iteration order is random. `toImport` is a set, and `GenerateImportCode` returns the order it took as a ghost value. The model proves that every order writes the same lines, up to order.
- `fmt.Sprintf` is modelled as concatenation. `strings.Title` is modelled as ASCII upper-casing of the first character, not Unicode title-casing.
- Identifiers that are not ASCII count as identifier characters as a whole; Unicode letter classes are not modelled.
- A Go panic aborts the program. The model does not capture a partial update made before the panic: every panic condition is checked first, and the object is left unchanged.
- `reflectNum` is a Go `int`. The model uses an unbounded `nat`, since no realistic input overflows it.
- MockGen.MockedObject.GenerateImportCode: the order is existential (a ghost out-parameter), so its contract pins the block only up to the order of the qualifiers.

Two behaviours of the code a reader may not expect:

- `Output` is emitted only when the function has results, even when it has pointer params.
- A pointer param's `Output` field is typed with the first word of its type text (`*T` for a simple pointer), not the pointee type.

Behaviour kept as written:

- The qualifier of a map, chan or func type is taken from the text before its first `.`. So `map[string]time.Time` yields `map[string]time`, and the `time` import is not written.
- A variadic `...pkg.T` yields the empty qualifier, which matches every unaliased import.
- The builtin check looks only at the second space-separated word of a param, so `chan int` is looked up as `chan`.
- A function without results has no `Output` struct, but its mock still reads `elem.Output`.
- The fixture field types stop at the first space of the type text, since each param is split on spaces: `c chan int` gets the type `chan`, and `f func() int` gets `func()`.
- Import lines can repeat. The block always opens with `"fmt"` and `"encoding/json"`, but a qualifier `fmt` or `json` still matches a file import `"fmt"` or `"encoding/json"` (by the whole path or by its `/json"` suffix) and writes it again; the same holds for `reflect` when the counter is positive. An unaliased `"dir/pkg"` is also written once for the qualifier `pkg` and once more for the empty qualifier.

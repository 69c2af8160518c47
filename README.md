# go-rsql filter core in Dafny

go-rsql turns the query parameters of an HTTP request into database query parameters. The
filter parameter is written in RSQL: comparisons such as `price=gt=10` or
`genres=in=(sci-fi,action)`, joined by `;`/`and` (conjunction) and `,`/`or` (disjunction),
and grouped with parentheses. This project models the part of go-rsql that reads such a
filter and proves what it does:

- the two lexers. One is the grouped lexer of `ParseFilter`; the other is the older flat
  lexer of package `fp`. Both are state machines over the lexer cursor;
- the two parsers that turn the token streams into a tree of group, comparison and logical
  nodes, and the `String` renderings of those nodes;
- `RSQL.parseFilter`, which takes the filter expression out of the query values and stores
  the parsed tree in the query parameters;
- `convertValue` and `parseTime`, which turn the text of an argument into a value of a
  struct field's type;
- `createJSONTag`, `NewTag`, `StructTag.Lookup` and `getCodec`, which read the `rsql` and
  `json` struct tags into a table of fields.

The modules follow the program:

- `Lex` is the lexer cursor, as a class whose fields the methods update.
- `FilterLexer` holds the lexer states. Each state is a function (what it emits, where the
  cursor ends and which state follows) and also a method that drives the cursor as the Go
  code does, proved to agree with the function.
- `FilterParser` and `FlatParser` hold the parser loops as methods, proved against
  functions over the token stream.
- The `…Facts` modules state what the streams and trees look like.
- `Ast` holds the nodes and their renderings.
- `Filter` holds `parseFilter` over a `Params` object.
- `Convert`, `GoStrconv` and `GoStrings` hold the value conversion and the parts of Go's
  `strconv` and `strings` packages it uses.
- `Reflect` holds the struct tags.

A lexer that loops forever is modelled by a token stream without a final EOF token. A
parser given such a stream has the outcome `Diverges`; a Go panic has the outcome `Panics`
(for the renderings, `None`).

## Model

| member | source | states |
|---|---|---|
| FilterLexer.LexComparison | filter_parser.go:86-93 | the cursor moves, and the tokens are emitted, exactly as StepComparison says |
| FilterLexer.LexName | filter_parser.go:95-102 | the cursor moves, and the tokens are emitted, exactly as StepName says |
| FilterLexerFacts.NameToken | filter_parser.go:95-102 | lexName stops exactly at the end of the input; otherwise its token is the longest run without `=`, `<`, `>`, `!` |
| FilterLexer.LexOperator | filter_parser.go:104-123 | the cursor moves, and the tokens are emitted, exactly as StepOperator says |
| FilterLexerFacts.OperatorToken | filter_parser.go:104-123 | an operator that starts with `=` runs through the next `=`, and the lexer loops forever without one; any other operator is at most one of `><!` then at most one `=` |
| FilterLexerFacts.EqualsOperator | filter_parser.go:105-114 | the `=…=` branch: it loops forever exactly when no `=` follows; otherwise the token ends at the first `=` that follows |
| FilterLexerFacts.OtherOperator | filter_parser.go:116-122 | without a leading `=`, the operator is the text the two `Accept` calls take: at most two characters, of the stated shape |
| FilterLexer.LexValues | filter_parser.go:127-152 | the cursor moves, and the tokens are emitted, exactly as StepValues says (a list after `(`, or else a single value) |
| FilterLexer.LexListValues | filter_parser.go:128-145 | the list branch emits ValuesStart, the list's values and ValuesEnd as StepList says |
| FilterLexer.LexValueList | filter_parser.go:131-139 | the list loop emits the tokens ScanList gives, ends after the `)`, and reports the endless round |
| FilterLexer.LexListRound | filter_parser.go:131-139 | one round of the list loop: a value, then `,` (continue), `)` (closed), or the round that repeats forever |
| FilterLexer.LexSingleValue | filter_parser.go:147-151 | the single-value branch emits ValuesStart, one value and ValuesEnd |
| FilterLexer.ScanList | filter_parser.go:131-139 | the list loop from just after `(`: a closed list has at least one value and ends inside the input |
| FilterLexerFacts.ScanListValues | filter_parser.go:131-139 | the list loop emits value tokens only |
| FilterLexerFacts.BareListValues | filter_parser.go:128-144 | a `(` list of bare values separated by `,` gives one value token per element, in order, and ends just after the `)` |
| FilterLexerFacts.ListAtScan | filter_parser.go:131-139 | values that each scan up to a `,` (the last up to a `)`) are what the list loop emits, and it ends after the `)` |
| FilterLexer.LexValue | filter_parser.go:155-162 | a quoted value, or else the bare run, as ScanValue says; an endless quoted scan is reported, not run |
| FilterLexerFacts.BareValueText | filter_parser.go:159-161 | a bare value is the longest run without reserved characters and spaces, and may be empty |
| FilterLexer.LexQuotedValue | filter_parser.go:165-185 | true exactly when the quote is next; then the value is ScanQuoted's text and the cursor is after the closing quote |
| FilterLexer.LexQuotedText | filter_parser.go:168-181 | the escape loop ends where QuoteClose says, emits the raw text before the closing quote, and loops forever when QuoteClose finds none |
| FilterLexer.QuoteClose | filter_parser.go:168-181 | the closing quote found by jumping from quote to quote is inside the input |
| FilterLexerFacts.QuoteCloseIsFirstUnescaped | filter_parser.go:168-181 | the closing quote is the first quote not after a backslash; without one the value runs to the end, unless the input ends in a backslash, where the lexer loops forever |
| FilterLexerFacts.QuotedValueText | filter_parser.go:165-185 | a quoted value is the raw text from its opening quote up to the first later quote of the same kind that no backslash precedes (or to the end of the input), escaping backslashes kept; the lexer loops forever exactly when the input ends in a backslash and every later such quote is escaped |
| FilterLexer.EatSpaces | filter_parser.go:187-190 | the cursor moves past the spaces and drops them; no token is emitted |
| FilterLexer.LexLogic | filter_parser.go:192-213 | the cursor moves, and the tokens are emitted, exactly as StepLogic says |
| FilterLexer.LexConnective | filter_parser.go:201-212 | after the spaces, the connective as ConnectiveAt says |
| FilterLexer.LexConnectiveWord | filter_parser.go:202-212 | `and`/`;` give And and `,`/`or` give Or, each followed by skipped spaces and a new comparison; anything else stops the lexer |
| FilterLexer.ConsumeEither | filter_parser.go:202 | `Consume(a) \|\| Consume(b)`: true exactly when the input continues with `a` or `b`, and the cursor moves past the word that matched |
| FilterLexerFacts.LogicTokens | filter_parser.go:192-213 | lexLogic emits one connective (in the grouped dialect, possibly after one group end), or stops; it never loops |
| FilterLexer.RunState | filter_parser.go:86-213 | each state's method does what its step function says |
| FilterLexer.LexAll | filter_parser.go:28 | running the state machine from the start state gives exactly the stream Tokens describes, closed by EOF when a state returns nil |
| FilterLexer.Step | filter_parser.go:86-213 | every step reads input or moves to a state of lower rank, so the state machine cannot loop without reading |
| FilterLexerFacts.TokensShape | filter_parser.go:86-213 | every stream follows the grammar of comparisons joined by connectives inside group tokens, and reaches its end exactly when it ends with EOF |
| FilterLexerFacts.LexFromShape | filter_parser.go:86-213 | from any state and position, the stream follows the grammar from that state's phase |
| FilterLexerFacts.EndIffHalts | filter_parser.go:78-79 | within the grammar, the end is reached exactly by a stream that ends with EOF |
| FilterLexerFacts.FlatNoGroups | fp/fp.go:168-185 | the flat lexer never emits a group token |
| FilterLexerFacts.DialectsAgree | fp/fp.go:71-185 | without parentheses in the input, the flat lexer and the grouped lexer give the same stream |
| FilterLexerFacts.ListComparisonLexes | filter_parser.go:86-152 | `sel=w=(v1,…,vn)` with bare values lexes, in either dialect, to the name, the operator, ValuesStart, one value token per element in order, ValuesEnd and EOF |
| FilterParser.AddNode | filter_parser.go:55-61 | `node.AddNode`: the innermost open group gets `n` as its last child, and nothing else changes |
| FilterParser.Absorb | filter_parser.go:44-80 | one turn of the loop keeps at least the root open |
| FilterParser.ParseFrom | filter_parser.go:39-81 | a root the loop returns is a group, and the loop runs past the last token only when no token is an EOF or an error |
| FilterParser.ParseTokens | filter_parser.go:27-84 | from the root alone: a returned root is a group, and a stream that ends with EOF is never run past |
| FilterParser.ParseFilter | filter_parser.go:27-84 | the loop over the lexer's tokens ends with the outcome ParseTokens gives for the grouped stream |
| FilterParserFacts.AbsorbFits | filter_parser.go:44-80 | a token the grammar allows keeps every node built well formed and keeps a comparison under way; a `)` with only the root open panics |
| FilterParserFacts.CloseWellFormed | filter_parser.go:83 | the root returned, the open groups closed, is well formed |
| FilterParserFacts.ParseFromFacts | filter_parser.go:39-81 | over a grammatical stream, the loop panics exactly when a `)` closes the root, never returns exactly when the stream has no EOF, and otherwise returns a well-formed root |
| FilterParserFacts.ParseFilterOutcome | filter_parser.go:27-84 | ParseFilter panics exactly on a `)` that closes the root, never returns exactly when the lexer loops, and any root it returns renders without panicking |
| FilterParserFacts.LevelParse | filter_parser.go:39-81 | over a stream that keeps to the grammar, the loop appends one level of the tree Level describes to the innermost open group and goes on where the level stops; Level turns each comparison into a node with the name, the table's operator and the values in order, each connective into a logical node, and each `(` into a group holding the level that follows it |
| FilterParserFacts.ParseTokensTree | filter_parser.go:27-84 | a stream that keeps to the grammar and ends is parsed into exactly Level's tree, except that a `)` where Level stops, which would close the root, panics |
| FilterParserFacts.LevelMatches | filter_parser.go:63-75 | a level stops exactly at the `)` that matches the group it is inside of, or at the EOF when that group is never closed |
| FilterParserFacts.CompIrrelevant | filter_parser.go:44-51 | between two items of the stream the comparison under way does not change the outcome: the next comparison starts afresh with its name |
| FlatParser.Parse | fp/fp.go:28-69 | the loop over the flat lexer's tokens ends with the outcome FlatTokens gives |
| FlatParser.FlatFrom | fp/fp.go:37-66 | a root the loop returns is a group, and the loop runs past the last token only when no token is an EOF or an error |
| FlatParser.FlatTokens | fp/fp.go:28-69 | from an empty root: a returned root is a group, and a stream that ends with EOF is never run past |
| FlatParserFacts.ParseOutcome | fp/fp.go:28-69 | fp.Parse never panics, never returns exactly when the lexer loops, and returns one group of comparison and logical nodes that renders; when the lexer stops, the root holds exactly the stream's comparisons and connectives in order (Nodes) |
| FlatParserFacts.FlatFromNodes | fp/fp.go:37-66 | over a stream that keeps to the grammar, the loop appends exactly the stream's nodes, in order, to the root and returns it at the EOF; a comparison node holds the name, the table's operator and the values in order |
| FlatParserFacts.FlatTree | fp/fp.go:28-69 | for a stream that keeps to the grammar and ends, the root holds exactly the stream's nodes |
| FlatParserFacts.ListComparisonParses | filter_parser.go:27-84 | `sel=w=(v1,…,vn)` with bare values gives, from ParseFilter and from fp.Parse alike, a root holding one comparison of `sel`, the table's operator for `=w=`, and the arguments `v1,…,vn` in order |
| FlatParserFacts.LevelNodes | filter_parser.go:39-81 | the nodes of one level of the grouped tree, groups dissolved, are exactly the stream's nodes up to where the level stops |
| FlatParserFacts.GroupHoldsToMatch | filter_parser.go:63-75 | the group a `(` opens is the level's first node and holds the level that follows the `(`; its nodes, groups dissolved, are exactly the stream's nodes up to the `)` that matches it, or up to the EOF |
| FlatParserFacts.ParseFilterTree | filter_parser.go:27-84 | when the lexer stops, ParseFilter panics exactly when the level stops at a `)`, and otherwise returns Level's tree, whose nodes with groups dissolved are the stream's nodes in order |
| FlatParserFacts.GroupedFlattens | fp/fp.go:28-69 | for any token stream that ParseFilter's loop parses, fp.Parse's loop over the same stream returns that tree with its groups dissolved, in order (fp.Parse itself never meets group tokens: its lexer emits none) |
| FlatParserFacts.ParsersAgree | fp/fp.go:28-69 | without parentheses in the input, ParseFilter and fp.Parse come to the same outcome when both read the same operator table |
| Ast.NewNode | fp/types.go:40-45 | a node of the given kind with no children, no comparison and the zero connective |
| Ast.NewCompNode | fp/types.go:47-53 | a comparison node with no children holding the given comparison |
| Ast.NewLogicNode | fp/types.go:55-61 | a logical node with no children holding the given connective |
| Ast.NewComparison | fp/types.go:79-84 | a comparison with the given selector, the zero operator and no arguments |
| Ast.Group | fp/types.go:40-45 | a group node is a new group node with the given children |
| Ast.LogicString | fp/types.go:93-102 | And renders as `;` and Or as `,`; any other value panics |
| Ast.ArgsString | fp/types.go:70-75 | the argument part exists exactly when there is an argument (indexing `Arguments[0]` panics otherwise) |
| Ast.CompString | fp/types.go:69-77 | a comparison renders exactly when it has an argument |
| Ast.Render | fp/types.go:23-38 | a comparison node renders exactly when it holds a comparison with an argument, a logical node exactly when it holds And or Or (as `;` or `,`), and a node of any other kind as `unknown_node_type` |
| Ast.RenderAll | fp/types.go:25-30 | a group renders exactly when each of its children does, and an empty group as `""` |
| Ast.RenderAllAppend | fp/types.go:25-30 | a group of `a + b` renders as the children of `a`, then those of `b` |
| Ast.WellFormedRenders | fp/types.go:23-38 | a well-formed node renders without panicking |
| Ast.NewNodesRender | fp/types.go:23-61 | an empty group renders as `""`, a comparison node as its comparison and a logical node as its connective; each is well formed exactly when it renders; a nil comparison panics |
| Ast.FlattenAppend | fp/types.go:16-21 | dissolving groups distributes over concatenation |
| Filter.Params.constructor | params.go:4-11 | the zero value of Params: no selects, no filter, zero limit and offset, empty cursor |
| Filter.FilterRequest | filter.go:4-7 | there is a filter expression exactly when the tag is in the values with a non-empty value, and it is that value |
| Filter.ParseFilterInto | filter.go:3-12 | without a filter expression nothing changes; otherwise the filter becomes ParseFilter's tree, and it stays as it was when ParseFilter panics or never returns |
| Filter.StoredFilterRenders | filter.go:10 | a stored filter is well formed and renders; the call panics exactly when a `)` closes the root |
| Convert.FirstTime | convert.go:132-140 | the first layout, in order, that parses the text gives the time; when none does it is the `failed to parse date/time` error |
| Convert.ParseTime | convert.go:132-140 | the loop returns FirstTime's result |
| Convert.ConvertValue | convert.go:37-130 | the target is written exactly when the value is neither a nil pointer nor a Scanner's, a nil pointer needs a pointer target, a string value is the trimmed text, and an unsupported type is the one the pointers finally point to |
| Convert.ConvertTrimmed | convert.go:39-128 | the same, by the target's type, for text that is already trimmed |
| Convert.ConvertTrims | convert.go:38 | the text is trimmed first, so surrounding white space never matters |
| Convert.TimeAndBytesTargets | convert.go:41-53 | a time.Time target accepts exactly RFC 3339 text and a `[]byte` target exactly standard base64, each with the decoded value |
| Convert.StringTarget | convert.go:57-58 | a string target gets exactly the trimmed text |
| Convert.BoolTarget | convert.go:60-65 | a bool target accepts exactly the spellings `strconv.ParseBool` accepts; anything else is a syntax error |
| Convert.IntTarget | convert.go:67-75 | a signed target accepts exactly a signed decimal that fits its width; an int64 value that does not fit is `int overflow`, the rest a strconv error |
| Convert.UintTarget | convert.go:77-85 | an unsigned target accepts exactly a decimal that fits its width; a uint64 value that does not fit is `unsigned int overflow`, the rest a strconv error |
| Convert.IntRoundTrip | convert.go:67-75 | every value that fits the width converts back from its decimal text, with spaces around it or not |
| Convert.UintRoundTrip | convert.go:77-85 | every unsigned value that fits the width converts back from its decimal text, with spaces around it or not |
| Convert.PtrTarget | convert.go:97-102 | exactly `null` gives the nil pointer; any other text converts for the pointed-to type |
| Convert.ScannerTargets | convert.go:104-125 | a `NullTime` Scanner scans the time parseTime finds and, as written, returns the scanner whatever the scan says; any other Scanner scans the text and returns the scan's error; the target is never written; a type that is no Scanner is unsupported |
| Convert.NullTimeScanErrorDropped | convert.go:110-118 | as written, a `NullTime` scan that fails still returns the scanner and no error |
| Convert.ScanValueCorrected | convert.go:104-125 | the corrected branch returns the scan's error, and agrees with the code as written whenever the scan succeeds or the type is no `NullTime` |
| GoStrconv.ParseIntSpec | convert.go:68 | `ParseInt(s, 10, 64)` accepts exactly a signed decimal in the int64 range, with its value; a decimal outside is a range error |
| GoStrconv.ParseUintSpec | convert.go:78 | `ParseUint(s, 10, 64)` accepts exactly a decimal up to 2^64 - 1, with its value; a longer one is a range error |
| GoStrconv.ParseBoolSpec | convert.go:61 | `ParseBool` accepts exactly the six spellings of true and the six of false |
| GoStrconv.ParseIntFormat | convert.go:68 | `ParseInt` inverts the decimal rendering of every int64 |
| GoStrconv.ParseUintFormat | convert.go:78 | `ParseUint` inverts the decimal rendering of every uint64 |
| GoStrings.TrimSpace | convert.go:38 | the result is the text with white space only cut off before and after it, and it neither starts nor ends with white space |
| GoStrings.TrimSpaceIdempotent | convert.go:38 | trimming twice is trimming once |
| GoStrings.Split | reflect.go:32 | the pieces hold no separator, and joined with it they give the text back |
| GoStrings.SplitJoin | reflect.go:59 | splitting the join of separator-free pieces gives the pieces back |
| GoStrings.SplitN2 | reflect.go:64 | one piece without the separator, otherwise the text before and after the first separator |
| Reflect.CreateJsonTag | reflect.go:28-47 | the json name (the part before a comma, or the Go name when that part is empty or the tag is `-`) and the options filter, sort and allow-all |
| Reflect.NewTag | reflect.go:49-71 | an `rsql` tag gives its first comma part as name and the remaining parts as options; a `json` tag alone is read as createJSONTag reads it |
| Reflect.StructTag.constructor | reflect.go:29-30 | a new tag has no name and no options |
| Reflect.StructTag.Lookup | reflect.go:73-76 | the option's value and true exactly when the tag has the option; `""` and false otherwise |
| Reflect.Struct.constructor | reflect.go:80 | a new struct has no fields and no names |
| Reflect.GetCodec | reflect.go:78-103 | one field per declared field, in order, each with the tag NewTag makes and the tag's name (the Go name when the tag's name is empty); the names table is filled from first field to last |
| Reflect.OptionKeys | reflect.go:63-69 | the options hold exactly the keys of the comma parts |
| Reflect.OptionsLastWins | reflect.go:63-69 | a key's value comes from the last part with that key: its text after the first `=`, or `""` |
| Reflect.OptionParts | reflect.go:64-68 | an option part is its key, `=` and its value; without `=` it is all key with value `""` |
| Reflect.TagNameRules | reflect.go:28-61 | the tag name by case: the `rsql` tag's first part, the `json` tag's first part or the Go name, or `""` with neither tag (the field then goes by its Go name) |
| Reflect.TagOptionsRules | reflect.go:43-45 | a `json` tag allows filter, sort and every operator; no tag gives no options; an `rsql` tag gives the options of its parts |
| Reflect.NameIndexKeys | reflect.go:98-101 | the names table holds exactly the fields' names |
| Reflect.NameIndexLastWins | reflect.go:99-101 | each name leads to the last field that bears it |

The lexer cursor's package is not part of this model. `Lex.Lexer` and its methods are the
cursor's meaning as the lexers' calls use it. One character is one position, and the
`Emit` of the empty text at the end of the input gives the EOF token that `NextToken`
delivers when a state returns nil.

## Left out

- The `lex` package is not part of this model; the meaning of `Next`, `Peek`, `Accept`, `AcceptRun`, `AcceptButRun`, `Dec`, `Ignore`, `Emit`, `Consume` and `NextToken` is inferred from how the lexers call them.
- Multi-byte UTF-8 runes: each character is one position of the input, so rune widths are not modelled.
- The goroutine and channel between the lexer and the parser: the lexer is run to completion first and the parser reads the stream it delivers.
- The operator table `Operators` is not part of this model; it is a parameter, and a missing key gives `""` as a Go map does.
- FlatParserFacts.ParsersAgree: ParseFilter reads the root package's `Operators` (filter_parser.go:48) and fp.Parse reads fp's own `operators` (fp/fp.go:48); the agreement is proved for one table given to both, so it holds for the program only where the two tables agree.
- The root package's `Node` type with `AddNode` and `AddArgument` is not part of this model; both are modelled as appends to the children and to the arguments, over the `fp` types.
- Pointer aliasing between nodes: trees are values, and ParseFilter's `node`/`nodes` pointers are a stack of the open groups' children.
- The `node == nil` branch of the group start (filter_parser.go:64-65) is dead code (`node` is never nil) and is not modelled.
- Logging: `pretty.Println` in fp/fp.go:41 and `log.Println` in reflect.go:83 write output only.
- `isValueRune` (fp/fp.go:187-189) is never called.
- Floating-point targets (convert.go:87-95) are not modelled.
- `time.Parse`, base64 decoding and `Scanner.Scan` are calls into other packages: they are the parameters of `Env`, and a time is an opaque `Instant`.
- Convert.ConvertValue: the writes into the reflected value are not modelled as state; the result says whether the target is written (`setsTarget`).
- Convert.PtrTarget: a nil pointer target, whose `Elem()` the source would use and fail on, is not modelled; the pointer is taken to point to a value.
- Reflection is replaced by `FieldDecl` (the Go name and the `rsql` and `json` tags); `StructField.Type` is carried as a type tag, and the field values are copies, not pointers.
- `allowAll` (the list of every operator) is a parameter.
- The sort entries of `Params.Sorts` are not modelled; the `RSQL` value is reduced to its `FilterTag`, a parameter.
- A lexer or parser that never returns is modelled by the outcome `Diverges` (a stream without EOF), not by running forever.
- rsql_test.go is used as a description of the intended behaviour only.

## Findings

| source | as written | input that shows it | evidently intended | confidence | as-written member | corrected member |
|---|---|---|---|---|---|---|
| convert.go:110-118 | `val, err := parseTime(value)` declares a new `err` inside the `NullTime` block, so the error of `scanner.Scan(val)` is stored in it and the `err` checked at line 119 is still nil | a Scanner type named `NullTime`, a value that parses as a time, and a `Scan` that fails: the code returns the scanner and no error | the scan's error is returned, as in the other Scanner branch | not executed | Convert.NullTimeScanErrorDropped | Convert.ScanValueCorrected |

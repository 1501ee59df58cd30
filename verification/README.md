# A model of gurkle

gurkle reads GraphQL queries, compiles them against a schema into Rust types, and talks to
GraphQL servers, over WebSockets among others. This project models its three stateful parts
in Dafny and proves what each promises about whole inputs and whole runs.

**The query reader and printer** (`crates/parser`). `Lexer` is the tokenizer as a function of
the text and of the nesting budget; `TokenStreams` is the token stream with its one-token cache,
positions and checkpoints, proved to deliver the same tokens. `IgnoredText` and `TokenTexts` say
by characters alone what is skipped and what is a token, and prove that the tokenizer finds
exactly that; `Positions` says where each token is. `Numerals`, `QuotedStrings` and
`BlockStrings` cover the literals; `StringTexts` and `BlockTexts` say what strings stand for as
they are written. `Ast` and `Grammar` are the syntax trees and the parsers (ordered choice that
commits once input is consumed). `Forms` is the grammar itself, as the forms a document can be
written in, and `FormsParse` and `ParsedForms` prove that the parsers accept exactly these forms
and give what they mean. `Layout` is what is printed, `PrintedTexts` its text written out for
every syntax tree, and `Formatters` the indenting printer that prints it. `WellFormed`,
`LayoutScans`, `LayoutParses`, `BlockStringRoundTrip` and `RoundTrip` prove, from characters to
tokens to trees, that what is printed is read back.

**The query compiler** (`crates/codegen`). `TypeQualifiers` turns list and non-null qualifiers
into Rust types; `InputCycles` decides which input fields are boxed (`Pigeonholes` holds the
counting argument for its search). `Schemas` holds the schema tables; `SchemaTables`,
`SchemaBuilders`, `SdlBuilder`, `Introspection` and `JsonBuilder` fill them from definitions and
from introspection data, `SchemaValidity` and `SameSchema` prove that the tables are sound and
that both ways agree, and `SchemaReadBack` that they hold what the definitions or the data say,
and when there are any. `Arenas` and `Resolver` put selections into one flat table with parent
links, `Resolution` does so for whole documents; `ArenaShape`, `ReadBack`, `ResolvedDocuments`,
`ResolvedVariables` and `Validation` prove what the table then satisfies, `AcceptedQueries`
which documents get that far, and `RefusedQueries` which error the others end in;
`TypenameSearches` says when one of its checks does not end. `Walks`, `UsedTypes`, `Expansion`
and `ExpandedSelections` are the walks over the table that name, collect and expand types.
`ResponseKeys` compares the fields of structs with the selections as they were written: their
response keys, order and types. `VariantContents` compares what the struct of a variant contains
with what was selected on the variant; `StructCoverage` and `GeneratedNames` prove that every
struct refers only to structs of the same expansion and to types and fragments that the
operation uses; `StructRepeats` and `StructNames` say when structs have different names, and
`ResponseSizes` and `HeldReferences` when they have finite size. `ReadyQueries` and
`CompiledQueries` put all of this together, from a query text and a schema that a builder
returns to what is generated; `LossyQueries` and `MutualFragments` follow whole documents for
which it goes wrong.

**The WebSocket client** (`crates/client/src/ws.rs`). `Multiplexer` is a transition system with
one step per lock section or task turn, with the end of a sender task and the installation of a
new connection among them; `Progress` says, message by message, what streams hold after a run,
and which steps are possible then; `ClientMessages` proves which messages it puts into the
channels of its connections. `WebSocket` is the same state as an object whose methods are proved
to take these steps. `Reconnect` models the one-byte tags by which a new connection knows which
subscriptions to start again, and `StartCounts` runs both together and counts the Starts that
each connection gets for each subscription.

What the compiler modules require of a schema, `Schema.Valid`, is what
`SameSchema.BuiltSchemasAreValid` proves of every schema a builder returns. What the walks and
the expansion require of a resolved query is proved of every one in `ReadyQueries`, for a
schema whose fields have output types, as GraphQL demands.

A panic of the original is an ordinary result here: `None`, `false`, or an error. A search that
the original does not bound takes an amount of fuel and answers `None` when it runs out. For
both such searches there is a condition, on the schema or the query alone, that holds exactly
when no amount of fuel is enough (`InputCycles.AnswersExactlyWhen`,
`TypenameSearches.SearchEndsExactlyWhen`).

## Where the code surprises

The model follows the code in each of these.

- The escape `\b` is read as U+0010 (`QuotedStrings.BackspaceIsMisread`), and control characters
  from U+000B on are printed with their code in decimal but read in hexadecimal, so they do not
  survive (`QuotedStrings.QuotedRoundTrip`, `QuotedStrings.VerticalTabIsCorrupted`).
- The printer drops the variables of unnamed operations; other documents survive
  (`RoundTrip.ReadBackUnlessVariablesAreLost`).
- The tokenizer lets a float through whose exponent is a sign only, which then cannot be read
  (`Lexer.UnreadableFloats`, `Lexer.ExponentOfSignOnly`), and refuses one with 0 or 9 right after
  its `e`, as in `1e9` (`TokenTexts.FloatIsRefusedExactlyWhen`).
- After `\u` a plus sign and three digits are accepted (`StringTexts.UnquotedExactlyWhen`).
- A fragment may be called `on`, though no spread can name it (`Forms`).
- Inside a comment, a carriage return and the line feed after it count as two lines
  (`Lexer.CarriageReturnCountsInComments`); a tab advances the column by eight.
- Ids of server messages are accepted with a leading plus sign, leading zeros and lower-case
  digits (`Multiplexer.LenientIds`); a message under such an id is routed to the subscription
  and then discarded there (`Multiplexer.LenientIdsAreDiscarded`).
- The search that decides boxing does not always end. It need not for an input type that is on
  no cycle but leads to one (`InputCycles.SearchCanRunForever`), and for one that is on a cycle
  the order of its fields can decide (`InputCycles.OrderOfFieldsDecides`).
- Nor does the search for `__typename`, as when two fragments on a union spread each other, even
  if `__typename` is selected after the spread (`TypenameSearches.MutualFragmentsNeverEnd`).
- For every inline fragment on a variant, it is the selections under the first selection on that
  variant that are expanded. Of two inline fragments the first one's fields come twice and the
  second one's never (`LossyQueries.TwoInlinesLoseAField`); and when a spread comes first,
  nothing under any inline fragment is expanded (`LossyQueries.SpreadFirstLosesAField`). When
  there is a single spread under the first of them, the struct is rendered as an alias, and
  other spreads on the variant are left out (`VariantContents.AllRenderedExactlyWhen`).
- For the same reason structs can be generated more than once under one name, which also happens
  to two fields side by side with the same response name (`StructNames.NamesDifferExactlyWhen`,
  `StructNames.SameResponseNameClashes`).
- A spread is boxed only if its fragment is spread in its own tree, so two fragments that spread
  each other have structs that hold each other and no finite size
  (`MutualFragments.MutualFragmentsHoldThemselves`).
- A subscription sends its Stop to the connection it was subscribed on. A connection installed
  later never gets it, and once the sender task of the first has ended it is lost
  (`ClientMessages.StopReachesLiveConnectionExactlyWhen`, `ClientMessages.StopCanBeLost`).
  Subscribing while the sender task of the current connection has ended panics.
- If several connections in a row are replaced before their resubscribe pass, the first pass that
  runs still starts the older subscriptions, unless it is a multiple of 256 connections later
  (`Reconnect.SkippedAfter256`).
- A connection that is installed while `subscribe` is between its lock sections, and makes its
  pass with the new handle there, starts the subscription twice (`StartCounts.StartedTwice`).
- A pass writes ids in decimal where `subscribe` writes them in hexadecimal. What the server
  answers comes back to the subscription only if its id is below ten; to a restarted
  subscription 10 it comes as data of subscription 16
  (`StartCounts.AnswersToPassArriveExactlyWhen`, `StartCounts.TenIsTakenForSixteen`).
- The schema builders insert names in different orders, so they disagree on a name defined as
  two kinds (`SchemaValidity.SameNamesIffKindsApart`), as on one that is a scalar and an enum
  (`SameSchema.BuildersCanDiffer`).

## Model

| member | source | states |
|---|---|---|
| Lexer.ScanSplitsTheText | crates/parser/src/tokenizer.rs:159-335 | a successful tokenization splits the text into tokens and gaps, in order and without overlap, each token non-empty, each gap only spaces, tabs, line ends, commas, byte order marks and comments |
| TokenTexts.ScannedExactlyWhen | crates/parser/src/tokenizer.rs:159-335 | the tokens of a text are those it consists of, told by characters alone: ignored text and tokens in turn, each complete before what follows, no bracket opened beyond the limit; and every text that consists of none is refused |
| TokenTexts.TakenExactlyWhen | crates/parser/src/tokenizer.rs:159-298 | the token in front of a text has a kind and a length exactly when these characters are a punctuator, name, integer, float, string or block string and the next one does not go on with it |
| TokenTexts.ErrorsTellWhatFailed | crates/parser/src/tokenizer.rs:159-298 | where no token can be taken, which error it is, by the first character and, for a number, by whether it has a point or an exponent |
| TokenTexts.PositionAfterToken | crates/parser/src/tokenizer.rs:337-350 | a token moves the line by its line feeds, and the column by its length or to what follows the last of them |
| TokenTexts.FloatIsRefusedExactlyWhen | crates/parser/src/tokenizer.rs:110-127 | a FloatValue of section 2.9.2 of the GraphQL specification is no float token exactly when 0 or 9 is right after its `e` |
| TokenTexts.IntTokenIsRead | crates/parser/src/common.rs:93-99 | an integer token is read as a number exactly when that is an `i64` and the token is its text, or `-0` for 0 |
| IgnoredText.IgnoredTextChangesNothing | crates/parser/src/tokenizer.rs:300-335 | spaces, tabs, line feeds, carriage returns, commas, byte order marks and comments closed by a line end, in any order in front of a text, change none of its tokens, nor its error |
| IgnoredText.NothingFollows | crates/parser/src/tokenizer.rs:320-331 | with nothing behind them, or a comment that the text leaves open, there is no token |
| IgnoredText.PositionAfterIgnoredText | crates/parser/src/tokenizer.rs:300-335 | the line goes up by their line feeds and comments; the column counts from the last of these, eight for a tab, one for a space or comma, none for the others |
| Lexer.IntTokensAreIntValues | crates/parser/src/tokenizer.rs:93-100 | in any text, the integer tokens are exactly the tokens that are IntValue texts of section 2.9.1 of the GraphQL specification (June 2018) |
| Lexer.UnreadableFloats | crates/parser/src/tokenizer.rs:102-127 | a float token can be read as a float exactly when it does not end in the sign of an empty exponent |
| Lexer.ExponentOfSignOnly | crates/parser/src/tokenizer.rs:110-120 | `1e+` is such a token |
| Lexer.CarriageReturnCountsInComments | crates/parser/src/tokenizer.rs:300-335 | a carriage return that ends a comment and the line feed after it are two lines, elsewhere they are one |
| Lexer.BudgetErrorIffTooDeep | crates/parser/src/tokenizer.rs:168-190 | the recursion limit error is raised exactly when some prefix of the text nests deeper than the limit; otherwise the limit has no influence on the tokens |
| TokenStreams.StraightPassIsScan | crates/parser/src/tokenizer.rs:53-68 | after any number of tokens, what is left is the rest of one straight pass, and the remaining budget is the limit less the brackets left open |
| TokenStreams.NextIsScan | crates/parser/src/tokenizer.rs:159-190 | one step of the stream is one token of the pass over the text |
| Positions.FirstSpot | crates/parser/src/tokenizer.rs:138-151 | the first token is behind the ignored text in front, at the line and column this leads to from line 1 and column 1 |
| Positions.NextSpot | crates/parser/src/tokenizer.rs:53-68 | and each next token behind the characters of the one before and the ignored text that follows it, at the line and column these lead to |
| TokenStreams.TokenStream.Uncons | crates/parser/src/tokenizer.rs:53-68 | with or without the cached token, the stream delivers the token, offset and position that come next in the straight pass, or its error |
| TokenStreams.TokenStream.Reset | crates/parser/src/tokenizer.rs:79-88 | stepping back to just before the last token read keeps the cache right, so that the same tokens follow |
| TokenStreams.TokenStream.WithRecursionLimit | crates/parser/src/tokenizer.rs:138-151 | the stream starts in front of the first token |
| TokenStreams.TokenStream.TakeToken | crates/parser/src/tokenizer.rs:159-298 | token kind, length, budget and position as the pass has them; nothing moves on an error |
| TokenStreams.TokenStream.TakeNumber | crates/parser/src/tokenizer.rs:216-256 | the loop with its remembered point and exponent finds the numeral and its kind |
| TokenStreams.TokenStream.TakeBlockString | crates/parser/src/tokenizer.rs:257-267 | the search for closing triple quotes ends at the first that are not escaped |
| TokenStreams.TokenStream.TakeString | crates/parser/src/tokenizer.rs:268-291 | a quoted string ends at the first quote that is not escaped, and may not span lines |
| TokenStreams.TokenStream.SkipWhitespace | crates/parser/src/tokenizer.rs:300-335 | skips what the pass skips and no more, with its line and column, which `IgnoredText` tells by characters |
| TokenStreams.TokenStream.UpdatePosition | crates/parser/src/tokenizer.rs:337-350 | line and column after a block string |
| Numerals.NumeralRoundTrip | crates/client/src/ws.rs:319-320 | printing a number and parsing it in the same radix are inverse within the range of the type |
| Numerals.IntTextRoundTrip | crates/parser/src/common.rs:93-99 | a printed integer is read back exactly when it is an `i64` |
| QuotedStrings.UnquoteString | crates/parser/src/common.rs:147-200 | the loop of `unquote_string` computes the value of the quoted text or its error |
| QuotedStrings.ScannedBodyEndsWell | crates/parser/src/common.rs:147-200 | no text the tokenizer cuts off makes `unquote_string` run into a backslash at the end |
| StringTexts.UnquotedExactlyWhen | crates/parser/src/common.rs:147-200 | the value of a quoted string, or its error: exactly what its characters and escapes stand for one after the other, up to the first escape that stands for nothing |
| QuotedStrings.QuotedIsOneToken | crates/parser/src/format.rs:99-113 | whatever the string, its quoted form is one token ending at its last quote, if no quote follows directly |
| QuotedStrings.QuotedRoundTrip | crates/parser/src/format.rs:99-113 | a string written in quotes is read back unchanged exactly when it has no control character from U+000B on other than carriage return and no character above U+FFFF |
| QuotedStrings.VerticalTabIsCorrupted | crates/parser/src/format.rs:110 | a vertical tab is read back as U+0011 |
| QuotedStrings.BackspaceIsMisread | crates/parser/src/common.rs:147-200 | the escape for a backspace is read as U+0010 |
| BlockStrings.UnquoteBlockString | crates/parser/src/common.rs:108-145 | the loop that pushes and truncates computes the block string value |
| BlockStringRoundTrip.BlockIsOneToken | crates/parser/src/tokenizer.rs:257-267 | whatever the string, with any runs of quotes and backslashes, its triple-quoted form is one token, whatever follows |
| BlockTexts.BlockStringIsRead | crates/parser/src/common.rs:108-145 | any block string is read as its first line trimmed, unless that is empty, and the others without the indentation that those with text share and with escaped triple quotes unescaped, but for the last one if it is blank |
| BlockTexts.LinesOf | crates/parser/src/common.rs:108-125 | lines end with a line feed, with or without a carriage return before it, or with the text |
| BlockTexts.FirstIsUnescaped | crates/parser/src/common.rs:133-138 | reading takes the backslash off the first escaped triple quotes in a line and goes on behind them |
| BlockTexts.WhiteCharacters | crates/parser/src/common.rs:112-139 | blank are the 25 characters that Unicode calls White_Space |
| BlockStringRoundTrip.BlockReadsBack | crates/parser/src/format.rs:114-128 | what the triple-quoted form of any string is read back as |
| BlockStringRoundTrip.BlockRoundTrip | crates/parser/src/format.rs:114-128 | a string with a line end survives exactly when it ends in one, has no CRLF, no line of white space only, no common indentation, and a last line with text unless the closing quotes are indented |
| Ast.CollectOrdered | crates/parser/src/common.rs:237-249 | collecting the entries of an ordered object gives the object |
| Ast.CollectIsOrdered | crates/parser/src/common.rs:237-249 | whatever entries are read, the object is ordered by name and has exactly the last entry of each name |
| Formatters.Formatter.WriteQuoted | crates/parser/src/format.rs:89-129 | writes the quoted or the triple-quoted form, by the characters of the string |
| Formatters.Formatter.WriteBlock | crates/parser/src/format.rs:114-128 | writes every line with its indentation and its triple quotes escaped |
| Formatters.Formatter.DisplayValue | crates/parser/src/query/format.rs:244-286 | appends exactly the layout of the value and leaves the indentation as it was |
| Formatters.Formatter.DisplaySelection | crates/parser/src/query/format.rs:81-128 | appends exactly the layout of the selection |
| Formatters.Formatter.DisplayDefinition | crates/parser/src/query/format.rs:31-67 | appends exactly the layout of the definition |
| Formatters.FormatDocument | crates/parser/src/query/format.rs:7-29 | the printed text is the layout of the document |
| PrintedTexts.FormattedIs | crates/parser/src/query/format.rs:7-286 | the printed text of any document, character by character: spaces, commas, indentation, line ends and empty lines between definitions, and the quoted form of every string |
| PrintedTexts.StringIs | crates/parser/src/format.rs:89-129 | which strings are printed in triple quotes, and the text of all |
| LayoutScans.ScanOfLayout | crates/parser/src/tokenizer.rs:53-68 | tokenizing a printed layout gives its tokens, or the recursion limit error if they nest too deep |
| LayoutParses.ValueParses | crates/parser/src/common.rs:237-249 | the tokens of a printed value are parsed to that value, whatever follows |
| ParsedForms.ParsedExactlyWhen | crates/parser/src/query/grammar.rs:217-226 | a text is read as a document exactly when it consists, apart from ignored text and with at most fifty brackets open at once, of the tokens of a form of the grammar that means this document |
| ParsedForms.ParsedTokensExactlyWhen | crates/parser/src/query/grammar.rs:11-226 | the parsers accept exactly the token sequences of the grammar, without regard to order of alternatives or to what is committed, and give the tree these mean; variables in default values, empty braces and parentheses, and spreads called `on` are refused |
| LayoutParses.TypeParses | crates/parser/src/common.rs:264-284 | the tokens of a printed type are parsed to that type |
| LayoutParses.VariablesParse | crates/parser/src/query/grammar.rs:111-142 | the tokens of printed variable definitions are parsed to them |
| LayoutParses.SelectionParses | crates/parser/src/query/grammar.rs:11-70 | the tokens of a printed selection are parsed to that selection |
| LayoutParses.BlockParses | crates/parser/src/query/grammar.rs:72-85 | the tokens of a printed selection set are parsed to that set |
| RoundTrip.DocumentParses | crates/parser/src/query/grammar.rs:209-226 | the tokens of a printed document are parsed to that document |
| RoundTrip.PrintedDocumentIsReadBack | crates/parser/src/query/grammar.rs:217-226 | a well-formed document printed with any indentation is read back unchanged exactly when its brackets nest at most 50 deep, and otherwise not at all |
| RoundTrip.ReadBackUnlessVariablesAreLost | crates/parser/src/query/format.rs:130-156 | any document that is well-formed but for variables of unnamed operations is read back unchanged exactly when no unnamed operation has variables and its brackets nest at most 50 deep; otherwise without these variables, or not at all |
| TypeQualifiers.QualifiersRebuildType | crates/codegen/src/schema.rs:447-477 | name and qualifiers determine the type |
| TypeQualifiers.ResolveQualifiers | crates/codegen/src/schema.rs:447-477 | the loop gives the name and the qualifiers from outer to inner |
| TypeQualifiers.DecorateType | crates/codegen/src/codegen.rs:187-223 | the loop gives the Rust type of the recursive specification of section 3.12.1; it panics exactly on a type with NonNull around NonNull |
| TypeQualifiers.PanicsExactlyWhen | crates/codegen/src/codegen.rs:187-223 | the panic is reached exactly when two qualifiers in a row say non-null |
| TypeQualifiers.RustTypeReadsBack | crates/codegen/src/codegen.rs:187-223 | otherwise the Rust type determines the GraphQL type, with its name |
| TypeQualifiers.SameValuesAccepted | crates/codegen/src/codegen.rs:187-223 | the Rust type accepts exactly the JSON values the GraphQL type accepts |
| InputCycles.AnswersAreRight | crates/codegen/src/schema.rs:403-433 | when the search answers, it says whether the input lies on an unindirected cycle |
| InputCycles.AnswersWithoutCycleAround | crates/codegen/src/schema.rs:403-433 | it answers whenever no unindirected cycle can be reached from the start without passing through it |
| InputCycles.NeverAnswersOtherwise | crates/codegen/src/schema.rs:403-433 | it never answers from a start on no cycle from which one can be reached |
| InputCycles.AnswersExactlyWhen | crates/codegen/src/schema.rs:403-433 | from any start, on a cycle or not, it answers exactly when it cannot be led into a circle: a walk that meets an input twice, where each step goes into the type of a field such that no earlier field is the target or leads to it |
| InputCycles.SearchCanRunForever | crates/codegen/src/schema.rs:403-433 | a schema of two inputs for which it does not end |
| InputCycles.OrderOfFieldsDecides | crates/codegen/src/schema.rs:403-433 | for a recursive input with two fields it never answers in one order of the fields, and answers at once in the other |
| InputCycles.StructsHaveFiniteSize | crates/codegen/src/codegen/inputs.rs:30-40 | no generated input struct holds itself by value, however indirectly, if the search answers for the inputs that are held |
| InputCycles.ValidSchemasHaveValidInputs | crates/codegen/src/schema.rs:319-321 | in a schema whose ids are in range the search never looks up a missing input |
| SchemaBuilders.SchemaBuilder.constructor | crates/codegen/src/schema.rs:233-261 | a new schema holds the built-in scalars, indexed |
| SdlBuilder.PopulateNamesMap | crates/codegen/src/schema/graphql_parser_conversion.rs:68-135 | the first pass hands out ids by kind, before any row is there |
| SchemaReadBack.SdlReadsBack | crates/codegen/src/schema/graphql_parser_conversion.rs:5-268 | in a schema built from definitions, each has its row among those of its kind, in order: an object or interface its fields, with name, type, parent and deprecation, and an object exactly the interfaces it is declared with; a union its members, an enum its values, an input its fields; and the roots are the objects named by the schema definition, or else `Query`, `Mutation` and `Subscription` |
| SchemaReadBack.JsonReadsBack | crates/codegen/src/schema/json_conversion.rs:6-364 | a schema built from introspection data holds the same of every type in the data |
| SchemaReadBack.BuildExactlyWhen | crates/codegen/src/schema/json_conversion.rs:48-364 | the builders return a schema, and do not panic, exactly when the data is complete and every type, interface and member that is named is found, with the kind it needs |
| SdlBuilder.IngestObject | crates/codegen/src/schema/graphql_parser_conversion.rs:150-177 | pushes the row of an object, with its fields and interfaces, and the rows of its fields with consecutive ids, or fails exactly when there are none; `SchemaReadBack` says what these rows hold and when |
| SdlBuilder.IngestInterface | crates/codegen/src/schema/graphql_parser_conversion.rs:205-230 | the same for an interface |
| SdlBuilder.IngestUnion | crates/codegen/src/schema/graphql_parser_conversion.rs:137-148 | the same for a union and its members |
| SdlBuilder.IngestInput | crates/codegen/src/schema/graphql_parser_conversion.rs:248-268 | the same for an input type |
| SdlBuilder.BuildSchema | crates/codegen/src/schema/graphql_parser_conversion.rs:5-66 | all passes together fill the tables computed from the definitions of each kind, and fail exactly when these cannot be computed |
| JsonBuilder.ResolveTypeRef | crates/codegen/src/schema/json_conversion.rs:332-364 | the loop over a type reference gives the id and qualifiers of the type it stands for |
| JsonBuilder.BuildNamesMap | crates/codegen/src/schema/json_conversion.rs:15-46 | the first pass over introspection data: panics exactly when a name of a union, interface, object or input is missing, and otherwise gives the index of these names in this order, that of the contents where these can be read |
| JsonBuilder.IngestObject | crates/codegen/src/schema/json_conversion.rs:201-256 | pushes the row of an object, with its fields and interfaces, and the rows of its fields, or fails exactly when there are none; `SchemaReadBack` says what these rows hold and when |
| JsonBuilder.IngestUnion | crates/codegen/src/schema/json_conversion.rs:258-280 | the same for a union |
| JsonBuilder.IngestInput | crates/codegen/src/schema/json_conversion.rs:282-303 | the same for an input type |
| JsonBuilder.Convert | crates/codegen/src/schema/json_conversion.rs:48-94 | the second pass, kind by kind |
| JsonBuilder.ConvertedIsBuilt | crates/codegen/src/schema/json_conversion.rs:48-94 | kind by kind or from the whole contents, the same tables come out |
| JsonBuilder.BuildSchema | crates/codegen/src/schema/json_conversion.rs:6-13 | both passes fill the tables of the contents of the data, and fail exactly when these cannot be read or computed |
| Introspection.TypeReadsBack | crates/codegen/src/schema/json_conversion.rs:332-364 | a type rendered as a type reference stands for that type |
| Introspection.DescribedIsRead | crates/codegen/src/schema/json_conversion.rs:96-303 | data that describes definitions is read as these definitions |
| SchemaValidity.SameNamesIffKindsApart | crates/codegen/src/schema/json_conversion.rs:15-46 | both builders index the same names with the same ids exactly when no enum shares a name with another kind and no union, interface and object share one that is not also a scalar's or an input type's |
| SchemaValidity.NamesAreInStep | crates/codegen/src/schema/graphql_parser_conversion.rs:68-135 | both indexes map every name to the id of a definition with that name, although ids are handed out before entries are pushed |
| SchemaValidity.BuiltIsValid | crates/codegen/src/schema/graphql_parser_conversion.rs:11-66 | whatever is built with such an index: every name leads to an entry of that name, and every id in every table is in range |
| SameSchema.BuildersAgree | crates/codegen/src/schema/json_conversion.rs:6-94 | from definitions and from introspection data that describes them, with any mix of kinds and built-in scalars anywhere, the builders give the same tables, ids, index and root types, or both fail; where both build, exactly when the kinds are apart |
| SameSchema.BuiltSchemasAreValid | crates/codegen/src/schema/graphql_parser_conversion.rs:5-66 | every schema either builder returns can be looked up throughout |
| SameSchema.RenderedDescribes | crates/codegen/src/introspection_response.rs:131-177 | all definitions that redefine no built-in scalar can be rendered as data that describes them |
| SameSchema.BuildersCanDiffer | crates/codegen/src/schema/graphql_parser_conversion.rs:68-135 | of a scalar and an enum of one name, the builders make two schemas that differ in which of them the name stands for |
| Resolver.Query.PushSelection | crates/codegen/src/query.rs:483-490 | the selection and its parent link go to the end of the table |
| Resolver.Query.AddToSelectionSet | crates/codegen/src/query/selection.rs:100-132 | only the child list of the parent grows, at its end |
| Resolver.Query.ResolveSelection | crates/codegen/src/query.rs:344-374 | the query grows by exactly the selections laid out for the set, each before those under it and linked to its parent; or the first error is returned |
| Resolver.Query.ResolveItems | crates/codegen/src/query.rs:230-342 | the same for the loops over objects, interfaces and unions |
| Resolver.Query.ResolveItem | crates/codegen/src/query.rs:281-339 | the same for one selection |
| Resolver.Query.AddAround | crates/codegen/src/query.rs:376-410 | a selection pushed first, and listed only after those under it were resolved, ends up in front of them |
| Resolver.GrowAroundNode | crates/codegen/src/query.rs:300-317 | pushing, resolving below and listing afterwards is laying out in one go |
| ArenaShape.LayoutIsRegion | crates/codegen/src/query.rs:230-410 | the selections of a set, however nested, fill one stretch of the table |
| ArenaShape.GrowKeepsShape | crates/codegen/src/query/selection.rs:100-132 | resolving under a fragment or operation keeps links and child lists in agreement, parents before children, and selections fitting their types |
| Resolution.CreateRoots | crates/codegen/src/query.rs:92-195 | the loop enters every fragment and operation in document order, an operation on the root type for its kind, or returns the first error; `EveryDefinitionIsEntered` says which type that is |
| AcceptedQueries.ResolvedExactlyWhen | crates/codegen/src/query.rs:53-480 | a document is resolved, up to the checks at the end, exactly when its fragments are on known types and its operations have names, kinds that the schema has a root for, variables of known types, and every selection is one that the type it is on has |
| RefusedQueries.ErrorIsTheFirst | crates/codegen/src/query.rs:53-480 | otherwise the error says what is wrong with the first definition that cannot be entered, in the order root, subscription, name; or, when all can, with the first that has a variable of an unknown type or a selection that its type does not accept, and names it |
| Resolution.ResolveVariables | crates/codegen/src/query.rs:628-642 | the loop appends the variables of an operation with their types, or panics at the first unknown type |
| Resolution.ResolveDefinition | crates/codegen/src/query.rs:197-480 | resolves one fragment or operation under the first entry of its name, on the type of that fragment or the root type for its kind |
| Resolution.Resolve | crates/codegen/src/query.rs:53-72 | the whole document, up to the checks at the end of `resolve` |
| ResolvedDocuments.EveryResolvedArenaIsShaped | crates/codegen/src/query.rs:53-72 | after every definition that is resolved, the arena is well linked |
| ResolvedDocuments.ResolvedQueriesAreShaped | crates/codegen/src/query.rs:53-72 | in every arena ever built, a selection is in a parent's child list exactly when its link names that parent, parents have smaller ids, and with unique names every selection fits the type its link denotes |
| ResolvedDocuments.ResolvedReadsAsWritten | crates/codegen/src/query.rs:53-410 | with unique fragment and operation names, the arena holds all fragments and operations in order with their names and types, an operation the query, mutation or subscription type of the schema, and under each, read back, the selection tree as written |
| ResolvedDocuments.EveryDefinitionIsEntered | crates/codegen/src/query.rs:92-195 | in every resolved document, even one that repeats names, each fragment and operation has its entry, and a query is on the query type of the schema, a mutation on its mutation type and a subscription on its subscription type |
| CompiledQueries.OperationsAreOnNamedRoots | crates/codegen/src/query.rs:92-195 | with a schema built from definitions: on the object that the schema definition names for that kind, or on `Query`, `Mutation` or `Subscription` |
| CompiledQueries.OperationsAreOnGivenRoots | crates/codegen/src/query.rs:92-195 | with introspection data: on the object that this names for that kind |
| ResolvedVariables.VariablesReadAsDeclared | crates/codegen/src/query.rs:628-670 | every operation gets back exactly the variables it declared, in order, with types and defaults |
| ResolvedVariables.VariablesInRange | crates/codegen/src/query.rs:628-642 | in every resolved document, whether or not its names are unique, variables have types of the schema |
| Validation.ValidateTypeConditions | crates/codegen/src/query/selection.rs:10-66 | the loop accepts exactly when the condition of every selection holds, as `ConditionsHoldExactlyWhen` says it |
| Validation.ResolveAndValidate | crates/codegen/src/query.rs:53-90 | all of `resolve`, in every case: the error of resolving; or what the first search for `__typename` that does not say yes gives, an error or no end; or the error of a type condition; or that arena |
| Validation.EverySelectionFits | crates/codegen/src/query/selection.rs:10-98 | after a successful `resolve`: a field belongs to the type its link denotes, leaf types have no selections, unions have no field but `__typename`, and a spread or inline fragment under a union or interface is on that type or one of its possible types (section 5.5.2.3) |
| Validation.ConditionsHoldExactlyWhen | crates/codegen/src/query/selection.rs:10-66 | the type conditions hold exactly when each inline fragment and spread is on the type it stands under or, if that is a union or an interface, on one of its possible types; under any other type it may be on anything |
| Validation.VerdictIsRight | crates/codegen/src/query/validation.rs:4-47 | when the searches for `__typename` end, the verdict is yes exactly when every fragment and every field on a union or an interface leads to one |
| Validation.ValidateTypenamePresence | crates/codegen/src/query/validation.rs:4-47 | accepts exactly when every fragment and field on a union or interface selects `__typename` |
| Validation.TypenameAnswerIsRight | crates/codegen/src/query/validation.rs:49-72 | the search says yes exactly when some chain of spreads on the same type leads to `__typename` |
| TypenameSearches.SearchEndsExactlyWhen | crates/codegen/src/query/validation.rs:49-72 | from any selections, it ends exactly when it cannot be led into a circle of fragments that spread each other with nothing before the spread leading to `__typename`; then as many nested spreads as there are fragments are enough, and the answer is whether `__typename` can be reached |
| TypenameSearches.TypenameSearchEnds | crates/codegen/src/query/validation.rs:49-72 | it ends whenever no cycle of spreads on that type can be reached, whatever the order of selections |
| TypenameSearches.MutualFragmentsNeverEnd | crates/codegen/src/query/validation.rs:4-47 | a document of two fragments that spread each other passes everything before the checks and then never gets a verdict |
| Walks.ShapedIsLinked | crates/codegen/src/query.rs:688-709 | in a resolved query the walk up and the search down end |
| Walks.ChainIsPath | crates/codegen/src/query.rs:688-709 | the walk up gives a way down from the root to the selection |
| Walks.PathIsChain | crates/codegen/src/query.rs:688-709 | there is no other way down |
| Walks.FullPathPrefix | crates/codegen/src/query.rs:688-709 | the loop, reversed and joined, names the root and then every selection on the way down, leaving out the own segment of an inline fragment or spread |
| Walks.RecursiveIffInOwnTree | crates/codegen/src/query/fragments.rs:18-24 | a fragment is recursive exactly when a spread of it has that fragment as its root |
| UsedTypes.CollectedIsCovered | crates/codegen/src/query/selection.rs:168-203 | the walk with its visited set leaves nothing out, even with fragments that spread each other |
| UsedTypes.CollectedIsNeeded | crates/codegen/src/query/selection.rs:168-203 | it takes nothing that is not needed |
| UsedTypes.InputsCollected | crates/codegen/src/schema.rs:383-401 | the walk over input types leaves nothing out, even with mutually recursive ones |
| UsedTypes.UsedIsLeastComplete | crates/codegen/src/query.rs:672-686 | what is collected is contained in whatever is complete, and is itself complete exactly when the field types of every input type that a selected field has are collected by other ways, so always when no selected field has an input type: exactly the fragments and types reachable from the operation |
| LossyQueries.SelectedInputIsNotWalked | crates/codegen/src/query/selection.rs:168-203 | a schema and a query that resolves with it for which it is not complete: the one selected field has an input type |
| ReadyQueries.ParsedIsFilled | crates/parser/src/query/grammar.rs:72-85 | no inline fragment in a parsed document is empty |
| ReadyQueries.ResolvedIsReady | crates/codegen/src/codegen/selection.rs:122-361 | every parsed document that can be resolved, with a schema whose fields have output types, can be walked and expanded |
| CompiledQueries.CollectedIsExactlyUsed | crates/codegen/src/query.rs:672-686 | for every schema a builder returns, with output types for fields, and every query text that can be resolved with it: what is collected for an operation is complete, and contained in whatever is complete |
| UsedTypes.UsedTypes.CollectSelection | crates/codegen/src/query/selection.rs:168-203 | the recursive method computes the walk and terminates |
| UsedTypes.UsedTypes.CollectInputTypes | crates/codegen/src/schema.rs:383-401 | the recursive method computes the walk over input types and terminates |
| UsedTypes.UsedTypes.CollectVariableTypes | crates/codegen/src/query.rs:569-583 | the type of a variable and what it brings in |
| UsedTypes.AllUsedTypes | crates/codegen/src/query.rs:672-686 | selections first, then the variables of the operation |
| ExpandedSelections.AddedTwice | crates/codegen/src/codegen/selection.rs:465-482 | steps of an expansion add up |
| ExpandedSelections.AddedStruct | crates/codegen/src/codegen/selection.rs:465-482 | a struct pushed and then filled is done, and the struct it was pushed for gets nothing by that |
| ExpandedSelections.ExpandedSelection.CalculateSelection | crates/codegen/src/codegen/selection.rs:122-361 | terminates; the struct gets exactly the fields, variants and aliases its selections call for, no older struct gets any, every id is in range, and the new structs are those called for, in order, each complete |
| ExpandedSelections.ExpandedSelection.ExpandVariant | crates/codegen/src/codegen/selection.rs:179-252 | one variant: with a struct for its data if some selection is on it, and without data otherwise |
| ExpandedSelections.ExpandedSelection.ExpandEach | crates/codegen/src/codegen/selection.rs:221-244 | the selections on one variant |
| ExpandedSelections.ExpandedSelection.ExpandField | crates/codegen/src/codegen/selection.rs:256-361 | one selection: its field, read from its alias or else its name, and the structs of a composite one |
| ExpandedSelections.ExpandRoot | crates/codegen/src/codegen/selection.rs:22-83 | a whole expansion: the structs of the operation or fragment in order, each with its name and exactly what belongs to it |
| VariantContents.EveryStructHasItsVariants | crates/codegen/src/codegen/selection.rs:128-254 | every struct of an expansion: made for the root or a field, it has exactly one variant per possible type in schema order, with data exactly if some selection is on that type, if its type is a union or interface and it is no alias, and none otherwise; made for a variant, it has those for the first selection once for each inline fragment, so none on an object type |
| ResponseKeys.EveryStructHasItsFields | crates/codegen/src/codegen/selection.rs:256-361 | every struct made for the root or a field has, in order, one field for each field selected, read from its alias or else its name, with the qualifiers and the deprecation of the schema and the right enum, scalar or struct; and one flattened field for each spread on its type |
| ResponseKeys.VariantsHaveTheirFields | crates/codegen/src/codegen/selection.rs:179-252 | the struct of a variant has these fields for what is under the first selection on the variant, once for each inline fragment |
| ResponseKeys.RootsReadWrittenKeys | crates/codegen/src/codegen/selection.rs:485-492 | the struct of an operation or fragment reads the response keys as they were written in the document, in their order: the alias of a selection or else its name |
| ResponseKeys.FieldsReadWrittenKeys | crates/codegen/src/codegen/selection.rs:485-492 | so does the struct of every field, however deep, that is no alias |
| ResponseKeys.StructsAreNamed | crates/codegen/src/query.rs:688-709 | every struct of a field is named by its root and, from there down, by the response keys of fields and the types of inline fragments, each in camel case; one of a variant by the place of the selections on it and its type; that of the root by the name of the operation or fragment |
| VariantContents.GetsItsOwnExactlyWhen | crates/codegen/src/codegen/selection.rs:221-231 | the struct of a variant gets, selection by selection, what each of the selections on the variant calls for, exactly when each inline fragment among them calls for what the selections under the first of them call for |
| VariantContents.OneInlineFirstGetsItsOwn | crates/codegen/src/codegen/selection.rs:179-252 | it does so when at most one of them is an inline fragment, and that comes first |
| VariantContents.NoFieldIsLostExactlyWhen | crates/codegen/src/codegen/selection.rs:221-231 | no field called for is missing exactly when every field under an inline fragment is also called for under the first selection, or stands for a spread on the variant |
| VariantContents.FirstIsRepeated | crates/codegen/src/codegen/selection.rs:221-231 | with inline fragments only, the struct has what the first calls for once for each of them |
| VariantContents.SecondInlineIsLost | crates/codegen/src/codegen/selection.rs:221-231 | of two inline fragments on a variant, the second is never expanded |
| VariantContents.InlineAfterSpreadIsLost | crates/codegen/src/query/selection.rs:216-222 | of a spread and then an inline fragment on an object type, the inline fragment is never expanded |
| LossyQueries.TwoInlinesLoseAField | crates/codegen/src/codegen/selection.rs:221-231 | a schema, and a query that resolves with it and passes all checks, in whose expansion the struct of a variant has the field under the first inline fragment twice and the one under the second not at all |
| LossyQueries.SpreadFirstLosesAField | crates/codegen/src/codegen/selection.rs:221-231 | a schema, and a query that resolves with it and passes all checks, in whose expansion the struct of a variant lacks the only field under its only inline fragment |
| VariantContents.AllRenderedExactlyWhen | crates/codegen/src/codegen/selection.rs:502-524 | all fields and variants of the struct of a variant with several selections are rendered exactly when not both some inline fragment brings in an alias and some spread is on the variant |
| StructCoverage.StructsCovered | crates/codegen/src/codegen/selection.rs:122-361 | every struct called for by selections that the walk for used types accounts for is itself made for such selections |
| GeneratedNames.EveryReferenceIsGenerated | crates/codegen/src/codegen/selection.rs:122-361 | in the expansion of an operation or of a fragment it uses, every flattened field and every alias names a fragment the operation uses, every other field an enum or scalar it uses or a struct of the same expansion, and the data of every variant is a struct of the same expansion |
| GeneratedNames.AllStructsClosed | crates/codegen/src/codegen/selection.rs:122-361 | with every struct of an expansion come all structs its own selections call for, however nested |
| StructRepeats.AllMadeOnceExactlyWhen | crates/codegen/src/codegen/selection.rs:122-361 | an expansion makes no two structs for the same place in the query exactly when, at each of its structs, no variant with data is listed twice by its type, and what is under the first selection on a variant is expanded at most once or calls for no structs |
| StructNames.NamesDifferExactlyWhen | crates/codegen/src/codegen/selection.rs:465-470 | the structs of an expansion all have different names exactly when it makes none of them twice in that way, and different places in the query have different names |
| StructNames.StepsKeepNamesApart | crates/codegen/src/query.rs:688-709 | different places have different names if what the siblings on the way to them add to names differs in a character that both have, type conditions name types in camel case, and the name of the root does not go on like the others |
| StructNames.SameResponseNameClashes | crates/codegen/src/codegen/selection.rs:299-314 | two composite fields side by side whose response names are the same in camel case get structs of the same name |
| ResponseSizes.FiniteSizeExactlyWhen | crates/codegen/src/codegen/selection.rs:139 | some struct holds itself, through any number of others and without a box or list between, exactly when fragments hold each other in a cycle |
| ResponseSizes.FragmentHoldsOthers | crates/codegen/src/query/fragments.rs:18-24 | a fragment holds another only if that is spread in its tree and not in its own |
| ResponseSizes.FiniteWithoutMutualSpreads | crates/codegen/src/codegen/selection.rs:353 | in a resolved query in which no different fragments spread each other in a cycle, all structs have finite size |
| HeldReferences.HeldIsReferredTo | crates/codegen/src/codegen/selection.rs:502-582 | what takes up space in a generated struct as it is rendered, by name: exactly the structs that it holds and the leaves among its fields |
| MutualFragments.MutualFragmentsHoldThemselves | crates/codegen/src/codegen/selection.rs:353 | a query that passes all checks, in which an operation uses two fragments whose structs have no finite size |
| CompiledQueries.GeneratedIsClosed | crates/codegen/src/codegen/selection.rs:22-83 | from a built schema and a query text: every struct generated for an operation has what its selections call for and exactly its variants, and refers to nothing that is not generated for the operation |
| Multiplexer.IdTextIsUnique | crates/client/src/ws.rs:319-320 | the text of an id is read back as that id and as no other |
| Multiplexer.LenientIdsAreDiscarded | crates/client/src/ws.rs:381-440 | a message under any other text that is read as the id is routed to the subscription and adds nothing to its stream |
| Multiplexer.StepKeepsInv | crates/client/src/ws.rs:34-65 | subscribing and giving that up, polling, dropping, either lock section of a server message, a turn of a task, the end of a sender task and a new connection keep the invariant of every subscription |
| Multiplexer.EveryRunKeepsInv | crates/client/src/ws.rs:34-65 | it holds after every run, in every interleaving |
| Multiplexer.StreamsFollowTheLog | crates/client/src/ws.rs:381-440 | after every run, over any number of reconnects, what a subscription has yielded plus what its queue will make it yield is a function of the messages processed since it was registered: its own data and errors in order, cut at the first final message routed to it or the first connection error; never anything else |
| Progress.StreamsHoldItems | crates/client/src/ws.rs:381-440 | message by message: a stream whose task has returned has yielded the payloads of the Data and Error messages under the text of its id, and of the connection error, up to the first connection error, Error or Complete that its id is read from; while the task runs, a beginning of this |
| Multiplexer.EndedStreamsAreFinal | crates/client/src/ws.rs:381-440 | a stream that ended by itself lacks nothing, whatever messages follow |
| Multiplexer.NothingReachesTheGone | crates/client/src/ws.rs:34-65 | whatever happens after a stream ended, was dropped or given up, nothing is added to its queue and its items stay as they are |
| Progress.PossibleExactlyWhen | crates/client/src/ws.rs:34-65 | after any run, an event can happen exactly when its own condition holds: a message while no cleanup is pending, a turn when a message is queued or the handle is gone, and so on; nothing else holds it back |
| Progress.QueueCanBeYielded | crates/client/src/ws.rs:381-440 | the task of a polled subscription can always yield, by turns of its own, all that the messages processed so far call for |
| ClientMessages.EveryRunKeepsChannels | crates/client/src/ws.rs:337-346 | after every run, the channel of each connection holds one Start for each subscription made on it and none for any other, and at most one Stop, none unless the subscription is gone |
| ClientMessages.StopsAreSentOnce | crates/client/src/ws.rs:457-470 | for every subscription that ends in a run there is, from then on, exactly one Stop in the channel of the connection it was subscribed on if the sender task of that still ran, otherwise none, and none in any other channel |
| ClientMessages.SenderIsThatOfStart | crates/client/src/ws.rs:337-346 | a subscription keeps the sender of the connection that was current when its Start was sent |
| ClientMessages.StopReachesLiveConnectionExactlyWhen | crates/client/src/ws.rs:457-470 | the Stop reaches the connection in use exactly when none was installed since the Start was sent and the sender task still runs |
| ClientMessages.StopCanBeLost | crates/client/src/ws.rs:211-258 | a run in which a subscription ends after a reconnect and no Stop is sent |
| WebSocket.GraphQLWebSocket.SubscribeRegister | crates/client/src/ws.rs:319-335 | the first lock section of `subscribe` is one step of the model |
| WebSocket.GraphQLWebSocket.SubscribeSendStart | crates/client/src/ws.rs:337-346 | so is the second: the subscription is made with the sender of the current connection, or, if the channel of that is closed, `unwrap` panics and there is none |
| WebSocket.GraphQLWebSocket.RouteMessage | crates/client/src/ws.rs:34-52 | a server message goes to its subscription or to all, and is noted for cleanup when final or undeliverable |
| WebSocket.GraphQLWebSocket.Broadcast | crates/client/src/ws.rs:58-64 | in whatever order the handles are visited, each live one gets the message once |
| WebSocket.GraphQLWebSocket.SubscriptionTurn | crates/client/src/ws.rs:381-440 | one turn of a subscription task; when it returns, a Stop goes to its own connection |
| WebSocket.GraphQLWebSocket.DropSubscription | crates/client/src/ws.rs:457-470 | dropping a subscription that was not polled |
| WebSocket.GraphQLWebSocket.InstallConnection | crates/client/src/ws.rs:240-243 | the reconnecter installs a new connection; the old one sends its farewell as it is dropped |
| Reconnect.EveryRunKeepsInv | crates/client/src/ws.rs:211-258 | over any chain of reconnects, connection number e carries tag e mod 256, and every handle the tag of the connection that tagged it |
| Reconnect.PassStartsExactlyTheStale | crates/client/src/ws.rs:150-169 | a pass attempts Start once for exactly the handles whose tag differs, which are those not tagged a multiple of 256 connections earlier, and leaves all with its own tag |
| Reconnect.TagsAreEarned | crates/client/src/ws.rs:150-169 | the connection that tagged a handle has attempted its Start, or is the one it was made on |
| Reconnect.SkippedAfter256 | crates/client/src/ws.rs:211-258 | when any number of connections follow one another and only the last gets to its pass, that pass attempts Start for a subscription made before them exactly when their number is no multiple of 256 |
| Reconnect.NothingIsSkipped | crates/client/src/ws.rs:150-169 | if every connection gets to its pass, each pass starts exactly the handles its connection has not tagged |
| Reconnect.Subscriptions.ResubscribePass | crates/client/src/ws.rs:150-169 | the loop over the handles, in whatever order, starts each differing handle once and retags all |
| StartCounts.PartsRunAlone | crates/client/src/ws.rs:150-169 | when subscriptions and resubscribe passes run together, each part goes through a run of its own model |
| StartCounts.EveryRunKeepsInv | crates/client/src/ws.rs:315-346 | both then know the same handles with the same requests and the same connection in use, and no pass asks twice for a subscription, or for one made on its own connection or a later one |
| StartCounts.TagsHoldNothingBack | crates/client/src/ws.rs:211-258 | whatever the client can do alone it can do then, but for installing a connection that is not open yet |
| StartCounts.StartsAre | crates/client/src/ws.rs:337-346 | for each subscription, the connection that `subscribe` sent the Start to gets one from there, each connection installed after the handle was made may get one more in its pass, and there are no others |
| StartCounts.StartsExactly | crates/client/src/ws.rs:150-169 | a connection that makes its pass gets, for each subscription, one Start if `subscribe` used it, plus one if the handle was there in the pass with another tag; when every connection gets to its pass, that is exactly if the handle was made while an earlier connection was in use |
| StartCounts.StartsWithoutPass | crates/client/src/ws.rs:337-346 | a connection that makes no pass gets that from `subscribe` only |
| StartCounts.OneStartOnItsOwn | crates/client/src/ws.rs:315-346 | a subscription is started once on its own connection if none was installed between the lock sections of `subscribe` |
| StartCounts.StartedTwice | crates/client/src/ws.rs:315-346 | a run in which one connection gets two Starts for one subscription |
| StartCounts.AnswersToPassArriveExactlyWhen | crates/client/src/ws.rs:159-162 | data under the text that a pass writes for an id is routed to that id, and is the text that its subscription knows, exactly when the id is below ten |
| StartCounts.TenIsTakenForSixteen | crates/client/src/ws.rs:159-162 | what is sent for subscription 10 after a pass goes into the stream of subscription 16 |

## Left out

- Sockets, TLS, timers, task scheduling, serialization and JSON tags: the client model starts from the message datatypes.
- Progress of locks, and what makes a sender task end or a connection be replaced: the model lets either happen at any time and allows more interleavings than the locks do, so what it says of every run covers the code.
- The way from the channel of a connection to its socket: what a sender task has not taken when it ends is lost, and errors of the socket are only logged.
- Resubscribe passes of several connections at once, or interrupted ones: in `Reconnect` and `StartCounts` a pass is one step, and only the newest connection makes one. In the code a sender task may still be in its pass when the next connection is opened.
- A `subscribe` that is cancelled inside its first lock section, while it waits for the lock of the connection: it leaves the id count raised, and no handle.
- Source positions in syntax trees; tokens have positions, trees have not.
- Bytes: texts are sequences of characters, so offsets count characters where the original counts UTF-8 bytes, and block strings are cut by characters.
- The values of floats: literals are kept as their text. The printer can turn one into an integer, so well-formed documents have none.
- Error message texts, and where exactly a failed parse is reported.
- The schema language, its grammar and its printer: schema definitions start from their syntax trees; type extensions and directive definitions are ignored, as the builder ignores them.
- `consume_definition`, which reads one definition and returns the rest of the text.
- A carriage return before the end of the text, without a line feed after it: whether `str::lines` drops it depends on the Rust version; the model keeps it.
- The width of ids and of the indentation: they are unbounded here, `u32` there.
- The query string stored with an operation, and arguments and directives of selections, which resolving drops.
- Names in Rust: case conversion is a parameter, keywords are not replaced, and token streams, derives and attributes are not rendered.
- The enum of its own that variants beside fields are rendered as, and leaving fields out for being deprecated.
- The alias of a `__typename` field, which resolving drops.
- Reading files, the command line, HTTP, and fetching introspection data.

# Executable notes, verified

A Dafny 4.11 model of the hand-written algorithms of a notes application whose
markdown files contain executable blocks, with proofs of the promises the
application makes about them. `dafny verify dfyconfig.toml` checks everything.

The model follows the program's own structure, one module per component, and
for each component one module that states what it does as functions, loops and
classes in the source's form, and one or more that prove what it is for.

**Running blocks.** `Runner` is the memoised depth-first executor: a class with
the `executed` map, the `inProgress` set and a ghost trace, refined against a
function of its state. The executor behind it, JSON printing, the type registry
and the environment are a `Host` of pure functions. `RunnerTheorems` proves that
no run over any ordered list of blocks meets a cycle, that a successful run has
called the executor exactly once for every block its target reaches,
dependencies first, that the note alone decides this order, and that its results
are those of the plain unmemoised recursion. `RunnerExactness` shows that the
hypothesis of this value theorem is exact, the executor alone being varied: no block
reads downwards to one that runs before it. `JsonPrinting` is the printer for it. `NoteRuns` carries the first result to every markdown text: the
parser's blocks are always ordered, which is what "DAG by construction" needs.
`RunnerWitnesses` shows that the depth limit bites at exactly 52 chained blocks, and
that a downward reference changes a value; `NoteWitnesses` gives the markdown notes
that have these blocks.

**References.** `References` has the placeholder extraction, JSON navigation and
the extract-then-replace loop; `Substitution` proves the loop equal to one
simultaneous left-to-right substitution when every replacement is harmless (it may
hold braces, as printed JSON does, but shows no placeholder and leaves none open),
with order independence, idempotence and the exact set of placeholders left over,
and that harmless values are exactly those that never make a new placeholder.
`ReferenceReading` says what a placeholder means without the functions that do it:
which block it runs, which text takes its place, and what of a JSON value changes.

**Blocks in markdown.** `Lines`, `BlockParser` and `BlockSerializer` model the
fence scanner, the info strings, the database and HTTP bodies and their printed
forms. `DbRoundTrip` and `HttpRoundTrip` give the exact canonical forms: a block
survives being written and read back if and only if it is canonical.
`HttpRows`, `NoteForms` and `SerializerForms` fix the forms the round trips do not
see: continuation rows, comments, other fences, legacy bodies, and what is written for
blocks no note yields.
`NoteRoundTrip` extends this to whole notes of canonical blocks of both kinds
between prose lines, with the right line numbers. `ParsedBlocks` says, of a block
read from any note at all, exactly when it is canonical, and `Rewriting` exactly
when writing, reading and writing it again gives the same bytes.

**SQL text.** `SqlScanner` is the character state machine as a class, and its four
loops; `SqlLexis` is the lexical grammar of comments, strings and code that it
refines, defined without it; `SqlScannerTheorems` proves that they agree with one another and survive
re-scanning their own output, `BindSlicing` exactly when the executor's slices
satisfy the pool's guards. `DbExport`, `CsvRoundTrip` and `InsertsScan` cover the CSV and
INSERT printers, against the grammar in section 2 of RFC 4180 (with line-feed
record ends) and, for any names and cells, exactly when the scanner splits an export
back into its rows; `InsertsReading` reads every printed statement back to its names
and values.

**Snippets and frontmatter.** `HttpCodegen` proves that a POSIX shell reads the
generated cURL snippet as exactly curl's arguments, by the quoting rules in
section 2.2 and the token recognition rules in section 2.3 of the POSIX Shell
Command Language, and `CurlMessages` what those are for a message of a note.
`Frontmatter` says which documents are cut, and gives the exact conditions of both
directions of the frontmatter round trip.

**State machines.** `Pane`, `PaneState`, `PaneTheorems` and `PaneLayout` are the
split-pane tree, its focus path and the layout on the screen; `PaneShape` says what each
operation leaves of the tree, node by node, and where a split is drawn. `FileTree` is the
flattened sidebar, `FileTreeShape` which rows it shows; `RateLimiter` the sliding window;
`FuzzyScore` the greedy matcher.

## Where the code and its documentation part

- The serializer's documentation promises identical bytes on saving twice
  (httui-core/src/blocks/serializer.rs:5-7). For a block read from a note this holds
  if and only if, for a database block, no query line ends in a carriage return
  (`Rewriting.DbRewriteIff`), and for an http block, no body line does, the written
  target is trimmed and not empty, and each of its `&`-segments has a key and does not
  end at its first `=`; or the message is the bare GET (`Rewriting.HttpRewriteIff`).
  Four families of notes fail: `POST ?` becomes `POST `, then `GET `; `GET x ?`
  becomes `GET x `, then `GET x`; a continuation line `&k=&` becomes `?k=&`, then `?k`;
  a second carriage return behind a query is kept once, then lost.
- The block itself, as opposed to its bytes, can also lose `timeout=` on http blocks
  and an empty `alias=` or `display=` (`ParsedBlocks.ParsedDbIsCanonicalIff`,
  `ParsedBlocks.ParsedHttpIsCanonicalIff`).
- The serializer's documentation calls an http body compact JSON
  (httui-core/src/blocks/serializer.rs:13-14); the code writes an HTTP message.
- The frontmatter documentation promises `assemble(split(c)) == c` for any document
  with a fence (httui-core/src/frontmatter/mod.rs:26-27). It holds if and only if
  there is no byte-order mark and both fences are `---` and a line feed
  (`Frontmatter.AssembleSplitIff`).
- A run resolves against every result so far, not only those above a block
  (httui-core/src/runner.rs:176). `NoteWitnesses.DownwardReferenceLeaks` is a
  family of notes in which this changes a value; `RunnerExactness.RunIsEvalIff` and
  `JsonPrinting.CompactRunIsEvalIff` say for which notes some executor makes it show.
- Replacement values are scanned again (httui-core/src/references.rs:158-171).
  `Substitution.ValueWithBracesIsRescanned` shows what such a value does, and
  `Substitution.HarmlessIff` which values are affected.
- The pool means to reject a query whose number of binds is wrong
  (httui-core/src/db/pool.rs:102-108). Behind the executor's slicing only too few are
  noticed; a surplus is dropped (`BindSlicing.StatementsPassTheGuardsIff`).
- The cURL snippet does not quote the method (httui-core/src/blocks/http_codegen.rs:120);
  `HttpCodegen.CurlReadsAsArgvIff` says which methods a shell reads back: plain words.

## Model

| member | source | states |
|---|---|---|
| References.ExtractFromString | httui-core/src/references.rs:38-52 | the scanning loop finds exactly the non-empty names between an opening pair and the first closing pair after it, left to right |
| References.NavigateJson | httui-core/src/references.rs:72-89 | the path walk through objects and array indices, with its failure cases |
| References.ResolveString | httui-core/src/references.rs:149-174 | the loop's text is the fold of one replacement per extracted placeholder |
| References.ResolveReadsPlaceholdersOnly | httui-core/src/references.rs:122-147 | resolving a JSON value depends on the lookup at the value's own placeholders only |
| Json.SortedElementsAre | httui-core/src/references.rs:11-17 | sorting and deduplicating leaves each placeholder once, in increasing order |
| Substitution.ResolveIsSubst | httui-core/src/references.rs:149-174 | when the values are harmless, extract-then-repeated-replace is one simultaneous left-to-right substitution |
| Substitution.ResolveInAnyOrder | httui-core/src/references.rs:156-171 | for harmless values, any other order or repetition of the same placeholders gives the same text |
| Substitution.ResolveLeavesUnresolved | httui-core/src/references.rs:149-174 | for harmless values, the placeholders of the result are exactly the unresolved originals, and resolving again changes nothing |
| Substitution.HarmlessIff | httui-core/src/references.rs:149-174 | a value is harmless if and only if filling it into any text whose only placeholder it answers leaves no placeholder behind |
| Substitution.ValueWithBracesIsRescanned | httui-core/src/references.rs:158-171 | a family of values with braces that a later replacement re-scans, so that order matters |
| ReferenceReading.AliasEndsAtFirstDot | httui-core/src/references.rs:63-65 | the alias of a placeholder with a dot holds no dot, and the placeholder begins with it and a dot |
| ReferenceReading.ReferenceReads | httui-core/src/references.rs:93-182 | `alias.path` gives way to what the dot-separated path leads to in the result of that alias, a text as it is, null as nothing, other values printed; it stays when there is no such result or nothing there |
| ReferenceReading.VariableReads | httui-core/src/references.rs:158-171 | a name without a dot is a variable of the environment, or stays |
| ReferenceReading.NavigateKey | httui-core/src/references.rs:72-89 | a path part that is a plain name enters the object field of that name, or leads nowhere |
| ReferenceReading.NavigateOther | httui-core/src/references.rs:72-89 | an empty path part is passed over, and three names lead nowhere in any value |
| ReferenceReading.NavigateIndex | httui-core/src/references.rs:72-89 | a path part that is a number, a plus sign in front or not, counts the items of an array from zero, and leads nowhere in an object |
| ReferenceReading.HugeNumberIsKey | httui-core/src/references.rs:72-89 | a number that 64 bits cannot hold is a name like any other |
| ReferenceReading.OnePlaceholderIsFilled | httui-core/src/references.rs:149-174 | a placeholder between texts without braces gives way to its value, whatever the value holds |
| ReferenceReading.ResolveShape | httui-core/src/references.rs:121-147 | wherever a way leads in a JSON value, resolving changes the text found there and nothing that is no text: lengths, keys, numbers, flags and nulls stay |
| ReferenceReading.TextIsSearched | httui-core/src/references.rs:11-36 | the placeholders of every text anywhere in a value are found |
| ReferenceReading.PlaceholderHasText | httui-core/src/references.rs:11-36 | and every placeholder found stands in some text of the value |
| Blocks.FindBlockFirst | httui-core/src/blocks/parser.rs:399-401 | the alias lookup finds the first block with that alias and fails only when there is none |
| Blocks.BlocksAboveAre | httui-core/src/blocks/parser.rs:404-406 | exactly the blocks that start above a line |
| Runner.BlockRun.ExecuteBlockRecursive | httui-core/src/runner.rs:103-202 | the recursive method that mutates the cache, the in-progress set and the trace is the run function, state and result |
| RunnerTheorems.DependencyIsEarlier | httui-core/src/runner.rs:140-173 | the first block with an alias that occurs above a block stands strictly before that block |
| RunnerTheorems.RunOrder | httui-core/src/runner.rs:74-202 | no run returns a cycle error; the depth error takes 52 blocks; on success nothing is left in progress and the executor was called once for each block in the target's dependency closure, dependencies first, target last |
| RunnerTheorems.RunVisits | httui-core/src/runner.rs:103-202 | the note alone decides the order of calls: a successful run makes exactly the visits of a depth-first walk, whatever the executor answers, and a failed one stops somewhere on the way |
| RunnerTheorems.RunIsEval | httui-core/src/runner.rs:103-202 | when no block reads downwards to one that is visited before it, every executed block has the value of the unmemoised recursion over its own above-dependencies, and errors agree up to the depth limit |
| RunnerExactness.RunStores | httui-core/src/runner.rs:103-202 | a successful run stores for every alias what its block gives on exactly the results of the aliases visited before it |
| ReferenceReading.ReferredBlockRunsFirst | httui-core/src/runner.rs:140-190 | when a block refers by `alias.path` to a block above it, a successful run has run that one before it, and its own request was resolved with the results of the blocks in front of it |
| ReferenceReading.QueryIsFilled | httui-core/src/runner.rs:140-190 | the query a successful run sends for a text with one such reference has, in its place, what the path leads to in that block's result |
| RunnerExactness.RunIsEvalIff | httui-core/src/runner.rs:103-202 | printer, registry and environment fixed, the run stores the unmemoised recursion's values under every executor if and only if the target cannot run at all or no block reads downwards to one visited before it |
| JsonPrinting.CompactIsHarmless | httui-core/src/references.rs:176-182 | a result printed as compact JSON, no brace being in its texts, makes no placeholder, for all the braces the printer adds |
| JsonPrinting.CompactRunIsEvalIff | httui-core/src/runner.rs:103-202 | the same equivalence with the compact JSON printer, nothing being assumed of it |
| RunnerWitnesses.ChainDepthIsExact | httui-core/src/runner.rs:116-121 | in a chain of references the last block runs if and only if there are at most 51 blocks |
| NoteWitnesses.QueriesAreNotes | httui-core/src/blocks/parser.rs:30-89 | the note that asks one-line queries one behind the other has exactly their blocks |
| NoteWitnesses.FiftyTwoBlocksAreTooMany | httui-core/src/runner.rs:116-121 | a note of 52 blocks whose last block hits the depth limit; in the note without it, the block before runs |
| NoteWitnesses.DownwardReferenceLeaks | httui-core/src/runner.rs:176-178 | in a note whose first block refers down to its second, a run of the third caches another value for the first than running the first alone gives |
| NoteWitnesses.WordsAreNames | httui-core/src/runner.rs:176-178 | any three words without brace or dot, the first behind the second in order, are names for such a note |
| BlockParser.ParseInfoString | httui-core/src/blocks/parser.rs:420-432 | the type and the attribute map of an info string, the last of equal keys winning |
| BlockParser.CollectSegments | httui-core/src/blocks/parser.rs:349-358 | the query loop yields the parameters of the non-empty segments with a key, in order |
| BlockParser.ParseHttpFirstLine | httui-core/src/blocks/parser.rs:337-360 | method, address and inline parameters of a request line, or nothing |
| BlockParser.ParseHead | httui-core/src/blocks/parser.rs:219-258 | the loop over continuation and header lines, with its `saw_header` flag, up to the blank line |
| BlockParser.ParseHttpMessageBody | httui-core/src/blocks/parser.rs:193-331 | the whole HTTP message reader, its comment skipping, error paths and trailing blank lines |
| HttpRows.ContinuationAdds | httui-core/src/blocks/parser.rs:244-251 | while no header has been read, a row of `?` or `&` and a parameter adds exactly that parameter behind those so far |
| HttpRows.KeylessContinuationIsDropped | httui-core/src/blocks/parser.rs:244-251 | a continuation row without a key adds nothing |
| HttpRows.MarkedHeaderIsHeader | httui-core/src/blocks/parser.rs:244-256 | behind a header, a row is read as a header even if it starts with such a mark |
| HttpRows.CommentIsDropped | httui-core/src/blocks/parser.rs:230-242 | a `#` row adds nothing, wherever it stands in the head |
| HttpRows.ColonlessRowIsDropped | httui-core/src/blocks/parser.rs:253-257 | nor does a row that is neither marked nor has a colon |
| HttpRows.ContinuedMessageReads | httui-core/src/blocks/parser.rs:193-310 | a message with notes in front, parameters partly in the request line and partly on continuation rows, headers and a body is read with all of them in order |
| HttpRows.ContinuationsAreInline | httui-core/src/blocks/parser.rs:193-310 | such a message is read as the one that has all its parameters in the request line |
| HttpRows.OtherMethodIsEmptyGet | httui-core/src/blocks/parser.rs:337-367 | a first word that is none of the seven methods gives the empty GET, whatever follows |
| HttpRows.SevenMethods | httui-core/src/blocks/parser.rs:362-367 | the seven are methods |
| BlockParser.CollectBody | httui-core/src/blocks/parser.rs:47-57 | the inner loop stops at the first closing fence or the note's end |
| BlockParser.CollectBlocks | httui-core/src/blocks/parser.rs:35-88 | the outer loop builds exactly the blocks of the recursive scan |
| BlockParser.ParseBlocks | httui-core/src/blocks/parser.rs:30-89 | the blocks of a markdown text |
| NoteForms.FenceOpensIff | httui-core/src/blocks/parser.rs:410-432 | three backticks or tildes, indented or not, open a block if and only if the first word behind them is one of the five types, with the attributes behind that word |
| NoteForms.OtherStartOpensNothing | httui-core/src/blocks/parser.rs:410-418 | a line that starts with neither backtick nor tilde opens nothing |
| NoteForms.ClosesIff | httui-core/src/blocks/parser.rs:47-57 | a block is closed exactly by three or more backticks alone on their line |
| NoteForms.UnclosedBlock | httui-core/src/blocks/parser.rs:47-59 | a note that ends inside a block gives the block all its last lines |
| NoteForms.NoteLines | httui-core/src/blocks/parser.rs:30-35 | a line feed at the end of a note begins no further line |
| NoteForms.LaterKeyWins | httui-core/src/blocks/parser.rs:420-432 | of two equal keys the later wins, and a word without `=` says nothing |
| NoteForms.DisplayIsPreferred | httui-core/src/blocks/parser.rs:66-84 | the display mode is the attribute `display`, or else `displayMode` |
| NoteForms.LegacyDbIsItsJson | httui-core/src/blocks/parser.rs:100-122 | a db body that is a JSON object with a query text is that object, whatever the info string says |
| NoteForms.LegacyHttpIsItsJson | httui-core/src/blocks/parser.rs:165-187 | an http body that is a JSON object with method and url texts is that object |
| NoteForms.OtherDbBodyIsQuery | httui-core/src/blocks/parser.rs:100-122 | any other db body is the query as it stands |
| NoteForms.DbFieldsAre | httui-core/src/blocks/parser.rs:124-157 | of any other db block the fields are the connection unless it is empty, the row limit and the timeout if they are numbers, and no others but the query |
| NoteForms.OtherHttpBodyIsMessage | httui-core/src/blocks/parser.rs:165-187 | any other http body is read as a message |
| NoteForms.HttpTimeoutIs | httui-core/src/blocks/parser.rs:271-335 | and keeps no attribute but its timeout, if that is a number |
| NoteForms.OtherTypeIsJson | httui-core/src/blocks/parser.rs:60-66 | the body of any other type would be JSON, or null |
| NoteForms.DefaultsCoverTheTypes | httui-core/src/blocks/registry.rs:25-50 | the default registry knows exactly the five types a note can hold and sends each to the db or the http executor |
| BlockScan.BlocksAreOrdered | httui-core/src/blocks/parser.rs:30-89 | the blocks of any note have strictly increasing, disjoint line ranges |
| BlockScan.OpeningShape | httui-core/src/blocks/parser.rs:411-432 | a line that opens a block names an executable type and its attribute values hold no whitespace |
| BlockScan.FenceShape | httui-core/src/blocks/parser.rs:40-57 | every block body consists of note lines, none of which closes the fence |
| BlockScan.BlocksHaveParams | httui-core/src/blocks/parser.rs:60-66 | no parsed block has null parameters, so the runner's check for them never fires on a parsed note |
| NoteRuns.NoteRunHasNoCycle | httui-core/src/runner.rs:74-202 | for every markdown text and target: no cycle error, the depth error takes 52 blocks, and success means the dependency closure ran once each in topological order |
| BlockSerializer.InfoText | httui-core/src/blocks/serializer.rs:146-183 | the pushed info string is the type and the present fields in order |
| BlockSerializer.SerializeDbBlock | httui-core/src/blocks/serializer.rs:146-191 | a database block's fenced text, field order and fallbacks included |
| BlockSerializer.BuildQueryString | httui-core/src/blocks/serializer.rs:129-144 | the query string of the parameters with a key |
| BlockSerializer.HeaderLines | httui-core/src/blocks/serializer.rs:94-105 | one line per header with a key, in order |
| BlockSerializer.SerializeHttpBlock | httui-core/src/blocks/serializer.rs:43-119 | an http block's fenced text |
| BlockSerializer.SerializeBlock | httui-core/src/blocks/serializer.rs:18-26 | the dispatch on the block type |
| SerializerForms.DbTextIs | httui-core/src/blocks/serializer.rs:146-191 | a database block is written with alias, connection, limit, timeout and display in this order, each left out when there is nothing to say, and its query between the fences |
| SerializerForms.HttpTextIs | httui-core/src/blocks/serializer.rs:43-75 | an http block is written with alias and displayMode, and its message between the fences |
| SerializerForms.MessageIsRead | httui-core/src/blocks/serializer.rs:54-75 | a message is written from whatever parameters there are: a missing method is GET, a missing text empty, a missing list without rows |
| SerializerForms.RowsAreRead | httui-core/src/blocks/serializer.rs:94-144 | a row is its key and its value, each empty when it is no text |
| SerializerForms.ConnectionIsPreferred | httui-core/src/blocks/serializer.rs:154-172 | the connection written is `connection`, whatever it holds, or else `connection_id`, if it is a text and not empty |
| SerializerForms.KeylessIsDropped | httui-core/src/blocks/serializer.rs:94-144 | parameters and headers without a key are written as if they were not there |
| SerializerForms.OwnQueryIsExtended | httui-core/src/blocks/serializer.rs:77-92 | a url that has a query already is written with the parameters behind it, and read back as one parameter list |
| SerializerForms.UppercaseShape | httui-core/src/blocks/serializer.rs:43-60 | a method is written in upper case, letter by letter |
| SerializerForms.TrailingFeedsAreDropped | httui-core/src/blocks/serializer.rs:107-119 | line feeds behind a body are not written, and a body of nothing else is no body |
| InfoStrings.FieldsAreFound | httui-core/src/blocks/parser.rs:420-432 | every field written as `key=value` is found under its key, and no other key is |
| InfoStrings.HeadOpens | httui-core/src/blocks/parser.rs:411-432 | a written opening line is read back to its type and its fields |
| FencedText.WholeBody | httui-core/src/blocks/parser.rs:46-59 | a body equal to what is read of its own lines lost no line and no carriage return |
| FencedText.ReadsBackInFront | httui-core/src/blocks/parser.rs:35-88 | a written block in front of any other lines is read as that block, and the scan goes on behind it |
| DbRoundTrip.ReadWritten | httui-core/src/blocks/serializer.rs:154-188 | the serializer reads exactly the fields the parser wrote, decimal numbers included |
| DbRoundTrip.DbRoundTripIff | httui-core/src/blocks/serializer.rs:146-191 | a database block that is not read as legacy JSON comes back if and only if it is canonical |
| DbRoundTrip.CanonicalDbRoundTrips | httui-core/src/blocks/parser.rs:95-157 | every canonical database block's text is read back as exactly that block |
| HttpReading.TargetReads | httui-core/src/blocks/parser.rs:344-383 | a written request target is read back to its address and parameters |
| HttpReading.TargetShape | httui-core/src/blocks/parser.rs:344-383 | whatever a target says, what is read of it is clean, and writing it again is never longer |
| HttpReading.RowReads | httui-core/src/blocks/parser.rs:223-257 | a clean header row is read as that header, not as a comment or query segment |
| HttpReading.MessageReads | httui-core/src/blocks/parser.rs:193-310 | a request line, header rows and a body are read back, the target trimmed; a blank target gives the empty GET |
| HttpShape.MessageShape | httui-core/src/blocks/parser.rs:193-396 | every message the parser returns has a known method, an address without `?`, keyed parameters and clean headers |
| HttpRoundTrip.CleanMessageReads | httui-core/src/blocks/serializer.rs:54-118 | a clean message's text is read back to the message |
| HttpRoundTrip.BodyComesBack | httui-core/src/blocks/parser.rs:261-265 | a body equal to what is read of its own written lines had no closing fence, stripped end or trailing line feed |
| HttpRoundTrip.HttpRoundTripIff | httui-core/src/blocks/serializer.rs:43-144 | an http block that is not read as legacy JSON comes back if and only if it is canonical |
| HttpRoundTrip.CanonicalHttpRoundTrips | httui-core/src/blocks/parser.rs:193-396 | every canonical http block's text is read back as exactly that block |
| NoteRoundTrip.NoteRoundTrips | httui-core/src/blocks/parser.rs:30-89 | a note of canonical blocks and prose that opens no block is read as exactly those blocks, in order, with their line ranges |
| ParsedBlocks.ParsedDbIsCanonicalIff | httui-core/src/blocks/serializer.rs:5-7 | of the database blocks any note yields, exactly those with an empty attribute or a query line ending in a carriage return are not canonical |
| ParsedBlocks.ParsedHttpIsCanonicalIff | httui-core/src/blocks/serializer.rs:5-7 | of the http blocks any note yields, exactly which are canonical: no timeout, no empty attribute, no `&` in a parameter, a trimmed target, no carriage return at a body line's end |
| Rewriting.DbRewriteIff | httui-core/src/blocks/serializer.rs:5-7 | a database block of any note keeps its bytes when its text is read and written again if, and unless the stripped query is legacy JSON only if, no query line ends in a carriage return |
| Rewriting.HttpRewriteIff | httui-core/src/blocks/serializer.rs:5-7 | an http block of any note keeps its bytes when its text is read and written again if and only if its target is trimmed, not empty and has only plain query segments, and no body line ends in a carriage return, or it is the bare GET |
| Rewriting.CanonicalKeepsBytes | httui-core/src/blocks/serializer.rs:5-7 | a canonical block, read from a note or not, keeps its bytes |
| Rewriting.TargetReprints | httui-core/src/blocks/parser.rs:344-383 | a written target is read and printed as it was if and only if every `&`-segment of its query has a key and does not end at its first `=` |
| Rewriting.EmptyTargetIsNotKept | httui-core/src/blocks/serializer.rs:5-7 | a note `POST ?` is written as `POST ` and that, read again, as `GET ` |
| Rewriting.BlankInTargetIsNotKept | httui-core/src/blocks/serializer.rs:5-7 | a note `GET x ?` is written as `GET x ` and that, read again, as `GET x` |
| Rewriting.AmpersandIsNotKept | httui-core/src/blocks/serializer.rs:5-7 | a note with the continuation line `&k=&` is written with the query `?k=&` and that, read again, with `?k` |
| Rewriting.CarriageReturnIsNotKept | httui-core/src/blocks/serializer.rs:5-7 | of two carriage returns behind a query the first writing keeps one and the second none |
| SqlScanner.Scanner.Advance | httui-core/src/db/sql_scanner.rs:35-75 | one step of the four flags, as a step of one mode, and how many characters it consumes |
| SqlScanner.ContainsMultipleStatements | httui-core/src/db/sql_scanner.rs:83-105 | the loop answers whether anything but whitespace follows the first boundary in code |
| SqlScanner.SplitStatements | httui-core/src/db/sql_scanner.rs:114-155 | the loop yields the trimmed non-blank segments between boundaries |
| SqlScanner.NormalizePlaceholdersToPg | httui-core/src/db/sql_scanner.rs:159-193 | the loop's text, with its 32-bit counter |
| SqlScanner.CountPlaceholders | httui-core/src/db/sql_scanner.rs:196-218 | the number of `?` in code |
| SqlLexis.LexemesAreTheText | httui-core/src/db/sql_scanner.rs:35-75 | a lexical grammar defined without the scanner cuts any text into line comments, block comments, quoted strings and characters of code, and loses nothing |
| SqlLexis.ScannerCountsCode | httui-core/src/db/sql_scanner.rs:35-75 | the scanner counts exactly the `?` of that grammar's code, and ends in code if and only if every string and comment is closed |
| SqlLexis.ScannerCutsCode | httui-core/src/db/sql_scanner.rs:35-155 | and it cuts a text exactly at the `;` of that grammar's code |
| SqlLexis.LineCommentIsPassed | httui-core/src/db/sql_scanner.rs:41-62 | behind `--`, any text without a line feed, and a line feed, the scan is that of the text behind |
| SqlLexis.BlockCommentIsPassed | httui-core/src/db/sql_scanner.rs:48-68 | behind `/*`, any text without `*/`, and `*/`, the scan is that of the text behind |
| SqlLexis.StringIsPassed | httui-core/src/db/sql_scanner.rs:51-75 | behind a quoted string, in which a backslash takes the next character with it, the scan is that of the text behind |
| SqlScannerTheorems.ScanConcat | httui-core/src/db/sql_scanner.rs:35-75 | where no two-character token straddles the cut, scanning a concatenation is scanning one part after the other |
| SqlScannerTheorems.SegmentsJoin | httui-core/src/db/sql_scanner.rs:114-155 | the segments joined by `;` are the text, so pieces are in-order disjoint substrings |
| SqlScannerTheorems.PieceRescansToItself | httui-core/src/db/sql_scanner.rs:114-155 | every piece split again is itself alone, and is not a multi-statement text |
| SqlScannerTheorems.SplitConservesPlaceholders | httui-core/src/db/sql_scanner.rs:196-218 | the placeholders of the pieces add up to the text's |
| SqlScannerTheorems.MultipleIff | httui-core/src/db/sql_scanner.rs:83-155 | the multi-statement test is true exactly when something not blank is left behind the first boundary, and for two or more pieces |
| SqlScannerTheorems.NormalizeReplacesExactly | httui-core/src/db/sql_scanner.rs:159-193 | exactly the code-position `?`s are replaced, in order, by `$1` to `$n`, n being the counted placeholders |
| SqlScannerTheorems.NormalizedScan | httui-core/src/db/sql_scanner.rs:159-218 | no code `?` is left, and the multi-statement answer is unchanged |
| SqlScannerTheorems.NormalizeIdempotent | httui-core/src/db/sql_scanner.rs:159-193 | normalizing twice is normalizing once |
| BindSlicing.SliceBinds | httui-core/src/executor/db/mod.rs:111-117 | the cursor loop yields the consecutive slices |
| BindSlicing.StatementsPassTheGuardsIff | httui-core/src/db/pool.rs:91-108 | every statement is a single one; all get as many binds as they have placeholders if and only if there are at least as many binds as placeholders; the slices are the first binds in order, and a surplus is dropped |
| DbExport.ToCsv | httui-core/src/blocks/db_export.rs:28-57 | the header and one escaped line per row |
| DbExport.ToInserts | httui-core/src/blocks/db_export.rs:139-163 | one INSERT statement per row |
| InsertsReading.LiteralReads | httui-core/src/blocks/db_export.rs:181-202 | a reader of SQL literals, defined without the printer, reads each printed cell as what it means: NULL, TRUE, FALSE, a number, a text, an array or object as its printed text |
| InsertsReading.NameReads | httui-core/src/blocks/db_export.rs:165-180 | and each printed name as the name |
| InsertsReading.NameIsBareIff | httui-core/src/blocks/db_export.rs:165-180 | a name is printed without quotes exactly when it is a word of letters, digits and underscores that starts with no digit |
| InsertsReading.InsertReads | httui-core/src/blocks/db_export.rs:139-202 | a printed statement is read as its table, its columns in order and, for each, what the row has for it |
| InsertsReading.ExportReads | httui-core/src/blocks/db_export.rs:139-202 | an export is read as its rows in order, one statement each |
| CsvRoundTrip.CsvDecodes | httui-core/src/blocks/db_export.rs:28-67 | an RFC 4180 decoder returns the header names and every formatted cell, for all strings, if and only if there is a column |
| CsvRoundTrip.QuotedIff | httui-core/src/blocks/db_export.rs:50-57 | a cell is quoted exactly when it holds a comma, a quote, a carriage return or a line feed |
| JsonPrinting.CsvCellIsReplacement | httui-core/src/blocks/db_export.rs:59-69 | a cell is the text that a reference to the same value would give way to, and a missing cell is empty |
| InsertsScan.QuoteIsInert | httui-core/src/blocks/db_export.rs:195-199 | a quoted literal without a harmful backslash leaves the scanner in code and shows it no boundary and no placeholder |
| InsertsScan.EscapeSafeIsExact | httui-core/src/db/sql_scanner.rs:51-62 | the backslash condition is exact: behind the printed literal of any string the scanner is in code if and only if it holds |
| InsertsScan.TerminatorIsSeenIff | httui-core/src/blocks/db_export.rs:139-202 | a statement's terminator stands in code if and only if the scanner is in code behind the head of the statement and every cell of its row is safe |
| InsertsScan.InsertsSplitPerRowIff | httui-core/src/blocks/db_export.rs:139-202 | for any names, splitting the export gives exactly one piece per row, that row's statement without its terminator, if and only if there are no rows, or the statements' common head scans back into code without a boundary and every cell is safe; the placeholders in code are then those of the heads |
| InsertsScan.CleanNamesMakeCleanHeads | httui-core/src/blocks/db_export.rs:144-180 | when each name as printed scans back into code with no boundary and no placeholder, so does the head |
| InsertsScan.PlainNamesMakeCleanHeads | httui-core/src/blocks/db_export.rs:168-180 | so it does for names that are printed without quotes |
| HttpCodegen.ToCurl | httui-core/src/blocks/http_codegen.rs:115-128 | the pushed lines, joined |
| HttpCodegen.ReadSingleQuoted | httui-core/src/blocks/http_codegen.rs:109-111 | a shell reads the quoted form of any string as that string, one word |
| HttpCodegen.CurlReadsAsArgvIff | httui-core/src/blocks/http_codegen.rs:34-128 | for every url, header and body, a shell reads the snippet as one simple command whose words are exactly curl's arguments if and only if the method is a plain word: not empty, without a character the shell reserves or matches file names with, and not starting with `#` or `~` |
| HttpCodegen.EmptyMethodVanishes | httui-core/src/blocks/http_codegen.rs:120 | an empty method is lost, since it is not quoted, and nothing else changes |
| CurlMessages.CurlSendsTheMessage | httui-core/src/blocks/http_codegen.rs:34-128 | for a message the parser gives, a shell passes curl its method, its address, one `-H` for each header with a key, and its body if the method is POST, PUT, PATCH or DELETE and the body is not empty |
| CurlMessages.AddressCarries | httui-core/src/blocks/http_codegen.rs:59-86 | the address is the url and, behind `?`, or `&` when it has a query, every encoded key and value in order |
| CurlMessages.OtherRowsAreDropped | httui-core/src/blocks/http_codegen.rs:41-57 | rows that are no objects or have no key are left out |
| CurlMessages.NoFieldsIsBareGet | httui-core/src/blocks/http_codegen.rs:63-128 | missing fields give a GET of nothing |
| Frontmatter.SplitFrontmatter | httui-core/src/frontmatter/parser.rs:66-92 | the line loop, byte-order mark and both kinds of opening fence included |
| Frontmatter.SplitAssembleIff | httui-core/src/frontmatter/parser.rs:66-113 | cutting an assembled document gives the parts back if and only if the raw region is whole lines that are no fences |
| Frontmatter.AssembleSplitIff | httui-core/src/frontmatter/parser.rs:66-113 | assembling a split document reproduces it if and only if it has no byte-order mark and both fences are `---` and a line feed |
| Frontmatter.DocumentIsCut | httui-core/src/frontmatter/parser.rs:66-92 | a document that opens with `---` and either line end, behind a byte-order mark or not, is cut at its first closing fence, whatever that one's line end |
| Frontmatter.NotCutIff | httui-core/src/frontmatter/parser.rs:66-92 | a document is left whole if and only if it does not open so or no line behind the opening is a fence |
| Frontmatter.FenceIff | httui-core/src/frontmatter/parser.rs:80-85 | a line is a fence exactly when it is three dashes and nothing but its line end behind them |
| PaneState.TabState.ActiveLeaf | httui-tui/src/pane.rs:177-182 | the pane the focus path leads to, with no panic reachable |
| PaneState.TabState.Split | httui-tui/src/pane.rs:197-215 | the tree and focus after a split |
| PaneState.TabState.CloseFocused | httui-tui/src/pane.rs:220-244 | the tree and focus after closing, or the last-leaf answer |
| PaneState.TabState.CycleFocus | httui-tui/src/pane.rs:248-261 | the focus after cycling |
| PaneState.TabState.MoveFocus | httui-tui/src/pane.rs:265-295 | the focus after a directional move, or its refusal |
| PaneState.TabState.Equalize | httui-tui/src/pane.rs:299-336 | all ratios reset, tree and focus otherwise unchanged |
| Pane.CollectLeafPaths | httui-tui/src/pane.rs:304-323 | the push-and-pop walk collects the leaf paths in depth-first order |
| PaneTheorems.SplitInsertsBehindFocus | httui-tui/src/pane.rs:197-215 | one leaf is inserted right behind the focused one, which it takes the focus from |
| PaneShape.SplitShape | httui-tui/src/pane.rs:197-215 | where the focused leaf was stands a separator of the asked-for direction, half and half, the old leaf in front, the new one behind and in focus; every other separator and leaf is as it was |
| PaneShape.SplitThenBack | httui-tui/src/pane.rs:197-295 | from the new pane, left of a vertical split and up of a horizontal one lead to the old one |
| PaneTheorems.CloseRemovesFocus | httui-tui/src/pane.rs:220-244 | exactly the focused leaf is removed |
| PaneShape.CloseShape | httui-tui/src/pane.rs:220-244 | the sibling moves up one step with all below it, the focus goes to its first leaf, and every other separator and leaf is as it was |
| PaneShape.OnlyPaneStays | httui-tui/src/pane.rs:220-223 | the last-leaf answer is given exactly for a tab of one pane, which stays |
| PaneTheorems.CloseUndoesSplit | httui-tui/src/pane.rs:197-244 | closing right after splitting restores tree and focus |
| PaneTheorems.LeafPathsAreTheLeaves | httui-tui/src/pane.rs:304-323 | the collected paths are all leaf paths, each once, in lexicographic order |
| PaneTheorems.CycleMovesOn | httui-tui/src/pane.rs:248-261 | cycling goes to the next leaf in depth-first order, from the last to the first, and says whether there was another |
| PaneTheorems.CycleReturns | httui-tui/src/pane.rs:248-261 | as many cycles as leaves come back to the start |
| PaneTheorems.CycleReaches | httui-tui/src/pane.rs:248-261 | every leaf is focused on the way |
| PaneTheorems.CycleDoesNotRepeat | httui-tui/src/pane.rs:248-261 | no leaf is focused twice on the way |
| PaneTheorems.FocusMovesOneWay | httui-tui/src/pane.rs:265-295 | left and up strictly lower, right and down strictly raise the depth-first leaf index |
| PaneTheorems.MovesStop | httui-tui/src/pane.rs:265-295 | moves in one direction stop within one step less than there are leaves |
| PaneShape.MoveShape | httui-tui/src/pane.rs:265-295 | a move crosses the nearest separator of its direction that it stands on the right side of, and lands on the first leaf behind it; it is refused exactly when there is none |
| PaneTheorems.EqualizeKeepsLeaves | httui-tui/src/pane.rs:325-336 | equalizing keeps every leaf, its path and its place |
| PaneShape.EqualizeShape | httui-tui/src/pane.rs:325-336 | every separator keeps its place and direction and stands in the middle |
| PaneTheorems.EveryRunKeepsFocus | httui-tui/src/pane.rs:109-323 | in every run of operations from a new tab the focus is a 0/1 path to a leaf, so no panic is reachable |
| PaneLayout.MoveGoesThatWay | httui-tui/src/ui/mod.rs:755-812 | on the screen, a move lands on a pane that lies wholly on the asked-for side |
| PaneLayout.PanesDoNotOverlap | httui-tui/src/ui/mod.rs:439-545 | no two panes are drawn over one another |
| PaneShape.ChildrenFill | httui-tui/src/ui/mod.rs:755-812 | the two sides of a separator and its cell fill the area exactly |
| PaneShape.ShareIsTaken | httui-tui/src/ui/mod.rs:755-812 | a share that leaves room for both sides is taken as it is |
| PaneShape.SplitIsDrawn | httui-tui/src/ui/mod.rs:439-545 | after a split the two panes fill the old one's area, the new one right of the old or below it, and both are drawn if there are two cells |
| FileTree.Flatten | httui-tui/src/tree.rs:177-196 | the pushed rows are the flattening of the listing |
| FileTree.FileTreeState.Refresh | httui-tui/src/tree.rs:91-100 | rows rebuilt, selection clamped |
| FileTree.FileTreeState.ToggleExpand | httui-tui/src/tree.rs:131-145 | the expansion set after a toggle, and whether it changed |
| FileTree.FileTreeState.CollapseParent | httui-tui/src/tree.rs:149-174 | the backward scan, the expansion set and the selection after it |
| FileTreeShape.RefreshKeepsSelection | httui-tui/src/tree.rs:91-100 | a refresh keeps the selection if there is such a row, and otherwise takes the last one |
| FileTreeShape.ToggleShape | httui-tui/src/tree.rs:131-145 | a toggle flips the selected directory and no other path, and does nothing on a file or without a row |
| FileTreeShape.FlatShows | httui-tui/src/tree.rs:177-196 | a row is shown exactly for the entries of the listing and those below expanded directories, each one level deeper than its directory |
| FileTreeShape.LevelIsTheListing | httui-tui/src/tree.rs:177-196 | the rows of a listing's own level are its entries in its order |
| FileTreeShape.CollapseOwnThenRefresh | httui-tui/src/tree.rs:91-174 | collapsing an expanded directory on itself folds exactly its stretch away and stays on it |
| FileTreeShape.CollapseOnTop | httui-tui/src/tree.rs:149-174 | on the top level, collapsing goes to the nearest top-level directory above and folds it, and changes nothing without one |
| FileTree.ScanFindsParent | httui-tui/src/tree.rs:158-166 | below the top level the backward scan finds the directory under which the forest lists the row |
| FileTree.DirectoryStretch | httui-tui/src/tree.rs:177-196 | flipping one directory in the expansion set takes out or puts back its stretch of rows and nothing else |
| FileTree.CollapseParentThenRefresh | httui-tui/src/tree.rs:91-174 | after collapsing and refreshing, the selection is the true parent, rows up to it are unchanged and exactly its stretch is gone |
| FileTree.ToggleTwiceRestores | httui-tui/src/tree.rs:91-145 | toggling a directory twice with refreshes restores rows, selection and expansion set |
| RateLimiter.Limiter.CheckExecuteRateLimit | httui-mcp/src/server.rs:45-66 | the deque and the decision after a call |
| RateLimiter.DequeIsExact | httui-mcp/src/server.rs:45-66 | over every run with a clock that does not go back, the deque accepts exactly the calls that the limiter keeping every accepted time does: those with fewer than 30 accepted calls at most 60 seconds old |
| RateLimiter.EveryWindowIsLimited | httui-mcp/src/server.rs:15-16 | every closed interval of 60 seconds holds at most 30 of the calls the deque accepts |
| RateLimiter.DequeIsBounded | httui-mcp/src/server.rs:45-66 | the deque never holds more than 30 entries, whatever the clock does |
| FuzzyScore.FuzzyScore | httui-core/src/search.rs:76-111 | the loop's score |
| FuzzyScore.GreedyIsAhead | httui-core/src/search.rs:84-104 | greedy leftmost matching has always matched at least as much as any embedding |
| FuzzyScore.ScoreIffEmbeds | httui-core/src/search.rs:74-111 | a score is given if and only if the query embeds in the target in order, and it lies between the query's length and 14 times that length |
| FuzzyScore.ScoreIsWorth | httui-core/src/search.rs:76-111 | the score is the worth of the leftmost match: 1 for each character, 10 more at the very start, 8 more behind a separator, 5 more right behind the match before it |
| FuzzyScore.ScoreFitsI32 | httui-core/src/search.rs:81-99 | for queries of up to 153 391 689 characters no step of the loop leaves 32 signed bits |

## Left out

- The HTTP and database executors, the result cache, the environment store and the clock: parameters (pure functions, a value, a reading).
- The JSON text parser, and the printer except in `JsonPrinting`: parameters. Blocks whose body is read as legacy JSON are outside the round trips; the detection itself is modelled.
- DbRoundTrip.DbRoundTripIff: assumes that nothing in the written text is read as legacy JSON, because a block can be built whose written text is a legacy body that yields the block itself; that canonical blocks come back does not need it.
- HttpRoundTrip.HttpRoundTripIff: makes the same assumption about http bodies; the other direction, that canonical blocks come back, does not need it.
- Error messages: a failed dependency keeps the error it wraps instead of its text, and the depth error is a case of its own.
- `to_uppercase` on methods changes ASCII letters only; every method the parser accepts is in upper case already.
- Printing of block types the parser never yields (JSON body): the dispatch is modelled, the JSON printer is a parameter, and nothing is proved about it.
- PaneLayout.MoveGoesThatWay: the rounding of a ratio to cells is a parameter, clamped as in the source.
- Numbers that are not finite in INSERT literals: a JSON number is kept as its text.
- FileTree.CollapseParentThenRefresh: leaves out depth 0, where the scan picks a preceding root directory instead of a parent; `FileTreeShape.CollapseOnTop` has that case.
- File tree prompts, visibility and cursor movement; panes' documents and viewports.
- Percent-encoding of query strings in snippets, and the other snippet languages.
- HttpCodegen.CurlReadsAsArgvIff: methods that start with a blank or an escaped line feed and also leave a quote open are not decided; what they are read as depends on the quotes of every later argument. The reading is that of the POSIX locale, whose blanks are the space and the tab; patterns and home directories count as not read back, since files and users decide; no argument holds a NUL.
- Rewriting.DbRewriteIff: where the stripped query reads as legacy JSON although the query itself does not, only one half is claimed; a JSON parser that takes a carriage return for white space has no such case.
- RunnerExactness.RunIsEvalIff: assumes that placeholder names hold no brace and that environment values are harmless; `RunnerTheorems.RunIsEval`, its first half, does not.
- NoteWitnesses.FiftyTwoBlocksAreTooMany: assumes of the JSON text parser that it refuses a text that starts with two opening braces, as section 4 of RFC 8259 has it.
- NoteWitnesses.DownwardReferenceLeaks: assumes the same.
- InsertsScan.InsertsSplitPerRowIff: a number's text must look like a JSON number, since numbers are kept as text.
- InsertsReading.ExportReads: takes the table name as it is printed, unquoted, and reads quotes as standard SQL does, without backslash escapes; a number's text must look like a JSON number.
- CurlMessages.AddressCarries: assumes of the percent-encoder that it leaves no `&` and no `=`, which its table encodes.
- ReferenceReading.QueryIsFilled: one placeholder between brace-free texts; texts with more are `Substitution.ResolveIsSubst`.
- SqlScannerTheorems.NormalizeReplacesExactly: for texts with fewer than 2^32 placeholders, which is what the counter holds.
- SqlScannerTheorems.NormalizeIdempotent: likewise.
- Typed frontmatter fields, flow lists and unquoting.
- The limiter's lock: calls are taken one at a time.
- JSON and Markdown table export, table-name inference, full-text search, EXPLAIN plans, the pool manager, git, keychain and the user interfaces.

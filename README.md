# A verified model of the cores of stevegt/lab

stevegt/lab is a laboratory repository of small Go programs. This project
models eleven of its cores in Dafny and proves properties about them:

- **Grokker** (`ai-agents/api.go`): a document store for retrieval-augmented
  question answering. Documents are cut into paragraph chunks. Chunks that
  are too long for the embedding model are split further. Chunks are
  identified by a SHA-256 hash of their text and document path. They are
  reconciled against the stored chunk list, embedded in token-limited
  batches, garbage-collected when stale, and retrieved within a token
  budget. Modules `GrokChunks`, `GrokEmbed`, `GrokVersion` and `GrokStore`.
- **Embedded-file lexer and parser** (`tdaid/examples/embeddedFile`): a
  line-and-marker lexer with a checkpoint stack, and a look-ahead parser
  that builds a root node of text and file children. Modules
  `EmbeddedLexer` and `EmbeddedParser`.
- **multipass** (`multipass/multipass.go`): parser combinators (`Sequence`,
  `Or`, `Regex`) and `Stage`, which greedily buffers its input and flushes
  the longest match. Module `Multipass`.
- **coparse** (`combinator-parser/coparse.go`): scanner spans, the base
  parse node and the `And` combinator node. Module `Coparse`.
- **interval tree free-slot search** (`interval/treeFree.go`): module
  `IntervalFree`.
- **Monte-Carlo planner node set** (`monte-carlo-planning/node.go`): module
  `MctsNode`.
- **grid accounting** (`grid-accounting/main.go`): account parsing,
  debit/credit rules, ledger line rules and table rows. Module `Accounting`.
- **grid syscall tree** (`grid-cli/v2-syscall-tree/module.go`): module
  registration along parameter paths, and module consultation. Module
  `SyscallTree`.
- **grid lookups** (`grid-cli/grid/main.go`): the symbol-table and
  subcommand hash lookups. Module `GridLookup`.
- **wasm cache** (`grid-cli/v0-multibuild/cache_wasm.go`): an in-memory
  byte store. Module `WasmCache`.

Two shared modules support the others:

- `Wrappers` holds `Option`, `Result` and `byte`.
- `GoStrings` models the parts of Go's `strings` package that the cores
  call: `Split`, `Join`, `HasPrefix`, `TrimSpace`, `Fields`, `Index` and
  `Repeat`.

## How the model is built

**Values and objects.**
- Where the Go code mutates an object through its methods, the model is a
  `class` whose methods have `modifies` clauses: `Grokker`, `Lexer`,
  `Parser`, `ASTNode`, `DefaultMessage`, coparse `Node`, `NodeSet`,
  `BalanceSheet`, the syscall `Kernel` and `WasmCacheStorage`.
- Each method is proved against a specification function of the old
  state.
- Pure code becomes datatypes and functions.

**Outcomes.**
- Errors are `Result` or `Outcome` values.
- Crashes are results of their own: a failed `Assert`, or a panic on a nil
  pointer or out-of-range slice.
- Exceptions: the process exit in `getSubcommandHash` is an error value that
  carries the printed message. `GrokChunks.ChunkText` returns `Err` for its
  `Assert` (`ai-agents/api.go:101-102`), because it has no `Crash` type of
  its own; every caller turns that `Err` into a crash.
- `splitChunk` at the token limit recurses on an identical chunk without
  bound. In Go that ends in the runtime's fatal stack overflow, which no
  `recover` catches. The split reports it as `Diverges`, and UpdateDocument
  as the crash `StackOverflow`.
- A loop whose end depends on a parameter (`migrate`) runs under a fuel
  bound, and running out of fuel is the outcome `Hangs`.

**External effects are parameters.** This covers:
- file contents;
- the tokenizer;
- SHA-256;
- the embedding service;
- `strconv.ParseFloat`;
- regular-expression matching;
- the semver library;
- database migration.

Goroutines and channels are replaced by the finite sequences they would
carry.

**Where the tests and the code disagree, the model follows the code:**

- *Grokker, missing files.* `chunksFromDoc` passes the `ReadFile` error
  through `Ck` (`ai-agents/api.go:693-705`), so a missing file makes
  `UpdateDocument` fail, and the model reports that failure.
- *Embedded-file tests.* The tests target a different lexer and parser
  API. The model follows `lexer.go` and `parser.go` as written. In
  particular, a file node's language is the data of the *last*
  code-opening fence, even when that data is empty.
- *Syscall tree, compile errors.* `grid-cli/v2-syscall-tree` does not
  compile as written:
  - `addSyscall` appends a `Message` from `Kernel.knownMessages` to a
    `[]Module` slice;
  - `Message` and `consultModules` are declared in two files.

  The model reads `knownMessages` as a map from name to module, and takes
  the `Message` type of `module.go`.
- *Syscall tree, representation.* The tree of `SyscallNode` pointers is
  represented by the set of its paths, each with the modules registered
  there.
- *Planner node set, test mismatches.*
  - `TestSelfReferentialPrerequisite` expects a node that requires itself
    to fail verification. The code accepts it, and the model follows the
    code (`MctsNode.PrerequisiteExamples`).
  - The `NodeSet` methods `Duration()` and `Fitness()`, called by the
    examples in `node_test.go` (lines 118 and 136), do not exist in
    `node.go`. (`Node` does have a `Duration` field, at `node.go:7`.)
  - `ExampleNodeSet` (`node_test.go:60-68`) expects the nodes in the wrong
    order to fail verification (`ok=false`). `Verify` (`node.go:28-37`)
    looks up prerequisites in the whole set and ignores order, so both
    orders pass, and the model follows the code
    (`MctsNode.ExampleOrders`).
- *Interval tree.* `interval/interval.go`, which defines `Interval`,
  `Conflicts` and `Wraps`, is not part of this model. Their meaning is
  taken from `interval/interval_test.go:14-75`: half-open intervals. The
  tree's `Conflict` check is a parameter.

## Model

| member | source | states |
|---|---|---|
| GrokChunks.NewChunk | ai-agents/api.go:78-96 | a new chunk has the given document, offset, length and text. It has no embedding and is not stale. Without a document its hash is empty |
| GrokChunks.NewChunkHash | ai-agents/api.go:81-85 | with a document, the hash is the lower-case hex encoding of SHA-256 of "from <relpath>:\n<text>\n", which is 64 characters long |
| GrokChunks.NewChunkIdentity | ai-agents/api.go:81-85 | two chunks of the same document path with equal texts have equal hashes; with an injective digest, different texts give different hashes |
| GrokChunks.HexInjective | ai-agents/api.go:84 | hex encoding is injective |
| GrokChunks.ChunkText | ai-agents/api.go:99-129 | a chunk without a document fails exactly when its text is empty, and otherwise gives its text; that `Err` stands for the Assert at api.go:101-102, and callers treat it as a crash. A chunk whose file is missing gives "". A chunk whose span lies in its file gives that text, with the header when asked |
| GrokChunks.SplitIntoChunks | ai-agents/api.go:710-736 | the paragraphs are non-empty and belong to the document. They start at offset 0, are contiguous, have length equal to their text, and join back to the input. Empty input gives none. Every paragraph but the last ends with the delimiter, and inside a paragraph the delimiter occurs only at its first position or as its last characters |
| GrokChunks.Paragraphs | ai-agents/api.go:717-733 | the paragraphs splitIntoChunks emits from a start and a test position: a delimiter at a tested position ends a paragraph just after it, except at the paragraph's first position; the last paragraph runs to the end of the text; positions in the last len(delimiter) characters are not tested; an empty piece is not emitted |
| GrokChunks.ParagraphsGood | ai-agents/api.go:710-736 | the same tiling facts for the paragraph specification, including "no paragraphs exactly when the text is empty" |
| GrokChunks.ParagraphsDelimited | ai-agents/api.go:717-733 | every paragraph but the last ends with the delimiter; no paragraph holds it anywhere else, except at its first position (the position the loop steps over after a cut) or at the end of the last paragraph |
| GrokChunks.ParagraphsCutFree | ai-agents/api.go:717-733 | for any cut predicate, every paragraph but the last ends with a cut, and no cut lies strictly inside a paragraph after its first position and before its tail |
| GrokChunks.ParagraphsExample | ai-agents/api.go:717-733 | "x\n\n\n\nb" gives the paragraphs "x\n\n" and "\n\nb": the second delimiter sits at the untested first position of the second paragraph |
| GrokChunks.CeilDivBounds | ai-agents/api.go:766-767 | the rounded-up quotient is the least multiple count covering the dividend |
| GrokChunks.Combine | ai-agents/api.go:777-778 | appending the pieces of two splits succeeds exactly when both do, and concatenates the pieces in order |
| GrokChunks.SplitChunk | ai-agents/api.go:748-781 | splitChunk's result: a chunk under the limit in bytes or in tokens is its own leaf; otherwise ceil(tokens/limit) ranges of ceil(Length/numChunks) bytes, each split again and concatenated in order; an unbounded recursion (`Diverges`, Go's stack overflow) when the first range is the whole chunk, and a panic when a range starts past the end |
| GrokChunks.SplitChunkTiles | ai-agents/api.go:748-781 | when splitChunk returns, its leaves tile the parent's text. Each starts at the parent offset plus its position, and each is below the limit in bytes or in tokens |
| GrokChunks.LeavesUnderTokenLimit | ai-agents/api.go:752-763 | when a text never has more tokens than bytes, every leaf has fewer tokens than the limit |
| GrokChunks.SplitChunkDivergesAtLimit | ai-agents/api.go:760-777 | a chunk whose token count equals the limit (and is not shorter than the limit in bytes) is split into itself, so the recursion has no bound and Go's stack overflows |
| GrokChunks.SplitChunkSlicesPastEnd | ai-agents/api.go:766-775 | a five-byte chunk with four tokens and limit 1 computes a start past its end and panics |
| GrokChunks.SplitChunkFresh | ai-agents/api.go:751-779 | splitting a chunk that is as NewChunk made it yields leaves that are each as NewChunk made them: no embedding, not stale, hashed from their text |
| GrokChunks.ChunksOfFresh | ai-agents/api.go:786-802 | every chunk chunksFromString yields is as NewChunk made it |
| GrokChunks.RangesStartInside | ai-agents/api.go:766-770 | with tokens at most bytes and a chunk of at most limit*limit bytes, the last of the numChunks ranges of chunkSize bytes starts before the end |
| GrokChunks.SplitChunkNonEmpty | ai-agents/api.go:751-779 | with tokens at most bytes and a non-empty chunk of at most limit*limit bytes, splitting never slices past the end and every leaf is non-empty |
| GrokChunks.ChunksOfNonEmpty | ai-agents/api.go:786-802 | with tokens at most bytes and a text of at most limit*limit bytes, chunksFromString does not panic and all its chunks are non-empty |
| GrokChunks.SplitChunkEmptyLeaf | ai-agents/api.go:766-775 | past that bound an empty leaf is possible: limit 3, a 16-byte chunk of 13 tokens gives 5 ranges of 4 bytes, and the fifth, at offset 16, is empty |
| GrokChunks.ChunksOf | ai-agents/api.go:786-802 | chunksFromString's result: the assertion panic for a non-positive limit, else the paragraphs of the text at "\n\n", each split at the limit, in order |
| GrokChunks.ChunksOfTile | ai-agents/api.go:786-802 | when chunksFromString returns, its chunks tile the whole text in order, belong to the document and are all within the limit |
| GrokChunks.ChunksFromString | ai-agents/api.go:786-802 | the loop over paragraphs yields the chunksFromString specification, and the same tiling facts |
| GrokEmbed.Embeddings | ai-agents/api.go:626-690 | no texts give no embeddings and no call. A successful run gives one embedding per text |
| GrokEmbed.PlanFrom | ai-agents/api.go:634-686 | the requests CreateEmbeddings' outer loop forms from text i on: one batch per pass, ending where the inner loop cuts, until the texts run out or an assertion fails (a text at or above the limit, or an empty batch) |
| GrokEmbed.PlanGood | ai-agents/api.go:634-686 | the planned batches are consecutive and non-empty, start at the first text, and each is the longest run whose token total stays below the limit; with no crash they cover every text |
| GrokEmbed.PlanCompleteIff | ai-agents/api.go:647-663 | batching completes exactly when every text has between 1 and limit-1 tokens |
| GrokEmbed.TextAtLimitCrashes | ai-agents/api.go:649-662 | a text of exactly the limit makes j < i and trips the assertion |
| GrokEmbed.BatchEnd | ai-agents/api.go:647-663 | the inner loop from text j with a running total: a text of no tokens or of more than the limit trips its assertion, the batch is cut before the text that would reach the limit, or after the last text |
| GrokEmbed.BatchEndFacts | ai-agents/api.go:639-660 | when the inner loop cuts, its batch stays below the limit, ends right before the first text that would reach it or at the last text, and every text in it has between 1 and limit-1 tokens |
| GrokEmbed.BatchEndTakes | ai-agents/api.go:649-659 | with valid counts, a batch that can take the next text is not empty |
| GrokEmbed.Send | ai-agents/api.go:676-685 | the provider calls, one per batch in order: the first error ends them, and otherwise the answers are concatenated |
| GrokEmbed.SendCovers | ai-agents/api.go:676-685 | sending consecutive batches to a service that answers one vector per input gives one vector per text covered |
| GrokEmbed.EmbeddingsSucceed | ai-agents/api.go:626-690 | with valid counts and such a service, CreateEmbeddings succeeds |
| GrokEmbed.NextBatch | ai-agents/api.go:639-663 | the inner loop computes the batch end of the specification, and a non-empty batch has a positive total |
| GrokEmbed.CreateEmbeddings | ai-agents/api.go:626-690 | the outer loop produces exactly the outcome of the specification: embeddings, service error or crash |
| GrokVersion.Decimal | ai-agents/api.go:279-299 | the decimal numeral of a number is a non-empty string of digits |
| GrokVersion.DecimalValue | ai-agents/api.go:279-299 | the decimal numeral of n is canonical and reads back as n |
| GrokVersion.ValueDecimal | ai-agents/api.go:279-299 | a canonical numeral is the numeral of its value |
| GrokVersion.ParseFormat | ai-agents/api.go:279-299 | parsing a formatted version core gives the version back |
| GrokVersion.FormatParse | ai-agents/api.go:279-299 | a version text that parses is the format of its version |
| GrokVersion.Cmp | ai-agents/api.go:290-299 | comparison answers -1, 0 or 1 |
| GrokVersion.CmpOrder | ai-agents/api.go:290-299 | comparison is zero exactly on equal versions, is antisymmetric and is transitive |
| GrokVersion.CmpZeroSameText | ai-agents/api.go:290-299 | two parsed version texts compare equal exactly when the texts are equal |
| GrokStore.Marked | ai-agents/api.go:555-560 | marking keeps the list's length and every field except stale. It sets stale on exactly the chunks of the document's path and keeps the other flags |
| GrokStore.MarkedExactly | ai-agents/api.go:555-560 | a chunk is stale after marking iff it was stale or belongs to the path; a chunk of another document is unchanged |
| GrokStore.Collected | ai-agents/api.go:529-545 | GC keeps exactly the chunks that are not stale |
| GrokStore.CollectedConcat | ai-agents/api.go:529-545 | GC keeps the original relative order: collecting a concatenation concatenates the collections |
| GrokStore.CollectedIdempotent | ai-agents/api.go:529-545 | a second GC removes nothing |
| GrokStore.WithChunk | ai-agents/api.go:605-623 | SetChunk on the list: the entries of the same hash and document refreshed with the new offset and length and no longer stale, or the chunk appended, not stale, when none matches |
| GrokStore.WithChunkFacts | ai-agents/api.go:605-623 | SetChunk: a chunk whose (hash, path) is known is refreshed with the new offset and length and becomes not stale, and the length is unchanged; otherwise the chunk is appended at the end with stale unset. Other chunks are untouched |
| GrokStore.WithChunkIdempotent | ai-agents/api.go:605-623 | setting the same chunk twice is the same as once |
| GrokStore.SetAll | ai-agents/api.go:567-574 | the chunk list after SetChunk on each leaf in turn, and the indices of the leaves it appended because no chunk with the same hash and document was stored |
| GrokStore.SetAllFrame | ai-agents/api.go:567-574 | setting the chunks of one document keeps every chunk of other documents in place, and the indices of appended chunks are increasing and past the old end |
| GrokStore.Problem | ai-agents/api.go:580-587 | the first failing assertion about a new chunk, in the source's order: another document, empty text, an embedding already set, stale, empty hash |
| GrokStore.NewTexts | ai-agents/api.go:581-591 | when the texts of the new chunks are read, there is one per new chunk |
| GrokStore.Attached | ai-agents/api.go:594-596 | attaching embeddings keeps the list's length |
| GrokStore.AttachedFrame | ai-agents/api.go:594-596 | attaching changes only the embedding field, and only at the given indices |
| GrokStore.AttachedEmbeddings | ai-agents/api.go:594-596 | each new chunk gets its own embedding |
| GrokStore.Updated | ai-agents/api.go:549-598 | UpdateDocument on the chunk list: mark the document's chunks stale; fail when the file is missing; crash when the split panics, or with `StackOverflow` when it recurses without bound; reconcile the leaves; read the new chunks' texts; embed them and attach the vectors; report whether any chunk was appended. What was done before a failure stays |
| GrokStore.UpdatedOnlyThisDocument | ai-agents/api.go:549-598 | UpdateDocument leaves every chunk of every other document in place and unchanged, whatever the outcome |
| GrokStore.UpdatedEmbedsNewChunks | ai-agents/api.go:549-598 | a successful update reports "changed" iff chunks were appended, and every appended chunk has an embedding |
| GrokStore.SetAllKeeps | ai-agents/api.go:567-574 | reconciling keeps every existing entry's document, hash, text and embedding, and never marks one stale |
| GrokStore.SetAllNew | ai-agents/api.go:567-574 | each appended index holds an entry with some leaf's document, hash, text and embedding, not stale |
| GrokStore.SetAllKnows | ai-agents/api.go:605-623 | after reconciling, every leaf is known to the list by (hash, path) |
| GrokStore.SetAllKnownAppendsNothing | ai-agents/api.go:567-574 | reconciling leaves the list already knows appends nothing |
| GrokStore.NewTextsChecked | ai-agents/api.go:579-591 | when each new chunk can fail only the empty-text check, reading the texts succeeds or crashes on an empty text; when none fails, it succeeds |
| GrokStore.UpdatedNewChunksChecked | ai-agents/api.go:563-584 | with the real SHA-256 hash, every appended chunk belongs to the document, has no embedding, is not stale and has a non-empty hash, so only the empty-text check can fail; none fails when no leaf is empty |
| GrokStore.UpdatedCrashes | ai-agents/api.go:549-598 | UpdateDocument crashes only on a split panic, a stack overflow, an empty new chunk or an embedding assertion; the stack overflows exactly when the split recurses without bound; with tokens at most bytes and a file of at most 64 MiB, only a stack overflow or an embedding assertion remains |
| GrokStore.UpdatedStable | ai-agents/api.go:549-623 | after a successful update, updating the unchanged document again appends nothing, makes no call to whatever provider is given and reports no change |
| GrokStore.UpdatedDocuments | ai-agents/api.go:549-598 | after an update every chunk still has a document |
| GrokStore.WithDocument | ai-agents/api.go:484-494 | AddDocument on the list: a document of that relative path appended unless one is already there |
| GrokStore.WithDocumentIdempotent | ai-agents/api.go:484-494 | adding a document path twice is adding it once, and afterwards a document with that path is present |
| GrokStore.FirstMatch | ai-agents/api.go:502-526 | the found index is the first document that matches; none is found iff no document matches |
| GrokStore.Forgotten | ai-agents/api.go:502-526 | ForgetDocument removes the first matching document and keeps the others in order, or keeps the list when none matches |
| GrokStore.ForgetAt | ai-agents/api.go:502-526 | the first matching document is the one removed |
| GrokStore.ForgetNone | ai-agents/api.go:502-526 | with no match nothing is removed |
| GrokStore.CostMonotone | ai-agents/api.go:841-855 | the token cost of a longer prefix of the ranking is no smaller |
| GrokStore.SelectFrom | ai-agents/api.go:841-858 | the budget loop: the count of ranked chunks kept, within the list, stopping before the first chunk that takes the total past the limit; the only failure is the crash of ChunkText's assertion |
| GrokStore.SelectFromFacts | ai-agents/api.go:841-855 | the budget loop succeeds and stops at the first chunk that would push the total over the limit |
| GrokStore.SelectFromCrashes | ai-agents/api.go:841-855 | the budget loop crashes only on a ranked chunk with neither document nor text, whose ChunkText Assert fires |
| GrokStore.Similar | ai-agents/api.go:841-858 | SimilarChunks' result: the ranked chunks the budget loop keeps, or its crash |
| GrokStore.SimilarCrashes | ai-agents/api.go:824-858 | SimilarChunks' only crash is the empty-text Assert of ChunkText, and it needs a ranked chunk with neither document nor text |
| GrokStore.SimilarLongestPrefix | ai-agents/api.go:824-858 | SimilarChunks returns a prefix of the ranking; a non-empty prefix fits within the budget exactly when it is no longer than the result |
| GrokStore.ParseCanonical | ai-agents/api.go:279-299 | the semantic-version parse gives distinct versions for distinct texts |
| GrokStore.MigrationStep | ai-agents/api.go:277-313 | one pass of migrate's loop: fail when either version does not parse or the database is newer; stop when they are equal; crash when the upgrade does not change the patch part; else run the database migration on a minor upgrade, or take the code version on a patch upgrade |
| GrokStore.Migration | ai-agents/api.go:274-316 | the migrate loop with at most fuel passes: the version it ends at, and whether some pass upgraded, or the failure, crash or hang that ended it |
| GrokStore.MigrationReachesCode | ai-agents/api.go:263-319 | a successful migration ends at the code version, which parses |
| GrokStore.MigrationMigratedIff | ai-agents/api.go:263-319 | a successful migration reports "migrated" iff the database version differed from the code version |
| GrokStore.MigrationNewer | ai-agents/api.go:279-299 | a database newer than the code is an error naming both versions |
| GrokStore.MigrationPatchStep | ai-agents/api.go:303-315 | a patch-only upgrade sets the version to the code version in one step, without migrating the database |
| GrokStore.MigrationContinues | ai-agents/api.go:307-315 | after a minor upgrade step the migration continues from the new version and reports "migrated" |
| GrokStore.Grokker.MarkStale | ai-agents/api.go:555-560 | the chunk list becomes the marked list, and documents and version stay |
| GrokStore.Grokker.GC | ai-agents/api.go:529-545 | the chunk list becomes its collection, and documents and version stay |
| GrokStore.Grokker.SetChunk | ai-agents/api.go:605-623 | the chunk list becomes the SetChunk specification, and the result is the chunk exactly when it was unknown |
| GrokStore.Grokker.Reconcile | ai-agents/api.go:567-574 | the SetChunk loop over the new chunks gives the specification's list and the indices of the chunks it appended |
| GrokStore.Grokker.NewChunkTexts | ai-agents/api.go:581-591 | the loop reading the new chunks' texts gives the specification's outcome |
| GrokStore.Grokker.Attach | ai-agents/api.go:594-596 | the embeddings are set at the new chunks' indices as specified |
| GrokStore.Grokker.UpdateDocument | ai-agents/api.go:549-598 | the chunk list and the outcome are those of the update specification, every chunk keeps a document, and documents and version stay |
| GrokStore.Grokker.AddDocument | ai-agents/api.go:465-499 | an unreadable path is the error "not found: <path>" and changes nothing. Otherwise the document is added unless one with that path exists, and the update is applied |
| GrokStore.Grokker.ForgetDocument | ai-agents/api.go:502-526 | with no documents nothing happens. A failure to make the path absolute is passed on. Otherwise the first document matching by path or absolute path is removed, and chunks stay |
| GrokStore.Grokker.SimilarChunks | ai-agents/api.go:824-858 | given a ranking of the chunks by descending score, the budget loop gives the specification's selection |
| GrokStore.Grokker.Migrate | ai-agents/api.go:263-319 | an empty version starts from "0.1.0"; the version and outcome are those of the migration specification, and documents and chunks stay |
| EmbeddedLexer.MarkerToken | tdaid/examples/embeddedFile/lexer.go:67-78 | emitWithSkip: the rest of the line after the marker, trimmed, and the position one past the line's newline (one past the input's end when there is none) |
| EmbeddedLexer.RunAt | tdaid/examples/embeddedFile/lexer.go:81-89 | emitText: a run of text ends at a newline or a marker, is trimmed, and the position moves past the newline when one ends it, always forward |
| EmbeddedLexer.NextOf | tdaid/examples/embeddedFile/lexer.go:42-94 | the token Next gives at a position and the position after it: EOF at the end, an empty Text token at a newline, a marker token for "File: ", "EOF_" or "```" in that order, else the trimmed text run, skipping a blank run |
| EmbeddedLexer.TextEnd | tdaid/examples/embeddedFile/lexer.go:83-85 | a text run stops at the first end of input, newline or marker, and nowhere before |
| EmbeddedLexer.LineEnd | tdaid/examples/embeddedFile/lexer.go:68-74 | the end of a marker line is the next newline, or the end of the input |
| EmbeddedLexer.NextAtEnd | tdaid/examples/embeddedFile/lexer.go:43-45 | at or past the end, Next gives an empty EOF and does not move |
| EmbeddedLexer.NextNewline | tdaid/examples/embeddedFile/lexer.go:49-52 | a newline gives an empty Text token and moves one past it |
| EmbeddedLexer.NextMarker | tdaid/examples/embeddedFile/lexer.go:54-60 | "File: ", then "EOF_", then three backticks, in that order of precedence, give FileStart, FileEnd and TripleBacktick tokens |
| EmbeddedLexer.TextRun | tdaid/examples/embeddedFile/lexer.go:81-94 | any other run gives a Text token of its trimmed text, moving past a newline that ends it; a blank run is skipped and lexing goes on |
| EmbeddedLexer.NextProgress | tdaid/examples/embeddedFile/lexer.go:42-94 | every token other than EOF advances the position, to at most one past the end; EOF leaves it at the end |
| EmbeddedLexer.NextTrimmed | tdaid/examples/embeddedFile/lexer.go:75-86 | token data never has leading or trailing white space and never contains a newline |
| EmbeddedLexer.Tokens | tdaid/examples/embeddedFile/lexer.go:97-108 | the tokens Run collects from a position: each token Next gives, up to and including the first EOF |
| EmbeddedLexer.TokensEndWithEOF | tdaid/examples/embeddedFile/lexer.go:97-108 | Run's tokens end with exactly one EOF, the last token |
| EmbeddedLexer.Lexer.Checkpoint | tdaid/examples/embeddedFile/lexer.go:29-31 | the position is pushed on the checkpoint stack and not changed |
| EmbeddedLexer.Lexer.Rollback | tdaid/examples/embeddedFile/lexer.go:34-39 | with a checkpoint, the position returns to the last one, which is popped; otherwise nothing changes |
| EmbeddedLexer.Lexer.Next | tdaid/examples/embeddedFile/lexer.go:42-63 | the token and the new position are those of the lexing specification |
| EmbeddedLexer.Lexer.EmitWithSkip | tdaid/examples/embeddedFile/lexer.go:67-78 | a marker line gives its trimmed rest and moves one past its newline |
| EmbeddedLexer.Lexer.EmitText | tdaid/examples/embeddedFile/lexer.go:81-94 | the text loop gives the specification's token and position |
| EmbeddedLexer.Lexer.Run | tdaid/examples/embeddedFile/lexer.go:97-108 | the tokens are the specification's token stream from the position |
| EmbeddedParser.FileLoop | tdaid/examples/embeddedFile/parser.go:86-108 | the file loop ends no earlier than it starts and within the stream |
| EmbeddedParser.FileLoopSpec | tdaid/examples/embeddedFile/parser.go:77-114 | a file block's content is, token by token up to the first EOF_ or EOF, each non-fence token's data and a newline, where a token inside a code block counts only if it is Text. Its language is the data of the last opening fence, and its name is the EOF_ data or empty |
| EmbeddedParser.FileAt | tdaid/examples/embeddedFile/parser.go:77-114 | parseFile: the `File:` token consumed, then the file loop, ending past its start and within the tokens |
| EmbeddedParser.FileAtNoEOF | tdaid/examples/embeddedFile/parser.go:78-108 | a file block never consumes an EOF token |
| EmbeddedParser.TextMerge | tdaid/examples/embeddedFile/parser.go:47-55 | consecutive Text tokens become one text node of their data joined with newlines |
| EmbeddedParser.RootLoop | tdaid/examples/embeddedFile/parser.go:38-65 | parseRoot's loop: stop at EOF; a Text token starts a text child or joins the current one with a newline; a FileStart token adds the file block's node; any other token is skipped and ends the merging |
| EmbeddedParser.RootOf | tdaid/examples/embeddedFile/parser.go:38-65 | parseRoot from an index: the children its loop builds from an empty list, and where it stops |
| EmbeddedParser.RootLoopEnd | tdaid/examples/embeddedFile/parser.go:38-65 | parseRoot stops at the first EOF, without consuming it, and keeps the children already built |
| EmbeddedParser.BufferStep | tdaid/examples/embeddedFile/parser.go:18-35 | drawing a token from the lexer gives the next token of the stream and keeps the buffer in step with it |
| EmbeddedParser.ASTNode.constructor | tdaid/examples/embeddedFile/parser.go:133-138 | a fresh node has the given type and content, and no name, language or children |
| EmbeddedParser.ASTNode.AddChild | tdaid/examples/embeddedFile/parser.go:141-143 | the child is appended and nothing else changes |
| EmbeddedParser.Parser.Peek | tdaid/examples/embeddedFile/parser.go:29-35 | the current stream token, without moving; the buffer grows by at most that token |
| EmbeddedParser.Parser.Next | tdaid/examples/embeddedFile/parser.go:18-26 | the current stream token, moving past it |
| EmbeddedParser.Parser.ParseText | tdaid/examples/embeddedFile/parser.go:68-74 | one token is consumed, giving a Text node of its data, or an Error node "expected a text token" |
| EmbeddedParser.Parser.ParseFile | tdaid/examples/embeddedFile/parser.go:77-114 | a fresh File node whose name, content and language are those of the file-block specification, and the position after the block |
| EmbeddedParser.Parser.ParseRoot | tdaid/examples/embeddedFile/parser.go:38-65 | a fresh root whose children show the root specification, stopping at the EOF |
| EmbeddedParser.Parse | tdaid/examples/embeddedFile/parser.go:117-121 | the root of the lexer's remaining tokens, and never an error |
| Multipass.DefaultMessage.SetParent | multipass/multipass.go:84-86 | only the parent changes |
| Multipass.DefaultMessage.AddChild | multipass/multipass.go:94-96 | the child is appended and nothing else changes |
| Multipass.DefaultMessage.SetPosition | multipass/multipass.go:104-108 | only filename, line and column change |
| Multipass.DefaultMessage.SetText | multipass/multipass.go:116-118 | only the text changes |
| Multipass.SequenceFrom | multipass/multipass.go:199-208 | Sequence's loop over the remaining parsers, each run on the same input: a panic propagates, the first non-match returns what was gathered unmatched, and a match appends its messages and adds its count |
| Multipass.Sequence | multipass/multipass.go:196-210 | the parser Sequence returns: the loop from no messages and count zero, matched once every parser has matched |
| Multipass.SequenceMatches | multipass/multipass.go:196-210 | when every parser matches, Sequence matches with their messages concatenated in order and their consumed counts summed |
| Multipass.SequenceStops | multipass/multipass.go:199-203 | at the first parser that does not match, Sequence panics if it panics, and otherwise reports no match carrying the earlier parsers' messages and counts |
| Multipass.RunSequence | multipass/multipass.go:196-210 | the loop gives Sequence's result |
| Multipass.OrFrom | multipass/multipass.go:216-222 | Or's loop: the first result that matches, unchanged (or the first panic), else the empty unmatched result |
| Multipass.Or | multipass/multipass.go:214-224 | the parser Or returns: its loop over all the parsers |
| Multipass.OrFirstMatch | multipass/multipass.go:214-224 | Or answers the first parser that does not fail |
| Multipass.OrNoMatch | multipass/multipass.go:222 | when all fail, Or answers the empty result |
| Multipass.RunOr | multipass/multipass.go:214-224 | the loop gives Or's result |
| Multipass.Slice | multipass/multipass.go:246-249 | a slice of the text exists exactly when its bounds are in order and in range |
| Multipass.RegexRun | multipass/multipass.go:232-262 | the Regex closure: no input or no match is unmatched; else one message derived from the first input, carrying the first submatch when there is one and the whole match otherwise, consuming one message; a slice out of range panics |
| Multipass.Regex | multipass/multipass.go:230-262 | the parser Regex(pattern, constructor) builds: its closure on any input |
| Multipass.RegexNoMatch | multipass/multipass.go:233-241 | empty input or no match in the first message gives no match |
| Multipass.RegexMatch | multipass/multipass.go:242-261 | a match consumes one message and yields one message with the first message as parent, its position, and the first submatch or the whole match as text; an unmatched group panics |
| Multipass.NewDerived | multipass/multipass.go:251-254 | the constructed message is the derived value |
| Multipass.Flush | multipass/multipass.go:133-141 | the flush closure: with a stashed result, drop from the buffer what it consumed, send it and clear the stash; without one, nothing; a consumed count past the buffer panics |
| Multipass.FlushBest | multipass/multipass.go:133-141 | the flush drops the stashed result's consumed prefix from the buffer, sends its messages and clears the stash; it panics exactly where the slice would |
| Multipass.PanicSticks | multipass/multipass.go:143-156 | once the input loop has panicked on a prefix of the input, it has panicked on the whole input |
| Multipass.Accept | multipass/multipass.go:143-156 | one turn of the input loop: the message appended to the buffer; a match stashed as the best result, a failed match flushes the stash; none where the parser panics |
| Multipass.Accepted | multipass/multipass.go:143-156 | the input loop over every message in order, none once a turn panics |
| Multipass.Drained | multipass/multipass.go:143-159 | the input loop followed by the final flush |
| Multipass.StageOf | multipass/multipass.go:126-175 | what Stage sends: the messages of every flushed result, then one Unknown message bundling a non-empty leftover buffer; a panic when the parser panics |
| Multipass.Stage | multipass/multipass.go:126-175 | the loop sends exactly the specification's output |
| Multipass.FlushConserves | multipass/multipass.go:133-141 | a flush loses no input message |
| Multipass.AcceptedConserves | multipass/multipass.go:143-156 | with a well-behaved parser, the input loop loses no message: the flushed results consumed all but the buffered tail |
| Multipass.StageConserves | multipass/multipass.go:126-175 | Stage sends the flushed results' messages in order, then, only if the unconsumed tail is not empty, one Unknown message holding exactly that tail |
| Multipass.AcceptFlushesOnBreak | multipass/multipass.go:149-155 | a stashed result is flushed only when a new message breaks the match |
| Multipass.MatchingDefers | multipass/multipass.go:149-151 | while every longer buffer matches, nothing is sent and the latest result is stashed |
| Multipass.HelloStage | multipass/multipass_test.go:85-100 | the stage of Regex(^Hello) turns "Hello, World!" into one message "Hello" |
| Multipass.RepeatedHello | multipass/multipass.go:143-171 | two "Hello" messages give one match, and the second goes into an Unknown message, since the buffer is parsed only from its front |
| Coparse.String | combinator-parser/coparse.go:24-26 | the spanned bytes exist iff 0 <= start <= end <= len(src); the result is those bytes |
| Coparse.CloneScanner | combinator-parser/coparse.go:29-37 | the clone equals the scanner field for field |
| Coparse.Node.constructor | combinator-parser/coparse.go:40-45 | a node with the scanner, no message and no children, valid on its own |
| Coparse.Node.FromBytes | combinator-parser/coparse.go:48-50 | the scanner is reset to position zero over the bytes |
| Coparse.Node.Clone | combinator-parser/coparse.go:53-58 | a fresh base node with a copy of the scanner only |
| Coparse.Node.AddChildren | combinator-parser/coparse.go:85-87 | the children are appended in order, and a valid node stays valid when each new child is valid and does not reach back to it; children may share nodes |
| Coparse.Node.Parse | combinator-parser/coparse.go:69-126 | a base node fails with "Parse() not implemented". An And node succeeds iff every non-nil child does, stops at the first failure taking its message, and sets no message other than "Parse() not implemented". Only valid (acyclic) graphs are required, so children may share nodes, as in And(x, x). When no two children share a node, the later children's messages stay unchanged |
| Coparse.ParseSharedChild | combinator-parser/coparse.go:109-126 | And(x, x) over a NodeBase x is valid although its children share x; parsing it ends and fails with "Parse() not implemented" |
| Coparse.Try | combinator-parser/coparse.go:91-95 | Try parses a clone, so it always fails on a base clone, leaves the node alone and returns the clone with the message |
| Coparse.NewAnd | combinator-parser/coparse.go:109-113 | a fresh And node whose children are the arguments in order, valid when they are valid, shared or not |
| IntervalFree.ConflictHalfOpen | interval/interval_test.go:14-75 | conflict is symmetric, touching intervals do not conflict, a non-empty interval conflicts with itself, and for non-empty intervals conflict means overlap |
| IntervalFree.SharedTimeConflicts | interval/interval_test.go:14-75 | a time in both intervals makes them conflict |
| IntervalFree.Checked | interval/treeFree.go:156-192 | a child's slots passed on in order, up to the first that conflicts with the node's interval, where the walk crashes on the "conflict" Assert |
| IntervalFree.Gap | interval/treeFree.go:168-174 | with two children, the one slot from the later of minStart and the left child's end to the earlier of the right child's start and maxEnd; no slot otherwise; a crash on a nil child interval |
| IntervalFree.Then | interval/treeFree.go:144-200 | the joined walk crashes iff either part does |
| IntervalFree.GenSlots | interval/treeFree.go:121-203 | the slots genSlots sends, and whether it crashes: none for an empty range; the whole range at a nil node or nil interval; otherwise pre, left (clipped and checked), gap, right (clipped and checked), post, in reverse when first is unset |
| IntervalFree.GenSlotsBase | interval/treeFree.go:125-135 | an empty range yields nothing; a nil tree or nil interval yields the whole range |
| IntervalFree.PreAndPost | interval/treeFree.go:138-198 | the walk opens with the pre slot when first is set, and with the post slot otherwise |
| IntervalFree.Walk | interval/treeFree.go:138-200 | the order of genSlots' five steps: pre, left, gap, right, post for first fit, the reverse for last fit |
| IntervalFree.WalkSlots | interval/treeFree.go:138-200 | a walk that does not crash sends pre, left, gap, right, post, or the reverse |
| IntervalFree.GenSlotsReversed | interval/treeFree.go:115-141 | when neither walk crashes, the last-fit walk yields exactly the first-fit slots in reverse order |
| IntervalFree.GenSlotsWithin | interval/treeFree.go:147-198 | every slot lies within [minStart, maxEnd) |
| IntervalFree.OrderedNeverCrashes | interval/treeFree.go:152-193 | when the check is a conflict with the node's own interval, and every node has an interval with its left child's interval before it and its right child's after it, the walk never crashes |
| IntervalFree.FindFree | interval/treeFree.go:217-239 | the result is the trial interval of the first slot that wraps it, nil iff no slot does and the walk ends, or the crash iff no slot does before the walk crashes |
| IntervalFree.Trial | interval/treeFree.go:224-229 | the trial interval of duration d in a slot: at its start for first fit, at its end for last fit |
| IntervalFree.FoundFits | interval/treeFree.go:224-233 | a trial interval that its slot wraps has the requested duration and lies within [minStart, maxEnd) |
| IntervalFree.TestConflicts | interval/interval_test.go:14-75 | the test's conflicts and non-conflicts hold |
| MctsNode.Keyed | monte-carlo-planning/node.go:17-25 | the map NewNodeSet builds: each node under its name, a later node replacing an earlier one of the same name |
| MctsNode.KeyedNames | monte-carlo-planning/node.go:17-25 | the set's keys are exactly the nodes' names |
| MctsNode.KeyedLast | monte-carlo-planning/node.go:21-23 | each name maps to the last node with that name |
| MctsNode.NodeSet.constructor | monte-carlo-planning/node.go:17-25 | the map built is the keyed specification of the list |
| MctsNode.NodeSet.Verify | monte-carlo-planning/node.go:28-37 | true iff every prerequisite of every node in the set is in the set |
| MctsNode.KeyedSatisfied | monte-carlo-planning/node.go:17-37 | a set verifies iff the prerequisites of each name's last node are all names of the list |
| MctsNode.KeyedAnyOrder | monte-carlo-planning/node.go:17-25 | distinctly named nodes give the same set in any order |
| MctsNode.ExampleOrders | monte-carlo-planning/node_test.go:36-68 | the test's node set verifies whether the prerequisites come before or after; the test expects the wrong order to give false, and the code as written gives true |
| MctsNode.PrerequisiteExamples | monte-carlo-planning/node_test.go:71-94 | a missing prerequisite fails, a self-reference passes, and the empty set passes |
| MctsNode.DuplicateExample | monte-carlo-planning/node_test.go:96-106 | of two nodes with one name, the later is kept |
| Accounting.ParseAccount | grid-accounting/main.go:72-81 | an account parses iff it has one or two colons; otherwise the error is "invalid account format: <s>" |
| Accounting.ParseAccountColons | grid-accounting/main.go:73-76 | success iff the string has one or two colons |
| Accounting.ParseAccountRoundTrip | grid-accounting/main.go:77-80 | party ":" label gives the string back; the party and category have no colon; the label starts with the category |
| Accounting.ParseAccountOf | grid-accounting/main.go:72-81 | "party:category" gives that party and category, with the category as label |
| Accounting.ParseAccountOfLabel | grid-accounting/main.go:72-81 | "party:category:sub" gives label "category:sub" |
| Accounting.Post | grid-accounting/main.go:39-70 | a posting by updateBalanceSheet's rules: debits add to assets and subtract from liabilities and equity, credits the reverse, on the one commodity; any other side or category changes nothing |
| Accounting.Posted | grid-accounting/main.go:39-70 | the sheet after updateBalanceSheet with one entry: the posting by its account's category and its debit or credit side |
| Accounting.Add | grid-accounting/main.go:45-67 | adding to a commodity's amount, a missing amount counting as zero, changes no other commodity |
| Accounting.PostingRules | grid-accounting/main.go:39-70 | a debit adds to assets and subtracts from liabilities and equity, and a credit does the reverse. Only that category's commodity changes. An unknown category or side changes nothing |
| Accounting.OppositeCancels | grid-accounting/main.go:39-70 | posting an amount on one side and then on the other restores every amount |
| Accounting.BalanceSheet.constructor | grid-accounting/main.go:25-31 | a new sheet has three empty maps |
| Accounting.UpdateBalanceSheet | grid-accounting/main.go:39-70 | the sheet becomes the posted specification |
| Accounting.Classify | grid-accounting/main.go:96-114 | how parseLedger's loop reads a line: skipped, a date line with its date, too short, or a posting of its first four fields |
| Accounting.ClassifyRules | grid-accounting/main.go:96-114 | blank and comment lines are skipped; other lines with '*' set the date to the trimmed line up to its first space; others with under four fields are ignored; the rest are postings of their first four fields |
| Accounting.PostToParty | grid-accounting/main.go:134-137 | a party's sheet is created when missing, and the entry is posted to that party only |
| Accounting.Ledger | grid-accounting/main.go:96-140 | the sheets parseLedger ends with after reading the lines in order, or the first amount or account error, with the amount error checked first |
| Accounting.ParseLedger | grid-accounting/main.go:83-145 | the loop gives the ledger specification: the sheets, or the first amount or account error with its prefix |
| Accounting.LedgerSkips | grid-accounting/main.go:97-110 | non-posting lines post nothing, and a date line only changes the current date |
| Accounting.LedgerParties | grid-accounting/main.go:134-137 | every party with a sheet had a posting, and no sheet is dropped |
| Accounting.PadShape | grid-accounting/main.go:156-158 | a padded cell is the cell followed by spaces, as long as the wider of cell and column |
| Accounting.Padded | grid-accounting/main.go:155-159 | every cell is padded, in order |
| Accounting.Render | grid-accounting/main.go:153-161 | the loop gives the rendered row |
| Accounting.Rendered | grid-accounting/main.go:153-161 | a rendered row: "| ", the padded cells joined by " | ", then " |" |
| Accounting.RenderedColumns | grid-accounting/main.go:153-161 | splitting the row on '|' gives back the padded cells, each framed by one space |
| Accounting.MaxItems | grid-accounting/main.go:225-236 | the result is at least each argument and equal to one of them |
| SyscallTree.HandleMessage | grid-cli/v2-syscall-tree/module.go:41-63 | a module's reply: LocalCacheModule's fixed replies, another module's given replies in test and live mode, and a panic for a nil module |
| SyscallTree.LocalCacheAlwaysAccepts | grid-cli/v2-syscall-tree/module.go:41-63 | the local cache answers "Acceptable" in test mode and "Handled" otherwise, both accepted |
| SyscallTree.DepthFrom | grid-cli/v2-syscall-tree/module.go:66-73 | the descent depth lies between the start and the number of parms |
| SyscallTree.DescentStops | grid-cli/v2-syscall-tree/module.go:66-73 | the descent passes only existing nodes and stops at the last parm or the first missing child |
| SyscallTree.Registered | grid-cli/v2-syscall-tree/module.go:95-107 | the tree after addSyscall appends modules: every node of the path exists, and the modules are appended at the path's end |
| SyscallTree.RegisteredAgain | grid-cli/v2-syscall-tree/module.go:106 | registering once more appends to the same node's modules |
| SyscallTree.RegisteredPath | grid-cli/v2-syscall-tree/module.go:95-107 | registering keeps a tree, creates exactly the missing nodes of the path with no modules, appends the modules at the path's end and changes no other node; the next descent reaches the end |
| SyscallTree.Copies | grid-cli/v2-syscall-tree/module.go:76-83 | n copies of a module |
| SyscallTree.PromisingFilters | grid-cli/v2-syscall-tree/module.go:76-83 | the test round panics iff a module panics; otherwise the promising modules are exactly those that accept |
| SyscallTree.PromisingKeeps | grid-cli/v2-syscall-tree/module.go:76-83 | the promising modules keep their order |
| SyscallTree.Consult | grid-cli/v2-syscall-tree/module.go:65-92 | consultModules' answer: a panic when a test call panics or a module promises with no parameters, else the first promising module that handles the message |
| SyscallTree.Registrations | grid-cli/v2-syscall-tree/module.go:76-83 | the number of registrations the test loop makes: the promising modules before the first test call that panics, all of them when none panics |
| SyscallTree.RegisteredTimes | grid-cli/v2-syscall-tree/module.go:95-107 | the tree after k calls of addSyscall on the same parameters; with no parameters each call panics at `parms[0]` before changing the tree |
| SyscallTree.Promising | grid-cli/v2-syscall-tree/module.go:76-83 | the modules whose test call accepts, in order, or none when a test call panics |
| SyscallTree.FirstHandler | grid-cli/v2-syscall-tree/module.go:85-92 | the second loop: "Handled" at the first promising module whose real call accepts, a panic when a real call before it panics, otherwise the error "no module could handle the request" |
| SyscallTree.AfterConsult | grid-cli/v2-syscall-tree/module.go:75-83 | the tree consultModules leaves, whether it returns or panics: the path registered once for each promising module whose test call comes before the first panicking one, each time with the known module of the first parameter; unchanged with no promise or with no parameters |
| SyscallTree.RegistrationsBeforePanic | grid-cli/v2-syscall-tree/module.go:76-83 | when the test call of module j panics, consultModules panics and the registrations made are those of the modules promising before j, whatever follows |
| SyscallTree.RegistrationsExample | grid-cli/v2-syscall-tree/module.go:76-83 | modules [local cache, nil]: the test calls panic, after one registration |
| SyscallTree.FirstHandlerFinds | grid-cli/v2-syscall-tree/module.go:85-92 | "Handled" iff some promising module accepts before any panic, "no module could handle the request" iff none accepts and none panics |
| SyscallTree.ConsultLearnsPath | grid-cli/v2-syscall-tree/module.go:65-93 | consulting keeps the tree a tree, and registers the known module along the full path once per promising module |
| SyscallTree.LocalCacheHandles | grid-cli/v2-syscall-tree/module.go:41-93 | non-empty parms whose node holds only local caches are handled |
| SyscallTree.Kernel.constructor | grid-cli/v2-syscall-tree/module.go:18-21 | a kernel with only the root node and no modules |
| SyscallTree.Kernel.AddSyscall | grid-cli/v2-syscall-tree/module.go:95-107 | with parms, the tree becomes the registration of the module known for the first parm along the path; empty parms panic and change nothing |
| SyscallTree.Kernel.Descend | grid-cli/v2-syscall-tree/module.go:66-73 | the loop reaches the specification's node and gives its modules |
| SyscallTree.Kernel.AskModules | grid-cli/v2-syscall-tree/module.go:75-83 | the test loop keeps the promising modules, or panics as specified; in either case the tree holds one registration per promising module tested before the panic |
| SyscallTree.Kernel.FirstHandling | grid-cli/v2-syscall-tree/module.go:85-92 | the handling loop gives the first-handler specification |
| SyscallTree.Kernel.ConsultModules | grid-cli/v2-syscall-tree/module.go:65-93 | the result is the consultation specification, and the tree is what consultation leaves, on a panic too |
| GridLookup.ValueAfter | grid-cli/grid/main.go:100-107 | the rest of the first line that starts with the key, or nothing when no line does |
| GridLookup.ValueAfterFirst | grid-cli/grid/main.go:100-107 | a value is found iff some line starts with the key; it is the rest of the first such line |
| GridLookup.ValueAfterAppend | grid-cli/grid/main.go:101-105 | earlier lines win |
| GridLookup.WrittenLineFound | grid-cli/grid/main.go:100-104 | a line "key value" written first is found with that value |
| GridLookup.BareNameNotMatched | grid-cli/grid/main.go:183 | a line holding only the subcommand name, with no space, never matches |
| GridLookup.SubcommandHash | grid-cli/grid/main.go:180-190 | the hash after "<name> " on the first matching line, or the message "Subcommand <name> not found in symbol table." |
| GridLookup.SymbolTableHash | grid-cli/grid/main.go:93-108 | a read failure is reported with "Failed to read configuration: "; otherwise the value after "symbol_table_hash=" on the first matching line, or "Symbol table hash not found in configuration." |
| WasmCache.Loaded | grid-cli/v0-multibuild/cache_wasm.go:17-23 | a load succeeds iff the hash is stored, with the stored bytes; otherwise the error is "data not found" |
| WasmCache.SavedThenLoaded | grid-cli/v0-multibuild/cache_wasm.go:12-23 | after a save, the hash loads the bytes saved, and other hashes load what they did before |
| WasmCache.SaveOverwrites | grid-cli/v0-multibuild/cache_wasm.go:12-15 | a second save under a hash replaces the first |
| WasmCache.WasmCacheStorage.Save | grid-cli/v0-multibuild/cache_wasm.go:12-15 | the bytes are stored under the hash, and there is never an error |
| WasmCache.WasmCacheStorage.Load | grid-cli/v0-multibuild/cache_wasm.go:17-23 | the loading specification, with the cache unchanged |
| WasmCache.SaveThenLoad | grid-cli/v0-multibuild/cache_wasm.go:12-23 | a save then a load of the same hash gives the bytes |

## Left out

- I/O in general: reading files, the SHA-256 digest, the tokenizer, the OpenAI clients and `strconv.ParseFloat` are parameters. Debug and `fmt` printing is omitted.
- Concurrency: goroutines and channels (`Stage`, `genSlots`, `Start`) are modelled as sequences. Goroutine interleaving is not modelled.
- Floating point: ledger amounts are `real`, so float64 rounding is not modelled. `math.Ceil` on float64 is modelled by integer ceiling division, which is exact below 2^53. `Similarity` (cosine similarity) is left out; SimilarChunks takes the ranking as a parameter.
- GrokStore.Grokker.SimilarChunks: the order `sort.Slice` gives to equal scores is unspecified in Go, so the model accepts any descending ranking that is a permutation of the chunks.
- GrokStore.Grokker.Migrate: the semver library and `migrateDb` are parameters, and the loop is bounded by a fuel count because termination depends on `migrateDb`; running out of fuel is the outcome `Hangs`.
- GrokVersion: the semver library is not part of this model. The reference parse reads strict MAJOR.MINOR.PATCH cores with no leading zeros and no pre-release or build suffix.
- The `version` constant of the Grokker package is not part of this model; the code version is a parameter of `Migrate`.
- Grokker operations outside the named core: `UpdateEmbeddings`, `FindChunks`, `findModel`, `AbsPath`, the question-answering and persistence code.
- `goadapt`'s `Ck`, `Return` and `Assert` are not part of this model. An error passed on by `Ck` is a failure, and an `Assert` or runtime panic is a crash.
- GrokChunks, GrokStore: a Dafny `char` stands for one byte of the Go string (equivalently, the texts are taken to be ASCII). Offsets, lengths and the byte pre-filter of splitChunk are Go byte counts (`ai-agents/api.go:717-733`, `:751`, `:766-775`). For non-ASCII text the model does not capture cuts that fall inside a UTF-8 sequence. GoStrings itself reads a `char` as a code point, as the lexer and Accounting need.
- GrokStore.NotReadable: the error message names the document's RelPath. Go's `ReadFile` error names `g.AbsPath(doc)`; the Grokker's root directory is not modelled.
- GrokEmbed.CreateEmbeddings: a tokenizer error (`Ck(err)` at the `Encode` call) is not modelled; the token count is a total function.
- EmbeddedParser: node pointers shared between parents are not modelled; each node built is fresh.
- Accounting: `printBalanceSheet`, `formatEntries`, `sumMapValues` and `main` are printing, and are left out. `bufio.Scanner`'s line splitting is taken as already done: the ledger is a sequence of lines, and the scanner's read error is left out.
- Accounting.Render: Go's `len` counts bytes and the model counts characters, so padding of non-ASCII cells differs.
- Accounting: `Entry.Date` is recorded but never read by the balance rules.
- Multipass: the `Token` type and `Start` are left out. Regular-expression matching is a parameter returning Go's submatch index pairs.
- Multipass.DefaultMessage: parent links are values, so the identity of a message shared as a parent is not tracked.
- Coparse: the `context.Context` argument is dropped. As written, `NodeBase.Clone` returns `*NodeBase` (`coparse.go:53`), while the `Node` interface asks for `Clone() Node` (`coparse.go:10`). So neither `*NodeBase` nor `*AndT`, which promotes that `Clone`, is a `Node`, and Go would not type-check a call of `Try` or `And` on them. The model reads `Node.Clone` as `NodeBase.Clone` and takes every child to be a NodeBase or AndT value. `Coparse.Try`'s "always fails" rests on this reading. Dispatch on other implementations of `Node` is not modelled.
- GrokStore.UpdatedCrashes: under the size bound the lemma does not promise that only an embedding assertion can crash. A paragraph whose token count equals the limit still overflows the stack (`GrokChunks.SplitChunkDivergesAtLimit`).
- Coparse.Node.Parse: requires the nodes below to form an acyclic graph (`Valid`). Children may share nodes, but on a cycle `AndT.Parse` recurses without end until Go's stack overflows, and that is not modelled.
- IntervalFree: `freeSlots`, `FirstFree`, `findFirst` and `dump` are outside the named core. The tree's own `Conflict` and `conflicts` are a parameter, and `time.Time` is an integer.
- IntervalFree.GenSlots, IntervalFree.FindFree: `interval/interval.go` is not part of this model, so `NewInterval` is taken never to return nil. The source's skips of nil slots (`interval/treeFree.go:157-159`, `:180-182`, `:220-223`) then never apply. The model sends, checks for conflict and tries every slot, including empty or inverted ones. For a duration of 0 or less the trial interval is empty, and an empty slot [s, s) can wrap it and be returned where Go might have skipped a nil slot.
- MctsNode: the `NodeSet` methods `Duration()` and `Fitness()`, called only by the test examples (`node_test.go:118`, `:136`), do not exist in the source. The `Duration` field of `Node` is modelled.
- SyscallTree: a parm that is not a string makes Go panic on `.(string)`; the model types parms as strings. `kernel.go`, `message.go` and the server are not part of this model.
- SyscallTree.Kernel.AskModules: Go's `range` over `node.modules` iterates a copy, so modules appended during the loop are not visited; the model captures this by reading the modules before the loop.
- GridLookup.SubcommandHash: printing the message and `os.Exit(1)` are modelled as an error value carrying the message.
- GridLookup: the model follows `grid-cli/grid/main.go`. The copies of `getSubcommandHash` in `grid/grid.go`, `native/main.go` and `v1-grid/grid.go`, and of `getSymbolTableHash` in `grid/kernel.go` and `grid/kernelNative.go`, are identical to it. The `getSymbolTableHash` of `native/main.go:71-87` differs and is not modelled: on a read failure or a missing key it prints "Configuration file not found." or "Symbol table hash not found in configuration." and exits, instead of returning an error.
- WasmCache: Go slices stored in the map alias the caller's bytes, so a later change to them would show through; the model stores values. A nil map would panic on `Save`; the model's map is always present.

# LanceDB C bindings: ownership, marshalling and filters

This project models the C interface of LanceDB as Dafny code and proves what it promises to a C program:
who owns which allocation after every call, on every path; that lists come back complete or leave no trace;
that expressions, filters and queries mean what the calls spelled; and which error reaches the caller.

## How it is organised

- `Objects.dfy`, `Memory.dfy`, `Heap.dfy`: the process heap. A block has a kind (Rust box, C string, malloc'ed
  block, or a value on the stack of the call in progress) and slots that own other blocks. `Memory` is the theory
  of a heap in which every block has exactly one owner; the class `Heap` performs one allocation, release or pointer
  store at a time, and the preconditions of its methods are the memory rules: release once, with the mechanism that
  allocated, read only what was written, never free an array that still owns its elements. What a program holds is
  `View()`, a map from handles to plain values, so contracts compare states without following pointers.
- `ExprApi.dfy`, `JsonExprApi.dfy`, `QueryApi.dfy`, `TableApi.dfy`, `MetadataApi.dfy`, `ConnectionApi.dfy`,
  `JsonMatches.dfy`: the API functions as methods on that heap, with the loops, branches and rollback paths of the
  Rust code. The table metadata the library stores is the class `MetadataApi.Library`.
- `Marshal.dfy`, `VersionApi.dfy`: lists for C, built in malloc'ed arrays and rolled back by hand. Methods keep a
  ghost snapshot `Apart`, from which it follows that the heap is restored block for block.
- `Calls.dfy`, `Perform.dfy`, `Protocol.dfy`: the whole interface as a state machine, the proof that the methods
  implement it, and the safety of every run of every program that obeys the rules.
- `Spelling.dfy`, `Values.dfy`, `Filters.dfy`, `RequestRuns.dfy`, `HandleRuns.dfy`, `MetadataRuns.dfy`,
  `Ownership.dfy`: what expressions, filters, requests, builders, sessions, results and metadata mean in every run,
  and which handles a call takes, as implemented and as documented.
- `MatchOutcomes.dfy`: what `lancedb_json_matches` reports and writes, said of the engine's own answers.
- `Exprs.dfy`, `Semantics.dfy`, `JsonText.dfy`, `Merge.dfy`, `MetadataMap.dfy`, `Requests.dfy`, `Readers.dfy`,
  `Errors.dfy`, `Messages.dfy`: what expressions, merges, metadata calls, queries, readers and errors mean.

A program is a function from what it has seen so far to its next call; it is well-behaved if, in every run the
state machine allows, it passes live handles of the right kind, distinct where they are consumed, and true counts.
`hide` statements at the top of a body only keep proofs cheap: they name definitions the proof does not need.

Answers of the library, and of every `malloc`, are parameters of a call: results hold for all of them, and where a
call succeeds "exactly if" something holds, that is a condition on its arguments and these answers.

## Assumptions about the library

- The rows, errors and texts it returns are arbitrary. Evaluating a filter on a batch gives one result per row.
- lance applies the entries of one metadata commit in order to a copy of the handle's dataset and may give up at any
  of them; the copy replaces the dataset when the commit succeeds.
- Every table handle has a dataset of its own. Whether it sees what other handles of the table have committed is the
  library's answer, the version `found` of each metadata call; nothing is assumed about it except where
  `MetadataRuns.FindsTheLatest` is a premise.
- A merge replaces a matched row by the first source row with its key when the condition holds, and inserts the
  source rows that match nothing; `Merge.Merged` is that reference interpreter. Whether NULLs in the merge columns
  match each other is its parameter `nullsMatch`.
- Comparison of strings, arithmetic, the JSON path functions and every function applied to NULL are parameters of the
  evaluator; `array_has` of a value and an array is membership, `concat` of strings is concatenation and a cast to
  text is the usual text of a value.
- Numbers and booleans in JSON arrays are listed in canonical text. String elements are listed in canonical text where
  a row below says so (`JsonText.JsonText`), and otherwise as they stand in the document (`JsonText.ReadString`).

## Where the code and its documentation differ

- `include/lancedb.h` documents some transfers of ownership that the code makes only on some paths. A program that
  relies on the documentation leaks the handle exactly if the guard fails (`Ownership.DocumentedHandlesAreGone`):

  | function | documented as taken | taken exactly if |
  |---|---|---|
  | `lancedb_table_add` (lines 866-867) | the reader | the table is not NULL |
  | `lancedb_table_create` (810-811) | the reader | no argument is rejected, the name is readable and the schema imports |
  | `lancedb_record_batch_reader_from_arrow` (1390-1391) | the array | no argument is NULL and the schema imports |
  | `lancedb_registry_insert_provider` (704-705) | the provider | the registry is not NULL and the scheme is readable |
  | `lancedb_query_result_to_arrow` (1311) | the result | no out-pointer is NULL |
  | `lancedb_query_df_filter` (1044), `lancedb_vector_query_df_filter` (1151) | the expression | the query is not NULL |
  | `lancedb_expr_in_list` (1841-1847) | the list elements | the expression is not NULL |

  For `lancedb_record_batch_reader_from_arrow` the reply does not even tell whether the array was taken
  (`Ownership.SameReplyEitherWay`).
- `lancedb_connect_builder_execute` is documented (line 338) to consume the builder on success; the code consumes it
  always. A program that frees the builder after a failure frees it twice
  (`Ownership.FreeingABuilderAfterFailureIsIllegal`). No other call takes more than it documents.
- The list functions, `lancedb_table_get_metadata`, `lancedb_table_nearest_to` and `lancedb_query_result_to_arrow`
  write the count before they allocate, so a call that then fails has still written it. The model follows the code.
- `lancedb_query_result_to_arrow` leaves the message slot untouched when the schema error holds a NUL byte, while
  every other function writes NULL there.
- `lancedb_expr_json_array_has` describes quoting as the way to search string arrays. For elements in canonical text
  that is right exactly for values that need no escapes, and `JsonText` gives a value that is missed. However an
  element is written, a value that needs no escapes is found exactly if the element spells it without escapes.

## Model

| member | source | states |
|---|---|---|
| Protocol.Run | src/expr.rs:143-416 | whole-run safety: for every well-behaved program, any number of calls and any answers of the library and of malloc, every release, read and store respects the heap's rules, each block has exactly one owner and lives where its kind is allocated, the program holds exactly what the state machine says, and once it holds nothing the heap is empty; the calls include those of query.rs, table.rs, connection.rs, index.rs and json.rs listed below |
| Protocol.NoLeaks | src/query.rs:722-750 | no block is left once nothing is held, however ownership was nested |
| Protocol.EveryCallChanges | src/error.rs:157-249 | for every call: success writes no message; a failure adds at most one fresh string, delivered as the message, and nothing else; a new or changed expression, query or table can only come from the calls that make one |
| Protocol.FailuresLeakNothing | src/error.rs:157-261 | after any failing call, releasing its message with lancedb_free_string is legal and leaves the program with nothing it did not hold before; no metadata has been committed |
| Protocol.FailuresNeverAccumulate | src/error.rs:157-261 | at any point of any run, after any number of failing calls whose messages have been released the program holds nothing it did not hold before them, and what it holds is unchanged |
| Protocol.FreeingOnceIsWellBehaved | src/expr.rs:412-416 | a program that builds a handle and frees it once is well-behaved |
| Protocol.FreeingTwiceIsNotWellBehaved | src/expr.rs:406-416 | a program that frees it twice is not, by a concrete run |
| Protocol.RunBuildThenFree | src/expr.rs:406-416 | running the first of these programs on an empty heap leaves it empty |
| Ownership.EveryHandleIsAccountedFor | src/table.rs:73-210 | for every call: a handle is gone afterwards exactly if the call takes it, read off its arguments alone; every other handle is still there with the object it had, unless it is the query or registry the call updates, and is not given out again; so consuming a clone never changes the original and merge_insert leaves its condition alone |
| Ownership.DocumentedHandlesAreGone | include/lancedb.h:806-813 | for every call and every handle the header documents as taken: it is gone afterwards if and only if the guard of that call holds, and otherwise unchanged |
| Ownership.OnlyBuildersAreTakenSilently | include/lancedb.h:338-342 | every handle a call takes is documented as taken, except the builder of a failed lancedb_connect_builder_execute |
| Ownership.FreeingABuilderAfterFailureIsIllegal | src/connection.rs:135-165 | a program that trusts 'on success, the builder is consumed' and frees the builder after a failure is not well-behaved, by a concrete run |
| Ownership.RejectedAddKeepsTheReader | src/table.rs:73-93 | a concrete run of a program that trusts the documentation of lancedb_table_add ends with the reader leaked |
| Ownership.SameReplyEitherWay | src/table.rs:224-296 | a failed schema import, which leaves the array with the caller, and a failed array import, which takes it, can have one and the same reply |
| Spelling.HandlesDenoteTheirSpelling | src/expr.rs:143-404 | after any run of any calls, each live expression handle denotes the term spelled by the calls that produced it, read off the call history alone |
| Spelling.QueriesDenoteTheirSpelling | src/query.rs:137-516 | after any run, a live query object is in the state its own accepted setter calls lead to |
| Spelling.ExecutedRequestsAreTheLastWritten | src/query.rs:524-630 | the request an execution hands to the library has, field by field, the last value the program set on that query, whatever happened in between |
| Spelling.TablesDenoteTheirSpelling | src/connection.rs:558-618 | a live table handle stands for the table it was created or opened on |
| RequestRuns.RequestsHoldTheLastAcceptedCalls | src/query.rs:137-630 | for every execution in every run and every field of its request, in plain words: the field holds what the last setter call that reported success for it was given, or nothing if there has been none since the query was made; a DataFusion filter beats an SQL filter; table and vector are those the query was made with |
| HandleRuns.HandlesHoldTheirSpelling | src/connection.rs:107-799 | after any run, every live connect builder, connection, session, registry, provider, names builder and query result holds exactly what the calls that produced it say: the URI, the accepted options in call order, the providers of the session last attached, the providers inserted by scheme, the last page settings |
| HandleRuns.ConversionsHandOutTheExecution | src/query.rs:641-714 | whatever happened in between, converting a live result hands out the batches the library answered that execution with, one array a batch and each as long as its batch has rows, with a schema of exactly the columns of the first batch; a stream that breaks off is reported as Unknown and nothing is handed out |
| HandleRuns.HandedOutArraysAreAccepted | src/query.rs:695-714 | these arrays with their count are legal arguments of lancedb_json_matches, which counts every row of the stream, and of lancedb_free_arrow_arrays, and the schema of its free; unless a later batch has columns the first has not, every column of every row is in the schema |
| MetadataRuns.StoredIsTheHistory | src/table.rs:869-992 | after any run of any calls, the dataset of a table handle holds what the library last found for that handle, with all entries the run has committed through it since applied in order |
| MetadataRuns.KeysHaveTheirLastUpdate | src/table.rs:869-992 | at any point of any run a key has for a handle the value of the last entry committed through it since the library last found a version for it, or the value in that version |
| MetadataRuns.ChangesLast | src/table.rs:869-992 | reading one's own writes: after a set or delete that reported success, the handle has for a key what the last entry for it said (its value, or no such key) until another successful change through the handle names the key or the library finds another version |
| MetadataRuns.StoredStaysClean | src/table.rs:881-905 | if the versions the library finds are free of NUL bytes, so is what it stores, in any run |
| MetadataRuns.GetsReadWhatIsShown | src/table.rs:759-856 | a successful get anywhere in a run returns two parallel arrays of the selected entries of exactly what its handle shows then, with the strings as they were set; what is selected is MetadataApi.SelectedLists |
| MetadataRuns.GetsListWhatIsShown | src/table.rs:790-856 | the strings in these arrays, in plain words: as many as the count says; without a filter every entry its handle shows exactly once and nothing else, with one the existing filter keys in filter order with their values |
| MetadataRuns.HandlesInStepShowEveryCommit | src/table.rs:917-923 | no commit is lost: if the library always finds the latest version when there is one, a handle since whose last look nobody else has committed shows everything committed to its table through any handle, in the order of the calls |
| MetadataRuns.GetsReadEveryCommit | src/table.rs:790-820 | under the same premise a successful get returns the selected entries of everything committed to its table before it, through whichever handle |
| MetadataRuns.GetsListEveryCommit | src/table.rs:790-856 | in plain words: the strings a C program then reads are every entry committed to the table, each once, or the existing filter keys in filter order |
| MetadataRuns.StaleHandlesMissCommits | src/table.rs:917-923 | the premise is needed: a concrete legal run in which the library does not look, one handle commits a key and a get through another handle of the table returns nothing |
| Filters.AndOrAreBinary | src/expr.rs:244-299 | and/or are legal, consume and produce exactly as binary with And/Or |
| Filters.FlagsAreTheSpelledTruth | src/json.rs:279-416 | whatever a run did before, the flags of a successful lancedb_json_matches are, row by row and batch by batch, the truth of the filter the program spelled, in the three-valued logic that Semantics.TruthTables and Semantics.DeMorgan fix |
| Values.CallsCompute | src/expr.rs:143-404 | for every expression call: the value on a row of what it builds is computed from the values of its operands as the call says, from a column's cell up to the search in the array a JSON path leads to; the functions of json.rs lines 60 to 257 are among them |
| Values.HandlesHaveTheirValues | src/expr.rs:143-404 | after any run, a live expression handle has on every row the value that its calls compute, without a word of the term they build |
| Values.FlagsAreTheComputedValues | src/json.rs:279-416 | and the flag of every row is set if and only if that value is TRUE |
| Perform.Perform | src/connection.rs:135-469 | every legal call, performed on the heap, does what the state machine allows |
| HeapModel.Heap.DropValue | src/expr.rs:412-416 | dropping a box or stack value removes exactly the blocks below it, that is itself and what it owns directly or through other blocks, and leaves every other block as it is |
| HeapModel.Heap.CloneExpr | src/expr.rs:396-404 | cloning copies a tree of any depth into fresh blocks and touches no existing block |
| HeapModel.Heap.Free | src/connection.rs:695-705 | only a malloc'ed block that no longer owns its elements may be freed with libc::free |
| Memory.StoreKeepsForest | src/expr.rs:160-169 | storing a block that takes over held blocks keeps exactly one owner per block and acyclic ownership |
| Memory.RemoveKeepsForest | src/expr.rs:151-159 | removing a held block hands what it owned to the call in progress; nothing is lost or shared |
| Memory.NothingHeldNothingLeft | src/query.rs:722-726 | ownership has no cycles, so a heap in which nothing is held is empty |
| Memory.LaterHasLaterHolder | src/connection.rs:668-679 | from a block added after some earlier state a path of owners leads up through blocks added after it to a handle that was not held then |
| Memory.RestoredExactly | src/connection.rs:668-679 | if no older block was touched and nothing newer is held, the heap is block for block the earlier one |
| ExprApi.ExprBinary | src/expr.rs:143-170 | both operands are consumed even when one is NULL; the result is NULL exactly then and otherwise denotes the binary term |
| ExprApi.ExprAnd | src/expr.rs:244-266 | as binary, with And |
| ExprApi.ExprOr | src/expr.rs:277-299 | as binary, with Or |
| ExprApi.ExprUnary | src/expr.rs:181-233 | not, is_null and is_not_null consume their operand and wrap its term |
| ExprApi.ExprInList | src/expr.rs:312-349 | a NULL expression consumes nothing; otherwise the expression and every non-NULL element are gone wherever NULLs occur; the result is non-NULL exactly if no element was NULL and then holds the element terms in order; at most one message |
| ExprApi.ExprArrayHas | src/expr.rs:361-385 | both operands are consumed on every path; NULL with a message exactly if one was NULL |
| ExprApi.ExprClone | src/expr.rs:396-404 | a fresh handle with the same term; the original is untouched |
| ExprApi.ExprColumn | src/expr.rs:69-82 | a column reference, or NULL exactly for NULL or undecodable names |
| ExprApi.ExprLiteralString | src/expr.rs:92-105 | a string literal, or NULL exactly for NULL or undecodable text |
| ExprApi.ExprLiteral | src/expr.rs:112-132 | integer and boolean literals always succeed |
| JsonExprApi.BuildJsonUdfExpr | src/json.rs:60-90 | consumes the JSON expression whatever the path looks like; yields the call over it and the path literals in order exactly if the path is nonempty and readable |
| JsonExprApi.ExprJsonArrayHas | src/json.rs:205-257 | consumes both operands on every path; the result searches the extracted array for the cast value, wrapped in quotes exactly if asked |
| Semantics.AndOrMatch | src/expr.rs:244-299 | AND matches where both operands match and OR where one does (ISO/IEC 9075:1992, section 8.12, with NULL as no match) |
| Semantics.TruthTables | src/expr.rs:181-299 | AND, OR and NOT have on every row the three-valued results of section 8.12 of ISO/IEC 9075:1992: FALSE decides an AND and TRUE an OR even when the other operand is unknown |
| Semantics.DeMorgan | src/expr.rs:181-299 | on every row NOT (a AND b) equals (NOT a) OR (NOT b), and NOT (a OR b) equals (NOT a) AND (NOT b), as three-valued results |
| Semantics.NullTests | src/expr.rs:202-233 | exactly one of IS NULL and IS NOT NULL matches every row, and IS NULL exactly the rows on which there is no value |
| Semantics.Comparisons | src/expr.rs:143-170 | on every row <> is NOT =, >= is NOT <, <= is NOT > and > is < the other way round, as three-valued results; = holds for equal values, and any comparison without a value is unknown |
| Semantics.NotMatches | src/expr.rs:181-191 | NOT never matches a row its operand matches; together they cover the rows on which it is a truth value |
| Semantics.NotIsComplement | src/expr.rs:181-191 | for a condition, NOT matches exactly the rows its operand does not match and is not NULL on |
| Semantics.InIsOrChain | src/expr.rs:312-349 | a nonempty IN has on every row the same three-valued result as the OR-chain of its equalities (section 8.4) |
| Semantics.NotInIsNotOrChain | src/expr.rs:312-349 | NOT IN has the same three-valued result as NOT of that chain |
| Semantics.EmptyIn | src/expr.rs:325-348 | an empty IN is false and an empty NOT IN true on every row, even for a NULL operand |
| Semantics.ColumnsRefineRows | src/json.rs:382-401 | evaluating by columns, with scalars broadcast, gives in every row the row's own value |
| Semantics.TypesAreSound | src/json.rs:318-325 | an expression evaluates to a value of its type or to NULL |
| Semantics.UnaryTypes | src/json.rs:318-325 | which unary conditions have a type: tests for NULL of anything, NOT of conditions only |
| Semantics.BinaryTypes | src/json.rs:318-325 | which binary conditions have a type: AND and OR of conditions, comparisons of scalars of one type, arithmetic on integers, and searches |
| Semantics.FlagsAreTruths | src/json.rs:367-412 | the flags over all batches are the truth of the filter on all rows, in order |
| Semantics.FlagsOfAndOr | src/json.rs:406-410 | the flags of AND/OR are the pointwise and/or of the operands' flags |
| Semantics.FlagsOfDeMorgan | src/json.rs:406-410 | the flags of NOT (a AND b) are the pointwise or of the flags of NOT a and NOT b, and those of NOT (a OR b) their pointwise and |
| Semantics.FlagsOfNot | src/json.rs:406-410 | the flags of NOT never agree with the operand's on a match |
| Semantics.FlagsOfIn | src/json.rs:406-410 | IN and NOT IN give the same flags as the chain of equalities and its negation |
| Semantics.QuoteFlagIsSound | src/json.rs:187-257 | for any value expression that is not NULL on the row and elements in canonical text: with the flag that fits the value a row matches exactly if its array holds the value; with the other flag no homogeneous array of the value's kind matches; strings must need no escapes |
| Semantics.ArraySearch | src/json.rs:237-256 | for any value expression and any texts listed, the expression built evaluates to whether some element has the search text |
| Semantics.SearchedText | src/json.rs:237-256 | in plain words: the list is searched for the string itself, the integer in decimal, or true or false, put between quotation marks if asked |
| Semantics.QuotedSearchFindsUnescapedElements | src/json.rs:187-257 | however the elements are written: for a string value that needs no escapes a quoted search matches exactly the rows whose array has that string spelled without escapes |
| Semantics.SearchWithoutValue | src/json.rs:237-256 | a NULL value reaches the engine's array_has and concat as NULL, and nothing else decides the answer |
| Semantics.SearchWithoutArray | src/json.rs:237-256 | without an array the answer is the engine's array_has of what the JSON function returned |
| JsonText.QuotedFindsTheString | src/json.rs:191-193 | for elements in canonical text, a quoted value that needs no escapes equals an element exactly if that is the string |
| JsonText.QuotingIsSoundIffNothingNeedsEscapes | src/json.rs:191-197 | for elements in canonical text, quoting a string finds exactly the elements equal to it if and only if the string needs no escapes (RFC 8259, section 7) |
| JsonText.CanonicalIsRead | src/json.rs:187-197 | reading the canonical text of any string gives the string back |
| JsonText.QuotedSearchReadsTheText | src/json.rs:187-197 | for string elements in any spelling: a value without a backslash is found exactly in the elements that are this string written without escapes, and a value with one only in elements that are another string |
| JsonText.QuotedSearchInAnyTexts | src/json.rs:240-253 | over whole arrays of any texts |
| JsonText.QuotedNewlineIsMissed | src/json.rs:191-197 | a concrete value, with a newline, that the quoted search misses |
| JsonText.UnquotedFindsTheInteger | src/json.rs:194-195 | the unquoted text of an integer equals exactly the element that is that number |
| JsonText.UnquotedFindsTheBoolean | src/json.rs:194-195 | the unquoted text of a boolean equals exactly the element that is that boolean |
| JsonText.IntegersHaveOneText | src/json.rs:194-195 | a text is the text of an integer if and only if it reads as that integer in decimal, without leading zeros or a negative zero |
| JsonText.StringSearch | src/json.rs:240-253 | over whole arrays in canonical text: membership with the right flag, nothing with the wrong one |
| JsonText.IntegerSearch | src/json.rs:240-253 | the same for integers |
| JsonText.BooleanSearch | src/json.rs:240-253 | the same for booleans |
| JsonMatches.NonOwningImport | src/json.rs:48-58 | the imported copy has no release callback, so dropping it cannot release the caller's buffers |
| JsonMatches.CountRows | src/json.rs:327-350 | the first pass returns the exact mathematical sum of the lengths, or fails exactly if a pointer is NULL, a length negative or the sum exceeds usize |
| JsonMatches.FillAll | src/json.rs:367-412 | the second pass fills the buffer exactly, never writing outside it; at the first batch that fails the buffer is freed and that batch decides code and message (which, for each answer of the engine, is MatchOutcomes) |
| JsonMatches.FillBatch | src/json.rs:406-411 | writes the flags of one batch from the offset on and leaves the rest of the buffer alone |
| JsonMatches.MatchBatches | src/json.rs:301-415 | succeeds if and only if planning and counting succeed and, for a nonzero count, malloc grants the buffer and every batch evaluates; a failure has the code and text of the first thing that goes wrong; what evaluating means is said of the engine in MatchOutcomes |
| JsonMatches.FlatAt | src/json.rs:406-411 | the flag of row j of batch i stands at the number of rows of the earlier batches plus j and is true exactly if the expression is non-NULL and true there |
| JsonMatches.FlatLength | src/json.rs:411-415 | the flags of all batches together are as many as the sum of the lengths |
| JsonMatches.JsonMatches | src/json.rs:279-416 | the expression is consumed exactly once on every path and the batches never; success is characterised exactly by the arguments, the engine and malloc's answer; every failure has its one code and text, leaves no buffer, both outputs unwritten and at most one message |
| JsonMatches.FailuresAreDetermined | src/json.rs:301-415 | success and failure exclude each other, and a failure has one code and one text: that of the schema, the plan, the first batch that spoils the count, malloc, or the first batch that fails |
| MatchOutcomes.PlanningIsReported | src/json.rs:301-325 | a schema that cannot be imported is reported as Arrow, one that cannot be used and an expression that has no plan as Other, each with the text of its error, and before any batch is looked at |
| MatchOutcomes.CountingIsReported | src/json.rs:327-350 | then the first batch that is NULL, has a negative length or makes the total exceed 64 bits is reported as InvalidArgument, with its own text |
| MatchOutcomes.NoRowsAndNoMemory | src/json.rs:352-366 | a count of zero succeeds without a buffer; otherwise a malloc that fails is reported as Other with its own text |
| MatchOutcomes.SuccessIsAnAnswerForEveryBatch | src/json.rs:367-404 | with rows and memory the call succeeds if and only if every batch can be imported and the engine answers with a Boolean column or a Boolean scalar for it |
| MatchOutcomes.TheFirstBatchWithoutAnAnswerIsBlamed | src/json.rs:367-404 | otherwise the first other batch is reported: a failed import as Arrow, a failed evaluation or broadcast as Other, each with its text, and an answer of another type as InvalidArgument with a text that names the type |
| MatchOutcomes.FlagsAreTheAnswers | src/json.rs:400-415 | the flag of row j of batch i stands after those of all earlier batches and is set if and only if the engine answered TRUE in cell j of that batch, or with the scalar TRUE |
| JsonMatches.FreeJsonMatches | src/json.rs:423-427 | releases the result buffer with free |
| Marshal.ReturnStrings | src/connection.rs:646-686 | a listing succeeds if and only if the library answered and the list is empty or malloc grants memory and no string holds a NUL byte, and then is that list; a failure has its code and leaves every block as it was apart from the message |
| Marshal.FillStrings | src/connection.rs:662-681 | a NUL in string i releases exactly the strings made so far and the array |
| Marshal.ListReadAndFree | src/connection.rs:632-705 | C reads the list in order if and only if it is empty or malloc grants memory and no string holds a NUL byte; the paired free with the returned count restores the heap block for block |
| Marshal.FreeStrings | src/connection.rs:695-705 | frees the strings as C strings and the array as a malloc'ed block |
| VersionApi.MarshalPairs | src/table.rs:628-668 | two parallel arrays are built if and only if both mallocs grant memory, and otherwise neither; a NUL turns a string into the empty one |
| VersionApi.BuildVersions | src/table.rs:604-683 | succeeds if and only if every malloc it needs grants memory, and then holds all versions in order; wherever malloc fails, including in the middle of a version's arrays, every block is what it was before |
| VersionApi.ListVersions | src/table.rs:596-689 | succeeds if and only if the library answered and every malloc needed grants memory; all versions and entries are then readable in order; failures write neither output and roll back block for block |
| TableApi.TableListVersions | src/table.rs:578-600 | the same, after checking the arguments |
| VersionApi.FreeVersions | src/table.rs:719-724 | frees the version array |
| VersionApi.FreeMetadataArray | src/table.rs:692-711 | frees both string arrays of every entry, each string as a C string, and then the array, touching nothing older |
| VersionApi.FreeVersionMetadata | src/table.rs:733-743 | frees the nested arrays entry by entry, reading only written slots |
| VersionApi.ListAndFree | src/table.rs:578-743 | C reads every version with its entries in order, NUL-bearing strings as empty ones, if and only if every malloc needed grants memory; freeing with the returned count restores the heap block for block |
| TableApi.ListIndices | src/index.rs:450-507 | the index listing is the same marshalling, with the same exact condition, after checking its arguments |
| ConnectionApi.ListNames | src/connection.rs:1193-1262 | table names and namespaces, with the same exact condition, after checking their arguments |
| QueryApi.QueryNew | src/query.rs:71-129 | a query object with nothing set, or NULL exactly for the rejected arguments |
| QueryApi.SetNumber | src/query.rs:440-516 | sets one field of a live query; a rejected call changes nothing but the message |
| QueryApi.SetText | src/query.rs:223-243 | the SQL filter, and the search column of vector queries; NULL and undecodable text change nothing but the message |
| QueryApi.SetSelect | src/query.rs:181-214 | all columns are set, or none |
| QueryApi.SetDfFilter | src/query.rs:253-266 | a rejected call consumes nothing; an accepted one takes the expression and releases the replaced filter exactly once |
| QueryApi.QueryExecute | src/query.rs:524-562 | the query and its filter are consumed on every path; the request is the fold of its fields |
| Requests.BuildRequest | src/query.rs:570-620 | folding the fields one by one, the DataFusion filter beats the SQL filter |
| Requests.LastWriteWins | src/query.rs:137-516 | for any interleaving of accepted and rejected setters the request depends only on the last accepted value per field |
| Requests.NearestToRequest | src/table.rs:492-500 | for limit > 0, nearest_to builds the request of the vector-query path |
| QueryApi.ResultToArrow | src/query.rs:641-714 | rejected arguments consume nothing, otherwise the result is consumed; succeeds if and only if the stream and the schema do and malloc grants the array; the schema is released again if malloc fails; a schema error with a NUL byte leaves the slot alone |
| QueryApi.ExportBatches | src/query.rs:663-706 | the count is written first; arrays and schema both exist afterwards, exactly if there are no batches or the schema converts and malloc grants the array, or neither does and at most a message was added |
| QueryApi.FreeArrowArrays | src/query.rs:759-772 | drops each boxed array and frees the malloc'ed array |
| QueryApi.BoxFree | src/query.rs:722-750 | every free of the form 'drop the box unless NULL' releases the handle with all it owns |
| Readers.SingleBatchReader.Next | src/table.rs:267-278 | yields the batch once and first, then None; exhausted exactly if the batch slot is empty |
| Readers.SingleBatchReader.Calls | src/table.rs:267-278 | any number of next calls yields the batches once, in order, and None forever after |
| Readers.SingleBatchReader.Drain | src/table.rs:267-278 | draining transfers exactly the remaining batches |
| TableApi.ReaderFromArrow | src/table.rs:224-296 | the array is taken once the schema has been imported, also if its own import then fails; the reader then owns the array's buffers and holds exactly its rows |
| TableApi.TableAdd | src/table.rs:73-93 | a call rejected for a NULL argument consumes nothing; otherwise the reader goes to the library, which receives its one batch, and its buffers are released |
| TableApi.TableMergeInsert | src/table.rs:114-210 | the reader is consumed on every path and the condition expression on none; the library is called exactly if the pointers are there, there is at least one column, all are readable, and an update has at most one condition and a readable one; it receives the rows of the reader and a plan that names the columns given, inserts if and only if the configuration is NULL or its insert flag is set, updates if and only if it is NULL or its update flag is set, and whose condition is the caller's expression, the caller's SQL text or none, as the two pointers say |
| TableApi.BuildPlan | src/table.rs:133-203 | columns and configuration are read to the plan that TableApi.PlansFit describes; a condition expression is cloned |
| TableApi.PlansFit | src/table.rs:133-203 | which arguments are accepted and which plan they give, said of the fields of the configuration: the two flags, the SQL text and the expression; both conditions together are rejected only when updating is on |
| TableApi.FlagsDecideTheMerge | src/table.rs:189-203 | with the insert flag off the merged table has as many rows as before, and otherwise grows by exactly the source rows that match nothing; with the update flag off its old rows are untouched |
| TableApi.TableDfDelete | src/table.rs:412-435 | the expression is consumed even when the table is NULL |
| TableApi.NearestTo | src/table.rs:452-548 | rejects exactly the bad arguments, searches with the vector, the limit, the column if there is one and nothing else, and converts like query_result_to_arrow, with the same exact condition for success |
| Merge.NullConfigIsUpsert | src/table.rs:189-203 | a NULL configuration does to every table what both flags without a condition do |
| Merge.NoFlagsNoChange | src/table.rs:189-198 | with both flags off the table stays as it is |
| Merge.ConditionsNeedUpdates | src/table.rs:152-172 | with updating off, conditions are neither rejected nor used |
| Merge.RowCount | src/table.rs:195-203 | inserting adds exactly one row per source row that matches nothing; otherwise the number of rows is unchanged |
| Merge.MatchedRows | src/table.rs:186-194 | an old row becomes the first source row with its key exactly if the plan updates, the key can match and the condition holds for the two; otherwise it stays as it is |
| Merge.KeysAgree | src/table.rs:186-187 | two rows have the same key exactly if they agree on every merge column |
| Merge.UnmatchedAre | src/table.rs:195-197 | the inserted rows are exactly the source rows that match no row of the table |
| Merge.KeysAfterMerge | src/table.rs:186-203 | afterwards the table has its own keys and, if rows are inserted, those of the source |
| Merge.UpsertIsIdempotent | src/table.rs:200-203 | an unconditional upsert of rows with unique keys, repeated, changes nothing if and only if every source row has a key that can match: with NULLs not matching, a row without a key is inserted again |
| Merge.UpsertStores | src/table.rs:200-203 | after it, every row with the key of a source row that can match is that source row, and there is one |
| MetadataMap.ReadUpdates | src/table.rs:881-905 | the entries are read in order, or the call is rejected at the first unreadable string |
| MetadataApi.ChangeMetadata | src/table.rs:869-927 | set and delete change the map of the handle's dataset by all of their entries or not at all, whichever entry the library fails at, with the code of each outcome; delete works the same way at src/table.rs lines 940 to 992 |
| MetadataApi.Library.Update | src/table.rs:917-923 | the entries are applied one by one to a copy, which replaces the dataset as a whole; if the library fails at any entry, or when committing, the dataset is unchanged |
| MetadataMap.FilteredIsExact | src/table.rs:797-814 | a filtered get returns exactly the filter keys that exist, with their current values |
| MetadataMap.FilteredAppends | src/table.rs:797-814 | in filter order |
| MetadataMap.FilteredPicks | src/table.rs:797-814 | the entries returned stand at ascending positions of the filter, and no position whose key exists is left out |
| MetadataMap.UnfilteredIsPermutation | src/table.rs:815-820 | reading the map in any order of its keys gives each entry exactly once; that a get does so is MetadataApi.SelectedLists |
| MetadataApi.GetMetadata | src/table.rs:759-856 | every rejection; otherwise succeeds if and only if nothing is selected or both mallocs grant memory, with two parallel arrays of the selected entries (MetadataApi.SelectedLists) of the handle's dataset, refreshed if the library finds a newer one; a failure rolls back block for block |
| MetadataApi.SelectedLists | src/table.rs:797-820 | what a get selects: without a filter pairwise distinct pairs, (k, v) being among them if and only if the map has v under k; with one exactly the entries at the positions of the filter whose keys exist, in the order of the filter |
| MetadataApi.RejectedGets | src/table.rs:759-815 | a get is rejected exactly for a missing argument, a filter without keys or a key that cannot be read; otherwise it reports the library's error with its code and text, or Unknown if there was something to list and malloc failed |
| MetadataApi.RejectedChanges | src/table.rs:869-992 | a set or delete is rejected exactly for a missing array, no entries or an unreadable string; otherwise it succeeds if and only if the library accepts it and reports the library's error with its code and text |
| MetadataApi.FreeMetadata | src/table.rs:1001-1024 | frees both arrays and their strings, or skips a NULL array |
| MetadataApi.CleanEntriesReadBack | src/table.rs:845-850 | for strings set through the API the empty-string fallback is never taken |
| MetadataApi.GetReadAndFree | src/table.rs:759-1024 | C reads the entries exactly if the call is accepted and nothing is selected or both mallocs grant memory; for a map without NUL bytes what it reads lists the map, or the existing filter keys in filter order, with the stored values; lancedb_free_metadata then restores the heap block for block |
| ConnectionApi.Connect | src/connection.rs:107-122 | a builder, or NULL exactly for an unreadable URI |
| ConnectionApi.StorageOption | src/connection.rs:179-209 | the builder is consumed even if a string is rejected; the new one has the same URI and session and one option more, at the end |
| ConnectionApi.BuilderSession | src/connection.rs:222-245 | the builder is replaced by one with the session's providers, or the same session as before for NULL; the session is only shared |
| ConnectionApi.BuilderExecute | src/connection.rs:135-165 | the builder is consumed even if the out-pointer is NULL |
| ConnectionApi.SessionNew | src/connection.rs:359-371 | a registry is consumed and its providers live on in the session; without one the session has the defaults |
| ConnectionApi.RegistryNew | src/connection.rs:382-386 | a fresh registry with the default providers |
| ConnectionApi.InsertProvider | src/connection.rs:435-469 | the provider is consumed only once the scheme has been read, and also when it turns out to be uninitialised |
| ConnectionApi.TableCreate | src/connection.rs:558-618 | the reader is consumed exactly if the arguments are accepted and the schema imports, that is even if the name is then rejected |
| ConnectionApi.CreationsReport | src/connection.rs:558-618 | with accepted arguments the first of these is reported: a schema that does not import, as InvalidInput; a bad name; a failed creation |
| ConnectionApi.OpenTable | src/connection.rs:920-953 | a table handle exactly on success, otherwise at most a message |
| ConnectionApi.NamesBuilder | src/connection.rs:716-731 | a names builder for the connection, or NULL exactly for a NULL connection |
| ConnectionApi.SetPage | src/connection.rs:743-799 | the names builder is consumed even if the name is rejected; the new one differs in the one setting |
| ConnectionApi.NamesExecute | src/connection.rs:814-877 | the names builder is consumed even if an out-pointer is NULL; the listing succeeds under the same exact condition |
| Errors.WrappingNeverLowersTheRank | src/error.rs:55-154 | embedding a message in any longer one never lowers the rank of its code, and keeps the code where the rank does not rise |
| Errors.RecoveredCodes | src/error.rs:102-154 | which message yields which recovered code, in both directions |
| Errors.LibraryErrorsHaveTheirOwnCodes | src/error.rs:102-154 | no library error is reported as Success, InvalidArgument or Unknown; which of the other codes each has is Errors.CodesOfErrors |
| Errors.CodesOfErrors | src/error.rs:55-154 | for every code, in both directions, which errors are reported with it, with the searched texts written out: TableNotFound, say, exactly for a table that was not found, or a runtime or lance error whose text contains "Table not found:" |
| Errors.UnsearchedKindsHaveTheirOwnCodes | src/error.rs:102-154 | two errors whose texts are not searched share a code only if they are of one kind or both report Other |
| Messages.SetMessage | src/error.rs:188-249 | writes one fresh string, or NULL exactly if the text holds a NUL byte, and only if there is a slot |
| Messages.HandleError | src/error.rs:157-185 | the one code the error reports, with the searched texts written out (Errors.Reports), and its rendered text |
| Messages.ConcludedCallsReport | src/error.rs:157-249 | a call that ends with the library reports InvalidArgument and its fixed text for rejected arguments, success, or the code and text of the library's error, and nothing else |
| Messages.FailuresDeliverTheirText | src/error.rs:157-249 | after a failure a caller who gave a slot holds a fresh string with exactly the text of the failure, unless that has a NUL byte |
| Messages.FreeString | src/error.rs:257-261 | releases a message as a C string |

## Left out

- The LanceDB engine: search, indexing, storage and versions on disk, and the tokio runtime.
- Paging by `start_after`, `limit` and `offset`: the values are forwarded, their effect is the library's.
- Calls that only pass strings on: `lancedb_table_delete`, `lancedb_table_version`, `lancedb_table_count_rows`, drop, rename and namespace calls, index creation, statistics and optimisation.
- `lancedb_table_arrow_schema`, `lancedb_connection_uri` with its cached string, and `lancedb_run_on_stack`.
- Floating point: `lancedb_expr_literal_f64`, vectors as anything but opaque numbers, and the types of float functions.
- UTF-8 decoding: a C string argument is NULL, undecodable or readable text.
- Struct layout: the bitwise copy of an Arrow array is modelled by its effect, a copy without release callback.
- Address reuse: an address is never handed out twice by the model's heap; the state machine itself allows it.
- Inline values: a Rust struct that stores another value inline is modelled as one block per expression node, and a Vec's buffer belongs to its owner.
- The order of a message and the end of scope of a consumed value within one failing call, which no caller can observe.
- Aborts: Box, CString and Vec allocations are assumed to succeed, as Rust aborts otherwise.
- One object serves for plain and vector queries; the setters a plain query lacks are simply not called on it.
- Requests.NearestToRequest: says nothing about limit 0, which the call rejects before it builds a request.
- ConnectionApi.SessionNew: a provider's object is a value, not a block, because the code keeps it behind a reference count (`Arc`) that the registry, the session and every builder made from the session share; only the boxes have one owner each, and those are modelled.
- ConnectionApi.InsertProvider: for the same reason; what is proved is when the provider's box goes and that the registry then holds its object.
- Semantics.EmptyIn: what the engine does with an empty list is taken from ISO/IEC 9075:1992 extended to no elements, since the standard's own grammar excludes it.
- JSON array elements that are arrays, objects or fractional numbers: the elements of the model are strings, integers, booleans and null.
- The struct a caller passes to `lancedb_record_batch_reader_from_arrow` stays the caller's memory; only what its release callback would free is modelled.
- QueryApi.QueryExecute: a vector that the library's `nearest_to` rejects counts as an error of the execution, so the request is reported although it was not finished.
- HandleRuns.ConversionsHandOutTheExecution: a batch is its rows and a schema the set of columns they have, so column types and nullability are not modelled, and a first batch without rows exports a schema without columns.
- A wrong kind of handle passed to a free function: C types rule it out, so one free call stands for all that drop a box.

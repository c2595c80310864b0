# Verification of the trace store, the ingest queue and the trace views

This project models four parts of smelldeadfish in Dafny and proves what they promise.

* **The span store** (`Otlp`, `LawfulCodec`, `SpanStore`, `Tables`, `StoreRefinement`, `SqliteTx`, `Retry`, `Ingestion`,
  `SqliteSink`, `BatchLoad`, `ChildLoad`, `SpanQueries`, `TraceQueries`, `TraceRows`, `TiedNames`, `QueryRetry`,
  `RequestSpans`, `RoundTrip`, `Search`, `SummaryAgreement`, `WriteThenRead`). A request is spread over ten tables by methods on a transaction
  object, every statement of which may fail; spans whose `(trace_id, span_id)` key is taken are skipped;
  busy attempts are retried. Queries load rows in chunks of ids and put spans together again. The centre is a simple
  view of the tables as a list of span records (`Tables.View`): ingesting refines "offer each record, the first one for
  a key wins", and every query is stated on that list.
* **The queue** (`QueueSink`). Producers, worker and closers are interleaved one atomic step at a time. That every
  accepted request is consumed is false of the code, because a producer that passed the first check can still send
  after the worker has left; the exact guarantee, the exact bound and the exact condition are proved.
* **The span forest** (`SpanForest`, `SpanRows`, `SpanTree`). The node graph is built, sorted, numbered and walked as
  heap objects; the result is proved equal to a forest defined on values, whose members and shape are then characterised
  for every list of spans, with duplicate ids, self-parents and cycles.
* **The search client** (`UseTraces`, `SearchUrl`, `Millis`). The fetching hook is a state machine whose fetches may
  resolve late; the URL printer and parser are inverse; the server reads the client's parameters; millisecond and
  nanosecond conversions are taken in binary64 arithmetic.

`Seqs`, `Sorting` and `Texts` hold the shared facts on sequences, insertion sort and strings.

## How the pieces fit

A statement of SQL has its plain relational meaning: a `SELECT` without `ORDER BY` returns its rows in any order (the
select methods promise only a multiset), ties of an `ORDER BY` come in any order, and loops over Go maps pick any key.
Row ids are fresh numbers; the code compares ids only for equality, so the counter stands for version 7 UUIDs
(section 5.7 of RFC 9562) that never repeat. A transaction that is rolled back leaves the tables as they were; a commit
may be reported as failed although it took effect.

Float formatting and JSON text are the fields of `Otlp.Codec`, with the laws of `Otlp.Lawful`; JSON numbers are doubles,
so integers inside arrays and lists come back as doubles (`Otlp.ThroughJson`). JavaScript's number texts are the fields
of `SearchUrl.NumberText`, with the laws of `SearchUrl.Lawful`. Both sets of laws are consistent:
`LawfulCodec.SomeCodecIsLawful` meets the first with texts of its own making, which are not those of the program, and
`SearchUrl.DecimalIsLawful` meets the second with plain decimals.

Where the code falls short of what one would expect of it, the code is kept and the exact condition is proved:

* an accepted request may never be consumed: `QueueSink.AcceptedButNeverConsumed`; exactly when, seen from any Close
  as it begins, `QueueSink.CleanIffNonePassedAtClose`, and seen from the worker's exit,
  `QueueSink.AllConsumedIffNonePassed`;
* `Consume` may return nil although nothing was stored, if the deadline has passed and the context's error is not set
  yet: `SqliteSink.ExpiredAtEntry`, `SqliteSink.ExpiredWhileSleeping`; exactly when, `Retry.NilMeansSuccess`;
* for the same reason a query may return no error and too few rows: `SqliteSink.NoTracesAtEntry`,
  `SqliteSink.NilWithoutAnswer`; exactly when, `Retry.NilMeansSuccess` again;
* one query may have two answers that differ in a root name: `TiedNames.TiedRoots`; exactly when,
  `TraceQueries.RootNameDetermined` for a trace and `TraceQueries.PrefixIffDetermined` for an answer;
* an empty span id has the same key as eight zero bytes: exactly these, `Otlp.SpanIDInjective`;
* a list with a repeated attribute key may be loaded in more than one way: `BatchLoad.RepeatedKey`; exactly when,
  `BatchLoad.LoadDetermined`;
* an answer may be shown for a query it does not belong to: `UseTraces.StaleHappens`; exactly when,
  `UseTraces.StaleExactly`;
* a filter whose key contains `=` reaches the server as another pair: `SearchUrl.KeyWithEquals`; exactly when,
  `SearchUrl.ServerReadsPrinted`;
* a URL rewritten from a query may be one millisecond early: `Millis.OneIsLost`; exactly when, `Millis.ThereAndBackIs`.

## Model

| member | source | states |
|---|---|---|
| QueueSink.FifoConservation | internal/ingest/queue.go:28-64 | in every reachable state the accepted requests are the consumed, then the one in flight, then the buffered; none twice; at most consumed + 1 + size of them, or consumed + 2 for a size that is not positive; only calls that returned nil were enqueued |
| QueueSink.CallReturns | internal/ingest/queue.go:47-64 | over every run: a call with a request and a sink that returned nil is among the accepted; nil for a request that was not accepted is returned only if there was nothing to deliver; ErrQueueClosed is returned only after a close signal and never for an accepted request; the context's error is returned exactly by the calls that saw their context end |
| QueueSink.SendsUpTo | internal/ingest/queue.go:31-44 | a call past the first select can send if and only if fewer than size requests are buffered, or none for a size that is not positive |
| QueueSink.ExitDrains | internal/ingest/queue.go:84-101 | whatever was accepted before the worker's exit is, in order, consumed by the time of the exit |
| QueueSink.CloseGuarantee | internal/ingest/queue.go:66-101 | when any Close has returned, the worker has exited and everything accepted at any moment before that exit was consumed |
| QueueSink.StrandedBound | internal/ingest/queue.go:56-101 | from the worker's exit on, consumed is final, the rest of what is accepted stays in the channel: at most min(capacity, calls between the two selects), all sent by those calls |
| QueueSink.StrandedAttained | internal/ingest/queue.go:56-63 | the bound is exact: any number within it can be stranded |
| QueueSink.AllConsumedIffNonePassed | internal/ingest/queue.go:51-63 | "every accepted request is consumed" holds of all continuations if and only if no call is between the two selects when the worker exits |
| QueueSink.CleanIffNonePassedAtClose | internal/ingest/queue.go:51-82 | of any Close, the first or a later one: "when it has returned, every accepted request was consumed" holds of all continuations if and only if no call is between the two selects when it begins and, should the worker have left by then, the channel is empty |
| QueueSink.AcceptedButNeverConsumed | internal/ingest/queue.go:47-101 | a concrete interleaving in which Close has returned and an accepted request is not consumed |
| QueueSink.NoLateAcceptance | internal/ingest/queue.go:51-55 | a call that begins after the close signal is never accepted |
| QueueSink.InnerCloseIsLast | internal/ingest/queue.go:66-82 | the inner sink is closed at most once, after the worker's exit, and is handed nothing afterwards |
| QueueSink.StepLowersMeasure | internal/ingest/queue.go:51-101 | every step of every goroutine lowers an explicit measure of the work left |
| QueueSink.ShutdownNeverStuck | internal/ingest/queue.go:51-101 | after the signal some step is possible until everything has returned |
| QueueSink.ShutdownCompletes | internal/ingest/queue.go:66-101 | after the signal a run has at most Measure steps, and either some step continues it or everything has returned and a closable inner sink was closed exactly once |
| QueueSink.RestWithoutClose | internal/ingest/queue.go:47-101 | without a Close and without any context ending some step is always possible, unless all calls have returned and all accepted requests are consumed |
| SpanForest.ForestExact | web/src/utils/spanTree.ts:11-61 | for every list of spans the flattened forest holds, exactly once each, the last span given for each id from which a chain of parents, each the last span given for the id the one before names, reaches a span that names none, or sixteen zeros, or one not given; at the depth of that chain, and nothing else |
| SpanForest.ChildBelowParent | web/src/utils/spanTree.ts:17-30 | a span is shown one level below the span it names as its parent, if and only if that one is shown |
| SpanForest.TopIffNoParent | web/src/utils/spanTree.ts:17-30 | a span is shown at the top if and only if it names no parent, or sixteen zeros, or one that was not given |
| SpanForest.OmittedIffCycle | web/src/utils/spanTree.ts:17-30 | a span is left out if and only if a chain of parents from it meets a span twice |
| SpanForest.TableHoldsLast | web/src/utils/spanTree.ts:12-15 | the node map has each id once, with the last span given for it |
| SpanForest.TableInFirstOrder | web/src/utils/spanTree.ts:12-15 | the node map lists the ids in the order in which they were first given |
| SpanRows.FlatListShowsParents | web/src/utils/spanTree.ts:40-61 | the parent of each non-root row is the nearest earlier row that is shallower, and it is one level up |
| SpanRows.ForestInStartOrder | web/src/utils/spanTree.ts:32-38 | siblings are in start order at every level |
| SpanRows.SiblingsStable | web/src/utils/spanTree.ts:32-38 | in the forest of any list of spans, roots that start together, and at every level children of one span that start together, keep the order of the node map |
| SpanRows.RebuildFlatten | web/src/utils/spanTree.ts:40-61 | the rows and their depths give back the same forest: subtrees are contiguous, nothing is lost |
| SpanRows.ForestDistinctIds | web/src/utils/spanTree.ts:12-30 | no id occurs twice in the forest of any list of spans |
| SpanRows.ExpandedShowsUncollapsed | web/src/components/trace/SpanTree.tsx:6-18 | the collapsed view is the flat list without the rows that have a collapsed proper ancestor |
| SpanRows.ExpandAllShowsAll | web/src/components/trace/SpanTree.tsx:6-18 | with every id expanded the view is the flat list |
| SpanRows.OpensExpanded | web/src/components/trace/TraceDetail.tsx:65-71 | for every list of spans the view a trace opens with, all given ids expanded, is its whole flat list |
| SpanRows.CollapseRemovesBlock | web/src/components/trace/TraceDetail.tsx:78-88 | collapsing a visible expanded node removes exactly its visible descendants, one contiguous block right after it |
| SpanRows.CollapseUnseen | web/src/components/trace/TraceDetail.tsx:78-88 | collapsing a node that is not visible changes nothing |
| SpanRows.ToggleIs | web/src/components/trace/TraceDetail.tsx:78-88 | a click changes whether the id is expanded, and no other id |
| SpanRows.ToggleTwice | web/src/components/trace/TraceDetail.tsx:78-88 | toggling twice restores the view |
| SpanTree.CollectNodes | web/src/utils/spanTree.ts:12-15 | the map holds a fresh node for each id, with the keys in first-insertion order and the last span of each |
| SpanTree.LinkNodes | web/src/utils/spanTree.ts:17-30 | each node is linked once, in map order: among the roots if it names no parent, or sixteen zeros, or one without a node, and else among the children of the node it names |
| SpanTree.SortTree | web/src/utils/spanTree.ts:32-38 | every list of children reachable from the roots becomes the stable sort of what it was |
| SpanTree.AssignDepth | web/src/utils/spanTree.ts:40-46 | every reachable node gets the length of its path from the roots |
| SpanTree.BuildSpanTree | web/src/utils/spanTree.ts:11-49 | the heap graph that is returned represents the value forest, depths included; it terminates on every input |
| SpanTree.FlattenSpans | web/src/utils/spanTree.ts:51-61 | the recursive walk lists the rows of the value forest in preorder |
| SpanTree.ShownRows | web/src/components/trace/SpanTree.tsx:37-38 | the component's two passes list the rows of the collapsed view |
| Texts.HexReads | internal/ingest/stdout.go:77-89 | an id is written with two lower-case digits a byte, the higher one first, which together are worth the byte |
| Otlp.TraceIDInjective | internal/ingest/stdout.go:77-82 | formatted trace ids are equal only if the ids are |
| Otlp.SpanIDInjective | internal/ingest/stdout.go:84-89 | formatted span ids are equal if and only if the ids are, or both are empty or eight zero bytes |
| Otlp.KeyValueListToMap | internal/ingest/sqlite/sink.go:1120-1129 | the map has exactly the keys of the list, and under each the value of the last field with that key |
| Otlp.AttributeRoundTrip | internal/ingest/sqlite/sink.go:991-1083 | a value that can be formatted is read back as a value that ReadAs relates to it: strings, integers, doubles and bools as themselves, bytes as two hex digits each, arrays element by element, lists key by key with the last field counting, integers inside containers as doubles |
| Otlp.OneIsRead | internal/ingest/sqlite/sink.go:1085-1129 | ReadAs relates each value to one value only |
| Otlp.FormattableIs | internal/ingest/sqlite/sink.go:991-1033 | a value cannot be formatted if and only if it is an array or list with a NaN or an infinity in an element, or in a field that counts, at any depth |
| SpanStore.FirstWinsMember | internal/ingest/sqlite/sink.go:548-562 | after an offer of records the list holds what it held and the first record for each key it did not hold |
| SpanStore.ReplayChangesNothing | internal/ingest/sqlite/sink.go:548-562 | records offered again at any later time change nothing |
| StoreRefinement.AddRecordKeeps | internal/ingest/duckdb/sink_duckdb.go:513-563 | inserting a span keeps every reference between rows intact, by the code alone, and appends the record exactly if its key is free |
| StoreRefinement.IngestRefines | internal/ingest/sqlite/sink.go:161-181 | on well-formed tables a committed request changes the list of records as offering its records in order does; the tables stay well-formed and only grow |
| StoreRefinement.HistoryRefines | internal/ingest/duckdb/sink_duckdb.go:119-139 | any sequence of committed requests is one offer of all their records |
| StoreRefinement.HistoryHoldsFirsts | internal/ingest/sqlite/sink.go:515-663 | after any history from the empty store the records are exactly the first ones given for their keys, keys are distinct, and every child, attribute, resource and scope reference leads to a row |
| StoreRefinement.ReplayInvisible | internal/ingest/sqlite/sink.go:161-181 | a request consumed again, after any others, leaves all records and all span, event and link rows as they were; the only new rows are resources and scopes no span refers to |
| SqliteTx.Tx.InsertAttributes | internal/ingest/sqlite/sink.go:720-739 | no error if and only if no statement failed and every value can be formatted; then exactly the rows of the attributes are added to the named table |
| SqliteTx.Tx.InsertResource | internal/ingest/sqlite/sink.go:515-528 | no error: one resource row under a fresh id and its attribute rows |
| SqliteTx.Tx.InsertScope | internal/ingest/sqlite/sink.go:530-546 | no error: one scope row under a fresh id and its attribute rows |
| SqliteTx.Tx.LoadSpanRowID | internal/ingest/sqlite/sink.go:600-611 | an id means that a row with the key has this id; none means that no row has the key |
| SqliteTx.Tx.InsertSpan | internal/ingest/sqlite/sink.go:548-598 | no error if and only if no statement failed and the span can be formatted or its key is taken; a taken key leaves the tables alone, otherwise the span's rows in five tables are added |
| SqliteTx.Tx.InsertEvents | internal/ingest/sqlite/sink.go:613-636 | no error: the event rows and their attribute rows, in order, under consecutive ids |
| SqliteTx.Tx.InsertLinks | internal/ingest/sqlite/sink.go:638-663 | no error: the link rows and their attribute rows, in order, under consecutive ids |
| SqliteTx.Tx.ConsumeTx | internal/ingest/sqlite/sink.go:161-181 | without an error the transaction's tables are those of the whole request; it succeeds if no statement fails and all values can be formatted |
| SqliteSink.Sink.constructor | internal/ingest/sqlite/sink.go:46-56 | a new store is well-formed and holds no records |
| SqliteSink.Sink.TryOnce | internal/ingest/sqlite/sink.go:144-158 | one attempt leaves the old records or the request applied once; an error with no lost commit leaves the tables as they were |
| SqliteSink.Sink.Consume | internal/ingest/sqlite/sink.go:139-159 | for every clock, deadline and pattern of failures, lost commits and retries: the tries are those of the clock, each returned what its attempt says, the result is that of the way the loop ended; the records are the old ones or hold the request exactly once; success means the latter, and nil means success if the context error is set whenever the deadline check fires; without lost commits failure means the old records |
| SqliteSink.NilWithoutEffect | internal/ingest/sqlite/sink.go:80-83 | on every clock where the deadline check can fire with no context error set, a database that stays busy makes Consume return nil with the store unchanged |
| SqliteSink.ExpiredAtEntry | internal/ingest/sqlite/sink.go:80-83 | Consume with a deadline already passed and no context error yet: nil, no attempt, nothing stored |
| SqliteSink.ExpiredWhileSleeping | internal/ingest/sqlite/sink.go:80-109 | Consume with a deadline that passes during the first sleep and no context error yet: nil, one busy attempt, nothing stored |
| Ingestion.FirstFaultDecides | internal/ingest/sqlite/sink.go:139-159 | the first fault on the way, at opening, at beginning or, if the rest was fine, at the commit, is what an attempt returns, and is busy if and only if the fault is |
| Ingestion.FineSucceeds | internal/ingest/sqlite/sink.go:139-159 | if nothing goes wrong in the first attempt, begun before the deadline, and all values can be formatted, it is the only one and succeeds |
| Retry.RetryBounds | internal/ingest/sqlite/sink.go:73-111 | in every run backoffs start at 25 ms and double up to 250 ms, a sleep is the backoff and less than half of it more, taken from the clock's nanoseconds; the next attempt begins after it; all attempts but the last were busy within 5 s, and there are at most 24 |
| Retry.AllTries | internal/ingest/sqlite/sink.go:73-111 | the bound is exact: on a quick clock a run makes 24 attempts |
| Retry.NilMeansSuccess | internal/ingest/sqlite/sink.go:80-109 | on a given clock nil means success in every run if and only if the context error is set whenever the deadline check can fire; so always without a deadline |
| BatchLoad.ChunkIDs | internal/ingest/sqlite/sink.go:681-694 | for any size the chunks put together are the ids, none longer than the size, all but the last exactly of it |
| BatchLoad.LoadAttributesBatch | internal/ingest/sqlite/sink.go:741-775 | for any ids, repeats included, any size and any row order: the result is that of the rows in the order read, the rows of the ids, each once if no id is repeated; each id that has attributes gets what loading it alone gives, no other id gets anything |
| BatchLoad.LastWinsIs | internal/ingest/sqlite/sink.go:752-768 | of attributes read in an order, each key has what is read of the last attribute with it |
| BatchLoad.LoadRowsAt | internal/ingest/sqlite/sink.go:752-768 | rows read in any order give each owner the map of its attributes in that order, the last one with a key winning |
| BatchLoad.DecodesIffInSomeOrder | internal/ingest/sqlite/sink.go:752-768 | a map is promised by the load if and only if reading the attributes in some order gives it |
| BatchLoad.LoadDetermined | internal/ingest/sqlite/sink.go:752-768 | reading the attributes gives the same map for every order if and only if attributes with equal keys have equal values |
| BatchLoad.RepeatedKey | internal/ingest/sqlite/sink.go:752-768 | the two rows stored for a list with a repeated key, read one way round and the other, give two maps |
| BatchLoad.LoadHeadsBatch | internal/ingest/sqlite/sink.go:777-853 | resources and scopes in chunks equal looking up each id alone, ids that straddle chunks included |
| ChildLoad.SortLoaded | internal/ingest/sqlite/sink.go:696-718 | a sorted permutation |
| Texts.StrLeIs | internal/ingest/sqlite/sink.go:696-718 | of two strings the one comes first that is the beginning of the other, or has the smaller character where they first differ |
| BatchLoad.EventLeIs | internal/ingest/sqlite/sink.go:696-705 | the event order: earlier first, at the same time by name, in byte order |
| BatchLoad.LinkLeIs | internal/ingest/sqlite/sink.go:707-718 | the link order: by trace id and then span id, in byte order |
| ChildLoad.LoadEventsBatch | internal/ingest/sqlite/sink.go:891-939 | for any ids, size, row order and map order each span gets exactly its own events with their attributes, sorted by time and name, up to ties |
| ChildLoad.LoadLinksBatch | internal/ingest/sqlite/sink.go:941-989 | the same for links, sorted by trace id and span id |
| ChildLoad.AlignedPermutes | internal/ingest/sqlite/sink.go:696-718 | however a list of loaded rows is rearranged, each row still shows its own source row |
| SpanQueries.SelectTraceSpans | internal/ingest/sqlite/sink.go:497-513 | exactly the rows of the trace that pass the filters, earliest first, ties in any order |
| SpanQueries.LoadDetails | internal/ingest/sqlite/sink.go:378-408 | each row becomes a span that shows its record: fields, resource, scope, attributes, events and links as loaded one by one |
| SpanQueries.TraceAnswerIs | internal/ingest/sqlite/sink.go:497-513 | a record is shown if and only if it has the trace id, the service unless that is blank, and the status if given |
| SpanQueries.TraceSpans | internal/ingest/sqlite/sink.go:330-409 | the answer shows exactly the records of the trace that pass the filters, in start order |
| SpanQueries.Spans | internal/ingest/sqlite/sink.go:183-273 | the answer shows the latest matching records, at most limit of them, latest first |
| SpanQueries.SpanAnswerIs | internal/ingest/sqlite/sink.go:418-439 | every record shown meets the query; one that meets it and is not shown starts no later than any of a full answer |
| SqliteSink.Sink.QuerySpans | internal/ingest/sqlite/sink.go:183-273 | after any retries: once an attempt succeeded, or nil is returned on a clock where that means success, the answer is the latest matching records, 100 of them for a limit that is not positive; an error comes without rows |
| SqliteSink.Sink.QueryTraces | internal/ingest/sqlite/sink.go:275-323 | the same for summaries: an answer in the sense of IsAnswer, with limit 100 for a limit that is not positive; rows go by start, or duration and then start, upwards or downwards as the order says, start_desc for an unknown one or none, ties by trace id downwards; a qualifying trace is left out only from a full answer, and comes after all of it |
| SqliteSink.Sink.QueryTraceSpans | internal/ingest/sqlite/sink.go:325-416 | a blank trace id is an error without any attempt; otherwise, as above, the answer for the trimmed id |
| QueryRetry.RetryReads | internal/ingest/sqlite/sink.go:73-111 | the loop around a query makes a run on the clock, whatever the attempts return |
| SqliteSink.NilWithoutAnswer | internal/ingest/sqlite/sink.go:275-323 | on every clock where the deadline check can fire with no context error set, a busy database makes QueryTraces return no error with whatever rows its last attempt had left |
| SqliteSink.NoTracesAtEntry | internal/ingest/sqlite/sink.go:275-323 | with a deadline already passed and no context error yet: no error and no traces, which is no answer if any trace qualifies |
| TraceRows.SelectSummaries | internal/ingest/sqlite/sink.go:441-482 | the statement, run on the rows of the tables, has for every query an answer: the first limit summaries, in order, of the traces one single span of which meets service, window, all filters, status and has_error together |
| TraceQueries.OrderTotal | internal/ingest/sqlite/sink.go:484-495 | each of the four orderings is a strict total order on summaries of different traces |
| TraceQueries.BeforeIsInOrder | internal/ingest/sqlite/sink.go:484-495 | which of two rows comes first, spelled out for each order, an unknown one and none, down to the first character in which the trace ids differ |
| TraceQueries.QualifiesIs | internal/ingest/sqlite/sink.go:441-462 | a trace qualifies if and only if one span of it has the service, starts within the window, both ends included, has every attribute asked for, the status if given, and status 2 if errors are asked for |
| TraceQueries.LimitOnlyCuts | internal/ingest/sqlite/sink.go:275-323 | on one store the answer for a limit is a prefix of the answer for any larger limit, and answers for equal limits agree, root names apart |
| TraceQueries.RootNameDetermined | internal/ingest/sqlite/sink.go:463-466 | the statement fixes the root name of a trace if and only if its earliest roots share one name |
| TraceQueries.NamedPrefix | internal/ingest/sqlite/sink.go:275-323 | where the root names of its traces are fixed, an answer is, names included, a prefix of every answer for a limit that is no smaller |
| TraceQueries.PrefixIffDetermined | internal/ingest/sqlite/sink.go:275-323 | an answer is, names included, a prefix of every answer for such a limit if and only if the earliest roots of each of its traces share one name |
| TiedNames.TiedRoots | internal/ingest/sqlite/sink.go:463-466 | after one request with two roots that start together under different names, one query has two answers, one for each name |
| RoundTrip.RoundTrips | internal/ingest/sqlite/sink.go:325-416 | after a request was ingested into any store, and any records offered later, the answer for a trace holds each of the request's spans of that trace whose key was new, with exactly its own parts: ids in hex, times as signed 64-bit numbers, the kind's name, the first service.name; attributes, resource and scope read as AttributeRoundTrip says, for a repeated key one of its values; events and links permuted into sorted order |
| WriteThenRead.ConsumeThenQuery | internal/ingest/sqlite/sink.go:139-416 | from any store: if Consume and, after any further requests have succeeded or failed, QueryTraceSpans for the trace of a new span return no error, on clocks where that means success, the answer holds that span with all its parts |
| RequestSpans.NewIsFirst | internal/ingest/sqlite/sink.go:548-562 | a span's record is the one kept if and only if no record is stored under its ids and no earlier span of the request has them; no span id is the same as eight zero bytes |
| Search.MatchesIs | internal/ingest/sqlite/sink.go:441-462 | a record meets a query if and only if its span does: by its first service.name, its start as a signed number, its status, and for each filter an attribute with that key whose own text is the value: decimal, true or false, hex, JSON |
| Search.SearchIsExact | internal/ingest/sqlite/sink.go:139-462 | after a request the traces that qualify for a query are those that did before, and those with a span of the request whose key was new and that meets the query |
| WriteThenRead.ConsumeThenSearch | internal/ingest/sqlite/sink.go:139-323 | from any store: if Consume and, after any further requests, QueryTraces with a query that a new span meets return no error, on clocks where that means success, its trace is in the answer, or the answer is full and its rows all come before that trace |
| RoundTrip.AnswerKeysDiffer | internal/ingest/sqlite/sink.go:325-416 | no span id occurs twice in an answer |
| RoundTrip.TraceIdIsTrimmed | internal/ingest/sqlite/sink.go:325-329 | formatted trace ids survive the trimming of QueryTraceSpans, and only the empty one is refused |
| SummaryAgreement.SummaryAgrees | internal/ingest/sqlite/sink.go:463-474 | span count, error count, start, end and duration of a summary are those of the spans QueryTraceSpans returns for its trace; its root name is that of an earliest of them without a parent; its service is the one asked for |
| WriteThenRead.TracesThenSpans | internal/ingest/sqlite/sink.go:275-416 | QueryTraces followed by QueryTraceSpans for one of its traces, both without error on such clocks: the summary fits the spans |
| SummaryAgreement.ErrorsAgree | internal/ingest/sqlite/sink.go:497-513 | asking for the trace's spans with status error gives as many as the summary counts, all of them errors |
| UseTraces.SameFilters | web/src/hooks/useTraces.ts:76-86 | equal length and pairwise equal keys and values |
| UseTraces.IsLoadMoreQuery | web/src/hooks/useTraces.ts:54-74 | true if and only if the queries differ in nothing but filter ids and a larger limit |
| UseTraces.Hook.Effect | web/src/hooks/useTraces.ts:20-49 | the previous fetch is aborted and no other; without a query the state is idle and empty; else it is loading, without an error, a new live fetch is started, and data is kept exactly for a load-more query; the new state is that of the step function |
| UseTraces.Hook.OnResolve | web/src/hooks/useTraces.ts:35-38 | aborted or not: success with the rows, no error, and the fetch's query is the previous one |
| UseTraces.Hook.OnReject | web/src/hooks/useTraces.ts:39-44 | if aborted, nothing on screen changes; otherwise an error with its message and no data |
| UseTraces.RunsShowFetched | web/src/hooks/useTraces.ts:11-52 | over every interleaving of changes, resolves, late resolves and rejects, the data shown is empty or exactly what was fetched for the previous query |
| UseTraces.StaleExactly | web/src/hooks/useTraces.ts:34-48 | a run ends with an answer for another query on screen if and only if some fetch resolved late for a replaced query and only ignored rejections followed, or the run began so and consists of such rejections |
| UseTraces.NotLateNotStale | web/src/hooks/useTraces.ts:20-49 | in runs without late resolves an answer shown is always the current query's |
| UseTraces.StaleHappens | web/src/hooks/useTraces.ts:34-48 | a concrete run of three steps that shows the answer of a replaced query |
| UseTraces.SentConsistent | web/src/api/traceApi.ts:9-25 | a load-more query, printed by the client and parsed by the server, asks for the same traces with no smaller limit |
| UseTraces.LoadMoreExtends | web/src/hooks/useTraces.ts:54-74 | on an unchanged store the rows of a query are a prefix of those of any load-more of it, root names included where the traces determine them |
| UseTraces.LoadMoreKeepsRows | web/src/hooks/useTraces.ts:26-38 | after any run over an unchanged store, rows kept on screen while loading are a prefix of the rows that replace them, root names included where the traces determine them |
| SearchUrl.ClientReadsLikeServer | web/src/pages/SearchPage.tsx:86-109 | client and server read every attr parameter alike |
| SearchUrl.ServerReadsPrinted | internal/queryhttp/handler.go:138-153 | for a non-blank key and value, the printed filter is read as the trimmed pair if and only if the key has no '=' (the value may) |
| SearchUrl.KeyWithEquals | internal/queryhttp/handler.go:138-153 | the key "a=b" with the value "c" is read as the key "a" with the value "b=c" |
| SearchUrl.ServerReadsMeant | web/src/api/traceApi.ts:16-20 | a whole list of filters arrives as meant if and only if no printed key has an '=' |
| SearchUrl.ParseServerFilters | internal/queryhttp/handler.go:138-153 | all filters, each the trimmed non-empty sides of the first '=', or an error if one has no such sides |
| Texts.DecimalIs | internal/ingest/sqlite/sink.go:997-998 | decimal text: the ten digits, each place worth ten times the next, a minus sign in front of a negative number |
| Texts.ParseInt64Is | internal/queryhttp/handler.go:115-136 | a text is read as a 64-bit number if and only if it is its decimal digits, perhaps with zeros in front, and before them perhaps one sign |
| SearchUrl.ServerAnswersAsked | internal/queryhttp/traces.go:143-198 | the server reads a list of parameters as a query if and only if it asks for that query, name by name, with the defaults, bounds and words of each spelled out |
| SearchUrl.ParseSearchState | web/src/pages/SearchPage.tsx:111-137 | the reassigning parser reads the first parameter of each name: a missing start or end is an hour ago or now; an inverted range is the last hour; a missing limit, or one that is not positive, is 100; an absent or unknown order is start_desc; errors are asked for by 1 and true in any case; the filters are those of the readable attr parameters, in order, numbered by place |
| SearchUrl.BuildSearchParams | web/src/pages/SearchPage.tsx:139-159 | set and append leave exactly the specified list of parameters, none without a service |
| SearchUrl.ParseIsParsed | web/src/pages/SearchPage.tsx:111-137 | every parsed state has an ordered range, a positive limit, a known order and clean filters |
| SearchUrl.UrlRoundTrips | web/src/pages/SearchPage.tsx:111-159 | whatever the URL was, the state read from it survives printing and parsing at any later time, up to filter ids, if it has a service |
| SearchUrl.ServerReadsQuery | web/src/api/traceApi.ts:9-25 | a query whose numbers print as 64-bit decimals and whose keys have no '=' arrives at the server as it was meant |
| Millis.ToNsIs | web/src/pages/SearchPage.tsx:38-40 | for 2^60 <= ms * 10^6 and ms < 2^41 the nanoseconds are off by 0, 64 or 128, as ms mod 8 says |
| Millis.ThereAndBackIs | web/src/pages/SearchPage.tsx:38-44 | in that range the millisecond comes back, except that it is one less exactly when ms mod 8 is 2 |
| Millis.OneIsLost | web/src/pages/SearchPage.tsx:38-44 | 1700000000002 ms comes back as 1700000000001 ms |
| Millis.TripsLoseOne | web/src/pages/SearchPage.tsx:184-191 | however often the URL is rewritten, at most that one millisecond is lost, the first time |
| Millis.TextIsExact | web/src/api/traceApi.ts:12-13 | the decimal text sent for such a time is exactly ms followed by six zeros: the shortest digits undo the rounding |

## Left out

- HTTP handlers beyond the two parameter parsers, logging, compression, protobuf decoding, static files, flags.
- The SQLite and DuckDB engines, connections, pragmas, indexes, and integer overflow inside SQL; durations are unbounded integers.
- DuckDB's queries and loads: the same algorithm as SQLite's. Its inserts are the same too, except that it makes one attempt and has no foreign keys.
- How many rows a failing attempt of a query has read: any rows may be left. The data does not change during a query.
- JSON text, percent-encoding and float formatting: parameters with laws.
- Nil receivers, nil requests to the store, nil messages inside repeated fields, and the difference between a nil and an empty map, in Go.
- In-place sorting of slices and the sharing of loaded maps: loaded rows are values, `sort.Slice` gives some sorted permutation.
- The time scale of the span bars (a minimum and a maximum), `MultiSink`, `StdoutSink` output, `withBase`, duration formatting.
- White space outside ASCII: Go and JavaScript trim different sets.
- Precision of nanosecond times in the browser beyond 2^53: the rows the hook shows are taken as the server sent them.
- Negative zero and times outside the stated range in the millisecond conversions.
- Preact's scheduling: only the state transitions of the hook are modelled; a query whose JSON text is unchanged triggers no effect.
- TraceQueries.LimitOnlyCuts: root names are excepted, because the statement does not fix them under ties; where it does, `TraceQueries.NamedPrefix` includes them.
- An inner sink whose calls never return: the progress theorems take each such return as a step that can happen.
- Stable limits for `QuerySpans`: its order has no tie-break, so they do not hold.

# Spanbox: a verified model of its stateful core

Spanbox is a trace store for LLM calls. This project models the parts of it that keep real state or
rebuild structure, and proves what they promise over every run and every input:

- **Tool-call correlation** (`RingCache`, `Correlation`, `Handler`, `CorrelationRuns`, `ResultSpans`,
  `SpanContents`):
  the proxy's 1,024-entry cache over the durable table of issued calls. The handler and the two
  tables are classes; each capture tail, which holds `toolMu` through its commit, is one step. Over
  any run of captures, dropped captures, failed commits, restarts, evictions, foreign ingest and
  retention, which deletes records and whole traces, the system refines one plain map in which the
  first issue and the first later result win. A recorded result has its tool span as long as no purge
  has reached the time of the result, and the span is stored exactly if an answer or an import of it
  came after the last purge of its trace. What every tool span says is given in full.
- **Tool-call ids and agent turns** (`ToolIds`, `ToolContents`, `GeminiReplies`, `TurnAnchor`,
  `TurnRoots`, `TurnTable`, `JointRuns`): issue and result of a Gemini call without an id meet in the same
  synthetic key, however the reply was streamed; in any run two exchanges of a growing conversation
  share a trace exactly if no prompt was added between them; a turn's root span is the merge of
  exactly the captures that joined it; and the span of an answered call lies in the trace of the turn
  that its issuing exchange joined, dropped or not.
- **GenAI log pairing** (`LogQueue`, `LogsAdapter`, `LogRuns`, `LogPairs`): the map of queues per key
  refines one queue in arrival order, over any number of requests; nothing is lost or paired twice, and
  a law on the records alone says which request each response is paired with.
- **The store** (`TraceStore`, `TraceView`, `TraceRows`, `SpanStore`, `Retention`, `Pipeline`, `Import`,
  `Reimport`, `OneDatabase`):
  the trace table and the full-text postings are always what a recomputation from the span table
  would give, through upserts, rollbacks, purges and imports; a purge is exact, whole-trace and
  terminating; an import succeeds exactly when its lines can be read and its batches are accepted in
  turn, and then leaves what one commit of everything would leave; repeating it changes nothing if it
  is accepted, and it is accepted if no key occurs with different contents. The table of spans that
  the correlation runs write is this one, and their steps are its transactions.
- **Reassembly** (`GeminiParts`, `Streams`, `Flatten`, `FlattenRoundTrip`): streamed replies equal
  whole ones however they were cut and interleaved; dotted paths rebuild the tree they came from in
  any order of insertion.
- **Walks and the SQL guard** (`Paging`, `Utf8`, `SqlTokens`, `SqlText`): following `next_cursor` lists
  everything once, exactly unless a page ends at a row it cannot continue from; what the guard accepts
  is characterised on the bytes of the text, and its verdict sees neither comments nor letter case.

`Prelude`, `Seqs`, `Order` and `Json` are shared. Methods follow the source's loops and are proved
against specification functions; the lemmas are about those functions. A Go `range` over a map is a
loop that picks any remaining key, so every result holds for every iteration order.

## Assumptions

- Hashes and JSON encodings of ids are injective: an id is a datatype value built from what is hashed.
- The clock at which log records are queued does not go back; one process owns a database; a store
  is configured; normalizing a tool span does not fail.
- A database transaction takes effect completely or not at all. Where the database can refuse one
  for its own reasons, a `fault` parameter says at which statement.
- A span that comes in from elsewhere under the id of a recorded tool result, as an import may bring
  it, agrees with that record. An exported one does, unless since the export the record expired and
  the call was issued and answered anew in the same trace: then the export holds the older answer.
- Session ids are valid UTF-8, so a cursor comes back as it was given. The table and the filter stay
  the same during a walk; a relative time range would be a filter that changes.
- Nothing else is committed between the batches of one import. (Retention is kept out by its lock.)
- Strings are sequences of bytes. Costs and durations are exact reals, token sums are unbounded.

## Where the code is more, or less, than one would expect

- Acceptance is not monotone: a whole batch can be accepted although its first half alone would be
  refused (`WholeAcceptedHalfRefused`). So an import that succeeded can be refused the second time
  (`SecondImportRefused`), with its earlier batches written again. It is accepted exactly when, after
  each full batch, the totals of the touched traces are in range (`SecondImportIff`).
- Importing an export is accepted and changes nothing exactly when every span in it has both
  timestamps and is settled, that is, would not be priced again (`ImportOfExport`). Spans that went
  through the pipeline are settled as long as their stored attributes repeat their cache-creation
  tokens (`PricedIsSettled`); in general `SettledIff` says when. Spans without timestamps are stored
  by ingest and refused by import.
- A purge can take the span of a tool result that the cache or the table still records, when the
  trace is older than the record (`ResultsAlwaysStored`, `AnsweredCallIsLinked`).
- The output of a turn's root is independent of the order of concurrent captures exactly when the
  captures that end latest agree on it (`OutputSettledIff`). The status message is the last error's.
- Gemini calls and responses without ids meet exactly when they have the same name and the same rank
  among all parts of that name, with or without ids; mixing both kinds can miss (`MixedIdsMiss`).
- A log request refused for a bad timestamp loses the pairs it had found, which it has exactly when a
  response found its request before the first bad timestamp (`PairsLostIff`).
- A streamed tool call keeps a stray collection field if the vendor sent only empty input fragments,
  and otherwise equals the whole message exactly when decoding the joined fragments gives the whole
  message's value (`StreamAgreesWithMessage`). The stream decoder turns numbers into floats and the
  message decoder keeps their text, so large integers are such a difference.
- A Gemini text sent in pieces keeps the first piece's other fields, unless that piece is empty and
  has none: then it is dropped and not seen at all (`CutDoesNotMatter`, `EmptyPieceIsNotSeen`).
- A page with rows after it that ends at a row whose start (for sessions, last end) is zero sends the
  walk back to the beginning, for ever; one that ends at an identifier which the cursor check refuses,
  such as an imported trace id that is not hexadecimal, ends the walk (`WalkCompletesIff`,
  `WalkRefusedIff`, `OddTraceIdEndsTheWalk`).
- The SQL guard sees no token in a quoted value, so it accepts one even after the closing semicolon
  (`QuotedAfterSemicolon`); anything else but white space and comments there is refused
  (`AcceptedOnText`).
- Two writes commute, on any tree, exactly when their paths are compatible or they write the same value
  to the same place (`CommuteIff`), and any number of writes build one tree in every order exactly when
  every two of them do (`OrderSettledIff`).

## Model

| member | source | states |
|---|---|---|
| RingCache.EvictShifts | internal/proxy/relay.go:551-569 | overwriting the oldest slot of a full circular slice removes the front of the queue it stands for and appends at its back |
| RingCache.PutIsEnqueue | internal/proxy/relay.go:551-569 | one cached call acts as a bounded FIFO: a live key keeps its place, a new one joins at the back and evicts the front at 1,024; map keys and slice stay the same set |
| RingCache.PutAllEntries | internal/proxy/relay.go:551-569 | after caching a whole map every live entry is a newly cached value or an unchanged old entry |
| RingCache.FifoIsLastInsertions | internal/proxy/relay.go:551-569 | after any run of puts the live keys, oldest first, are exactly the last min(n, 1024) of the n insertions |
| Correlation.IssueCalls | internal/proxy/relay.go:538-548 | recording issued calls adds exactly the new keys and never changes an origin already known |
| Correlation.UpsertCalls | internal/store/proxy_tool_calls.go:57-63 | the conflict rule per key: only result columns can change, and a recorded result stays |
| Handler.Store.InsertRows | internal/store/insert.go:88-103 | succeeds exactly when no statement is refused, and then has upserted all rows in order |
| Handler.Store.UpsertAll | internal/store/proxy_tool_calls.go:57-64 | upserts every origin once in any order, or stops at the refused statement |
| Handler.Store.InsertProxyBatch | internal/store/proxy_tool_calls.go:32-66 | spans and correlation records are written together, or neither table changes, whichever statement fails |
| Handler.Handler.Lookup | internal/proxy/relay.go:487-512 | answers from this exchange's origins, else the cache, else the table, and remembers only what came from the table |
| Handler.Handler.LinkResult | internal/proxy/relay.go:513-537 | one result: first result wins, its span gets the origin's trace and parent and the clamped interval, or becomes an orphan |
| Handler.Handler.LinkCalls | internal/proxy/relay.go:538-548 | every issued call is recorded in any order, first issue wins, against the map reached by the results |
| Handler.Handler.ToolSpansLocked | internal/proxy/relay.go:485-549 | the spans are those of the plain map seen through cache and table, and the origins returned are exactly the entries the cache does not already hold as such |
| Handler.Handler.CacheToolCalls | internal/proxy/relay.go:551-569 | puts each origin once, in whatever order the map yields, into the ring |
| Handler.Handler.CommitProxy | internal/proxy/relay.go:456-470 | the cache changes only after the transaction committed; a failure changes nothing |
| Handler.Handler.Capture | internal/proxy/relay.go:407-453 | the tail of a capture is exactly one transition of the step system, or a failed commit |
| Handler.Handler.RecordDroppedOrigins | internal/proxy/relay.go:379-404 | a dropped exchange keeps the origins it issues, writes no span and records no result |
| Handler.Handler.constructor | internal/proxy/relay.go:93-125 | a restart keeps the tables and starts with an empty cache |
| CorrelationRuns.AfterAt | internal/proxy/relay.go:485-549 | what one exchange does to one key, for all keys: only its own calls are added, and only a first result changes an origin |
| CorrelationRuns.UpsertWritesPending | internal/store/proxy_tool_calls.go:57-63 | the conflict rule writes exactly the origin the handler computed, even when retention slipped in between |
| CorrelationRuns.AlwaysCoherent | internal/proxy/relay.go:456-470 | in every reachable state the ring is well formed and no cached entry disagrees with its row |
| CorrelationRuns.RunRefinesPlainMap | internal/proxy/relay.go:485-569 | over every run, what lookups can find is in the plain map, and every origin that has not expired is stored exactly as the plain map has it |
| CorrelationRuns.RunIsPlainMap | internal/proxy/relay.go:485-569 | without retention, table, lookups and plain map are equal after every run |
| CorrelationRuns.SpansArePlain | internal/proxy/relay.go:513-537 | eviction, drops, failures and restarts never change the tool span emitted for a result whose origin has not expired |
| CorrelationRuns.PlainNeverIssued | internal/proxy/relay.go:538-548 | a call no step issued has no origin, whatever results were seen |
| CorrelationRuns.PlainUnanswered | internal/proxy/relay.go:538-548 | before its first answer an origin is what its first issue said |
| CorrelationRuns.PlainAnswered | internal/proxy/relay.go:513-548 | after it, the origin is the first issue with the start of the first later capture that carried a result |
| ResultSpans.ResultsAlwaysStored | internal/proxy/relay.go:407-452 | in every reachable state a recorded result that no purge has reached has its tool span stored in the origin's trace, under its span, ending at the first result, and no other span ever stands in its place |
| ResultSpans.PurgeKeeps | internal/store/retention.go:256-286 | a purge takes a recorded result's span only if the result lies before its cutoff |
| ResultSpans.CaptureStores | internal/proxy/relay.go:407-452 | a capture writes the span of every result it records, or leaves a stored one as the record demands |
| ResultSpans.StoredIffKept | internal/proxy/relay.go:379-452 | over every run the span of an issued call is stored if and only if an answer to it, or an import of it, came after the last purge of its trace |
| ResultSpans.AnsweredCallIsLinked | internal/proxy/relay.go:379-452 | end to end: the span of an answered call is stored exactly under that condition, and in any case if no purge has reached its first answer; it lies under the exchange that first issued it, captured or dropped, and runs from its end to the first answer's start, clamped; replays never change it |
| ResultSpans.UnansweredCallHasNoResult | internal/proxy/relay.go:379-452 | dropped captures and re-issues never mark a result |
| SpanContents.EmittedSpan | internal/proxy/relay.go:513-537 | after any run, the row emitted for a result of an issued call has trace, parent and interval of the first issue and first answer, name and arguments of the result or else of the call, and content and error flag of the result; issue and answer are of one route and session |
| SpanContents.OrphanSpan | internal/proxy/parser.go:316-340 | a result of a call that lookups do not find has a trace of its own, no parent, and only its own fields |
| SpanContents.NeverIssuedIsOrphan | internal/proxy/relay.go:513-537 | so has a result of a call that no step issued |
| SpanContents.StoredSpan | internal/proxy/relay.go:407-452 | what is stored for an issued call is the last result of the last capture that answered it, under the first issue and up to the first answer, or the last imported row, as long as nothing wrote or purged it since |
| SpanContents.KnownIsIssued | internal/proxy/relay.go:487-548 | whatever lookups find, even for a call that expired and was issued again, is what one of the exchanges that issued it said |
| SpanContents.ExpiredIsForgotten | internal/store/retention.go:63-65 | a retention delete and a restart leave no record of a call that was not issued after the cutoff |
| SpanContents.ModelSpanStays | internal/proxy/relay.go:407-452 | no other exchange writes over the model span of an exchange |
| JointRuns.ConversationSharesTrace | internal/proxy/turns.go:84-107 | in any run, two exchanges of one route and session of which one carries the other's history and more share a trace if and only if what it adds holds no prompt, captured or dropped, in whichever order they are processed |
| JointRuns.ToolLoopSharesTrace | internal/proxy/turns.go:27-38 | with Anthropic, tool results and model messages keep the trace, and a typed user message opens another |
| JointRuns.AnsweredCallStaysInConversation | internal/proxy/relay.go:379-452 | the span of an answered call lies in the trace of every exchange whose history continues the issuer's, or is continued by it, without a new prompt, stored exactly if an answer or import of it came after that trace's last purge |
| JointRuns.AnsweredCallIsInItsTurn | internal/proxy/relay.go:379-452 | the span of an answered call lies in the trace of the turn that its issuing exchange joined, even if that exchange was dropped |
| JointRuns.CaptureStoresItsTurn | internal/proxy/relay.go:407-452 | a capture leaves its model span and its turn's root, with their contents, in that trace |
| ToolIds.ToolCalls | internal/proxy/parser.go:201-241 | the loops collect exactly the specified calls of all three vendors, with Gemini ranks counted per name within a message |
| ToolIds.LastAssistant | internal/proxy/parser.go:250-257 | finds the last model message or function call |
| ToolIds.CallsInRequest | internal/proxy/parser.go:258-262 | Gemini looks only at the last model message, numbered by its place |
| ToolIds.ToolResults | internal/proxy/parser.go:258-306 | the loops return the first answer for each id after the last model message, resolved against the calls of the same request |
| ToolIds.ToolResultsOf | internal/proxy/parser.go:243-249 | the messages are those of input, contents or messages by path first and vendor second |
| ToolIds.ReplyKeepsItsPlace | internal/proxy/parser.go:250-262 | when a request repeats the history, the reply and a tail without model messages, its last model message stands where the reply was issued |
| ToolIds.IssueAndResultAgree | internal/proxy/parser.go:201-290 | a response without id gets the key of a call without id if and only if name and rank agree |
| ToolIds.CapturedReplyRecordsCalls | internal/proxy/parser.go:228-237 | every named call of a captured reply is recorded under its key |
| ToolIds.AnsweredCallIsRecorded | internal/proxy/parser.go:201-290 | so such a response finds the call that the captured reply recorded |
| GeminiReplies.MessageKeepsCalls | internal/proxy/parser.go:636-673 | dropping signatures and blank parts and merging text keep the sequence of named function calls, if no text part holds a call |
| GeminiReplies.AnswerFindsStreamedCall | internal/proxy/parser.go:201-290 | an answer without id in the next request finds the call that a streamed reply recorded, when the request repeats the streamed calls in whatever parts |
| ToolIds.RecordedOnly | internal/proxy/parser.go:228-237 | a reply's functions are recorded under their own keys and no others |
| ToolIds.MixedIdsMiss | internal/proxy/parser.go:201-290 | a reply and a request, over any history, in which an answer without id finds none of the calls recorded for the reply, though one has no id either |
| ToolContents.CallsAreIssued | internal/proxy/parser.go:201-241 | an id is among the calls of a list of messages if and only if one of them issues it, by vendor and field, and stands there with the name and arguments of such an issue |
| ToolContents.ResultsSay | internal/proxy/parser.go:263-306 | every result has content and error flag of the first answer with its id, and name and arguments of a call of that id in the same request, or else what the answer brings |
| ToolContents.AnswersHaveResults | internal/proxy/parser.go:263-306 | every first answer with an id has such a result, and no other result has its id |
| ToolContents.AnswersGiven | internal/proxy/parser.go:290-303 | the answers of Anthropic and OpenAI requests are, by field, the tool results, tool messages and call outputs after the last model message |
| ToolContents.GeminiAnswersGiven | internal/proxy/parser.go:274-289 | Gemini's are the named function responses, with their whole response, errors if it has an error field |
| ToolContents.SameHistory | internal/proxy/parser.go:243-249 | turns and tool results read the same list of messages, except for a Gemini request with the path of another API |
| TurnAnchor.TurnAnchor | internal/proxy/turns.go:14-54 | the anchor is the last prompt by each vendor's rule, or the string input, or nothing |
| TurnAnchor.SameTurnIffNoNewPrompt | internal/proxy/turns.go:14-54 | a longer history has the same turn key if and only if it adds no prompt, and a larger index otherwise |
| TurnAnchor.ContinuationsAreNoPrompts | internal/proxy/turns.go:28-51 | model messages, pure tool results and Gemini responses never open a turn |
| TurnAnchor.UserPromptIff | internal/proxy/turns.go:28-51 | which user messages open a turn, by each vendor's rule, both ways |
| TurnRoots.ProxyTurns.Upsert | internal/store/proxy_turns.go:41-71 | one merge of a stored root, field by field, and nothing else in the table changes |
| TurnRoots.MergedTimes | internal/store/proxy_turns.go:52-61 | after any updates the root runs from the earliest start to the latest end and shows the output of the last applied among those that end latest |
| TurnRoots.MergedStatus | internal/store/proxy_turns.go:58-61 | it is an error if and only if some update was, otherwise it has the first update's status; the message is the last error's |
| TurnRoots.OrderInsensitive | internal/store/proxy_turns.go:41-71 | bounds, duration and error do not depend on the order of the updates |
| TurnRoots.OutputSettledIff | internal/store/proxy_turns.go:54-56 | the output is independent of the order if and only if the updates that end latest agree on it |
| TurnRoots.TurnsDoNotMix | internal/store/proxy_turns.go:41-71 | each stored root is the merge of its own key's updates |
| TurnTable.Latest | internal/store/proxy_turns.go:17-25 | the lookup without a key yields a turn of that route and session that no other follows in start and key |
| TurnTable.RootIsMergeOfItsCaptures | internal/proxy/relay.go:427-452 | after every run, with records expiring at any time, also between the lookup and the commit of a capture, a turn record and its root span are the same merge of exactly the captures that joined the turn since the record was made |
| TurnTable.ContinuationJoinsOpenTurn | internal/proxy/turns.go:92-106 | when calls follow one another, a continuation without a prompt joins the turn opened last in its route and session, unless that has expired |
| TurnTable.OrphanOpensTurn | internal/proxy/turns.go:94-105 | without a retained turn it opens one, which the next continuation joins |
| TurnTable.ContinuationKeepsInput | internal/proxy/turns.go:124-127 | a continuation leaves the turn the input it had, even if retention deletes the record between lookup and commit |
| TurnTable.AnchoredTurnIsStable | internal/proxy/turns.go:84-107 | whatever is stored meanwhile, two requests with history join one turn if and only if no prompt was added |
| LogsAdapter.LogsAdapter.DropOldest | internal/otlp/logs.go:193-217 | scanning the heads of all buckets drops the head of the global arrival queue |
| LogsAdapter.LogsAdapter.AddPending | internal/otlp/logs.go:137-150 | arrival appends to the global queue and pushes out its head at 1,000 |
| LogsAdapter.LogsAdapter.PopPending | internal/otlp/logs.go:152-169 | takes the first record of the global queue with that key and no later time, and only that one |
| LogsAdapter.LogsAdapter.Expire | internal/otlp/logs.go:171-191 | sweeping the buckets in any order filters the global queue by age and counts what it dropped |
| LogsAdapter.LogsAdapter.Decode | internal/otlp/logs.go:84-124 | the record loop is the specified run over the global queue, fails exactly as it does, returns its spans in order, and leaves the queue in order for the next request |
| LogRuns.DecodeNext | internal/otlp/logs.go:58-124 | one request after others, failed or not, takes the adapter one step further in the specified run and answers with that request's spans alone |
| LogsAdapter.LogsAdapter.OldestHead | internal/otlp/logs.go:193-217 | the earliest of the bucket heads belongs to the head of the global queue |
| LogQueue.AddRepresents | internal/otlp/logs.go:137-150 | appending to one bucket is appending to the global queue |
| LogQueue.PopRepresents | internal/otlp/logs.go:152-169 | removing a bucket's first match is removing the global queue's |
| LogQueue.SweepBucket | internal/otlp/logs.go:171-191 | sweeping one bucket removes exactly its expired records from the global queue |
| LogRuns.NothingLostOrDoubled | internal/otlp/logs.go:137-217 | over any requests, every record queued is pending, paired, expired or dropped, and exactly one of these |
| LogRuns.RunSound | internal/otlp/logs.go:137-217 | over any requests the queue stays ordered by arrival and time and never exceeds 1,000 |
| LogRuns.PairedOnce | internal/otlp/logs.go:152-169 | no request record is paired twice, in whichever requests its responses come |
| LogRuns.ResponseTakesEarliest | internal/otlp/logs.go:105-111 | a response takes the earliest unexpired request of its key that is not later, or there is none |
| LogRuns.SpanTimes | internal/otlp/logs.go:239-262 | a paired span starts with its request, if that has a time, and ends with the response, by its observed time or else its own |
| LogRuns.SpanForward | internal/otlp/logs.go:252-262 | whatever the times, a span does not end before it starts and both ends are times of its records |
| LogRuns.SpanAttributes | internal/otlp/logs.go:239-287 | attributes are the response's, or else the request's, without the event name and with the source; the span is an error if and only if one of them has an error type |
| LogRuns.FailsIffBadTimestamp | internal/otlp/logs.go:219-228 | decoding fails exactly when some GenAI record's timestamp exceeds 64 signed bits |
| LogRuns.PairsLostIff | internal/otlp/logs.go:101-111 | a request loses pairs it had found if and only if a response found its request before the request's first bad timestamp |
| LogPairs.ServedByLaw | internal/otlp/logs.go:92-112 | over any requests, failed ones included, every request record reached before its request's first bad timestamp was queued, as it came and in order, and every response got the pair that the law gives it |
| LogPairs.LawDecides | internal/otlp/logs.go:92-112 | the law, on the records alone, leaves no choice of what each record takes away |
| LogPairs.PairedIff | internal/otlp/logs.go:152-169 | a response is paired with a request record if and only if that is the earliest one of its key, not later, not expired, and not taken before by a response or for want of room |
| TraceView.ExecIndex | internal/store/migrate.go:83-96 | inserts and same-key updates keep the postings equal to those of the stored spans |
| TraceView.IndexHolds | internal/store/migrate.go:79-96 | the index holds id, input, output and name of every stored span, and nothing else |
| TraceView.ExecAllRows | internal/store/insert.go:88-103 | a batch keeps keys and ids unique and the postings exact, leaves the spans of every trace it does not name as they were, and leaves none it names empty |
| TraceView.LastWriteIsStored | internal/store/insert.go:13-27 | the last span written under a key is stored in every column as it came, but for its cache-creation tokens |
| TraceView.InsertKeepsView | internal/store/insert.go:82-122 | after an accepted batch every trace row is the aggregate of its spans, no row is missing or extra, the index is exact, every stored span meets the table's checks, and every total is NULL or in range |
| TraceView.RowsDetermineAll | internal/store/insert.go:29-56 | traces and index are functions of the span rows |
| TraceView.SplittingABatch | internal/store/insert.go:58-122 | two accepted halves give the state of the accepted whole |
| TraceRows.RootChoice | internal/store/insert.go:33-34 | name and service come from a parentless span if there is one, the earliest of those |
| TraceRows.Bounds | internal/store/insert.go:35-43 | the trace spans its earliest start to its latest end, and has an error if and only if a span has |
| TraceRows.NullPropagates | internal/store/insert.go:36-41 | token and cost totals are NULL if and only if nothing counts or a counted span lacks the value |
| TraceRows.ModelsInOrder | internal/store/insert.go:46-51 | the models are joined by commas, every model used once, before those whose first use in time comes later |
| TraceRows.Counts | internal/store/insert.go:35 | span count, number of LLM spans, and duration as end minus start |
| TraceRows.TotalsOfOne | internal/store/insert.go:36-41 | the totals of one span are its values if it is an LLM or embedding span |
| TraceRows.TotalsOfParts | internal/store/insert.go:36-41 | token and cost totals add up over the parts of a trace; parts without such spans add nothing, and a missing value makes the total NULL |
| TraceRows.SessionAndUser | internal/store/insert.go:43-45 | session and user are those of the first span in time that has one |
| TraceRows.RowOrderDoesNotMatter | internal/store/insert.go:29-56 | the whole row does not depend on the order in which the spans are stored |
| TraceView.EligibleIffExpired | internal/store/retention.go:262-264 | the purge query selects exactly the traces all of whose spans ended, after they started, before the cutoff |
| TraceView.PurgeKeepsView | internal/store/retention.go:256-286 | named traces lose all spans, their row and postings; every other trace keeps all of them |
| TraceView.PurgeTwice | internal/store/retention.go:256-286 | batches of a purge compose to one purge |
| TraceView.ExpiredAfterPurge | internal/store/retention.go:256-286 | a purge changes the expiry of no other trace |
| SpanStore.ExecSpans | internal/store/insert.go:88-103 | the insert loop succeeds exactly when every span meets the table's checks |
| SpanStore.AcceptedInAscii | internal/store/migrate.go:15-20 | for ASCII ids the table takes exactly 32 and 16 bytes and the six kinds, and the store costs from zero to a million |
| SpanStore.RecomputeTraces | internal/store/insert.go:104-121 | the recompute loop, in any order, refreshes exactly the touched traces and refuses exactly an out-of-range total |
| SpanStore.InsertTx | internal/store/insert.go:82-122 | the transaction succeeds exactly for well-formed spans with totals in range, and reports each touched total |
| SpanStore.Store.InsertBatch | internal/store/insert.go:58-80 | all or nothing: an accepted batch leaves an exact view, any refusal leaves the database as it was |
| SpanStore.SelectEligible | internal/store/retention.go:262-264 | up to the limit, and everything eligible when the limit is not reached |
| SpanStore.Store.PurgeBatch | internal/store/retention.go:256-286 | deletes whole expired traces and counts them, or changes nothing |
| OneDatabase.ExecAllIsUpsertRows | internal/store/insert.go:88-103 | the insert loop over the table of rows does to spans by key what the correlation model's upsert of the same rows does |
| OneDatabase.InsertIsIngest | internal/store/insert.go:82-122 | a committed batch from elsewhere is the step of foreign ingest |
| OneDatabase.InsertIsCapture | internal/store/proxy_tool_calls.go:32-66 | the committed spans of a capture are what the step of a capture writes |
| OneDatabase.ExpiredIsTraceExpired | internal/store/retention.go:262-264 | a trace is expired in the table of rows if and only if it is in the correlation model |
| OneDatabase.DeleteIsPurge | internal/store/retention.go:256-286 | a transaction that deletes expired traces is a purge step, enabled and with the same table of spans after it |
| SpanStore.WholeAcceptedHalfRefused | internal/store/insert.go:104-121 | a batch accepted as a whole whose first half would be refused |
| Retention.MaybeMerge | internal/store/retention.go:234-243 | a merge on every mergeEvery-th batch, with the budget its predecessor calls for |
| Retention.Finish | internal/store/retention.go:194-213 | the deferred cleanup reclaims unless cancelled and keeps the first error first |
| Retention.Turn | internal/store/retention.go:222-252 | one turn stops or goes on as its context, delete, due merge, checkpoint and pause say, keeps count, log discipline and exactness, and makes progress when it goes on |
| Retention.Loop | internal/store/retention.go:221-253 | the loop ends at the first turn that is prevented, finds nothing, or breaks after its delete, with that turn's error, and at no other |
| Retention.FirstFailureEnds | internal/store/retention.go:221-253 | the first round that fails, if every batch before it found something, is the last: its failure is the error, and nothing is deleted after it |
| Retention.FinishedIff | internal/store/retention.go:230-233 | the loop ends without an error if and only if it came to a batch that found nothing |
| Retention.MergeBudgets | internal/store/retention.go:216-243 | a merge has a negative budget if it is the first or its predecessor found no work, and a positive one otherwise |
| Retention.PurgeLoop | internal/store/retention.go:193-254 | it ends as the loop does, that error staying first, with one reclamation unless cancelled; the count is what was committed on every exit; whatever ingest does in between, only traces expired at that moment are taken; a batch that finds nothing leaves nothing eligible; undisturbed it removes exactly the traces expired at its start; floor(batches / mergeEvery) merges |
| Retention.Purge | internal/store/retention.go:32-70 | refuses bad options, and refuses without any effect while an import holds the lock; otherwise counts and takes what the loop does |
| Pipeline.PriceBatch | internal/pipeline/pipeline.go:33-57 | prices in place exactly the spans the rule selects |
| Pipeline.PricedByTheTable | internal/pipeline/pipeline.go:38-57 | a span gets the table's price for its columns exactly if it has none, both token counts are known, and it is an LLM or embedding span or comes from the proxy |
| Pipeline.PricedIsSettled | internal/pipeline/pipeline.go:69-77 | a span that went through the pipeline would not be priced again on import |
| Pipeline.SettledIff | internal/pipeline/pipeline.go:39-55 | whatever its attributes, it would not be priced again if and only if import never prices it, it got its price, or the table has none for what its attributes say |
| Pipeline.UnsettledWithoutProviso | internal/pipeline/pipeline.go:44-47 | a span whose attributes disagree with its tokens would be |
| Import.Flush | internal/web/export.go:91-102 | an empty batch is nothing to do; another is priced and committed as a whole, exactly if it is accepted, or the store is left as it was |
| Import.BatchesKeepAll | internal/web/export.go:143-150 | the batches are the records of all lines, in order |
| Import.BatchesAreFilled | internal/web/export.go:143-150 | every full batch is a run of lines up to the first with which 500 spans or 32 MiB are reached, and the rest reaches neither |
| Import.BatchesAreOneCommit | internal/web/export.go:91-150 | however the spans are divided, batches accepted in turn leave what one commit of all of them, accepted too, would leave |
| Import.RefusedIsNotInTurn | internal/web/export.go:145-150 | a refused flush means that the batches of the whole file are not accepted in turn |
| Import.ImportSpans | internal/web/export.go:86-166 | an import succeeds if and only if every line can be read and every batch is accepted at its turn, and then leaves the store those batches leave and reports the non-blank lines; a stop has committed exactly the full batches before it; retention stays out throughout |
| Reimport.WritesOverwrite | internal/store/insert.go:17-27 | writing spans whose keys are stored leaves each row with the last span written for it and moves none |
| Reimport.SecondImportIff | internal/web/export.go:86-166 | importing a file again is accepted if and only if, after each full batch is written over what the first import left, the totals of the traces it touches are in range |
| Reimport.SecondImportChangesNothing | internal/web/export.go:86-166 | when it is accepted it changes nothing, not even row ids |
| Reimport.ImportTwiceIsOnce | internal/web/export.go:86-166 | a file in which no key occurs with different contents is always accepted again and changes nothing |
| Reimport.SecondImportRefused | internal/web/export.go:145-150 | a file of three lines that is accepted once and refused the second time |
| Reimport.SettledBatches | internal/web/export.go:86-166 | every batch of settled exported spans is accepted in turn and changes nothing |
| Reimport.ImportOfExport | internal/web/export.go:42-166 | importing the lines of any part of an export, in any order and division into batches, is accepted and changes nothing if and only if every span has both timestamps and is settled |
| GeminiParts.MergeGeminiParts | internal/proxy/parser.go:657-673 | the loop computes the specified merge |
| GeminiParts.MergeIsCompositional | internal/proxy/parser.go:657-673 | merging is idempotent and may be done piecewise |
| GeminiParts.MergedHasNoNeighbours | internal/proxy/parser.go:657-673 | no two neighbouring parts of the result both hold text |
| GeminiParts.MergeKeepsEverything | internal/proxy/parser.go:657-673 | the text and the sequence of other parts are preserved |
| GeminiParts.ReplyParts | internal/proxy/parser.go:638-653 | signatures and blank parts are dropped, and the message depends only on the sequence of parts, not on their division into chunks |
| GeminiParts.CollectedAreStripped | internal/proxy/parser.go:642-648 | what is collected is each part without its signature, with all other fields, unless nothing or only an empty text is left |
| GeminiParts.MessageHasNoSignature | internal/proxy/parser.go:636-673 | no part of a message carries a signature |
| GeminiParts.CutDoesNotMatter | internal/proxy/parser.go:636-673 | where a text is cut does not change the message, unless the first piece is empty without other fields and the second has some |
| GeminiParts.EmptyPieceIsNotSeen | internal/proxy/parser.go:642-648 | in that case the first piece might as well not have been sent |
| Streams.FoldChunks | internal/proxy/parser.go:505-547 | the loop over events computes the specified blocks |
| Streams.OrderedBlocks | internal/proxy/parser.go:554-575 | finished blocks in ascending order of index, each once |
| Streams.BlockIsConcatenation | internal/proxy/parser.go:514-541 | under any interleaving a block is its last start extended by the concatenation of its own fragments since |
| Streams.WholeBlocks | internal/proxy/parser.go:577-594 | the whole-message loop reduces each content item |
| Streams.StreamAgreesWithMessage | internal/proxy/parser.go:505-594 | text and thinking agree with the whole message however cut; another block does if and only if its joined input decodes to the message's and nothing was left behind |
| Streams.ThinkingIsReduced | internal/proxy/parser.go:505-594 | of a thinking block nothing is kept but its length, streamed or whole |
| Streams.StreamedReplyIsWholeReply | internal/proxy/parser.go:505-594 | an entire interleaved stream gives the content list of the whole reply |
| Streams.FoldTools | internal/proxy/parser.go:706-727 | the loop over tool deltas computes the specified table |
| Streams.ToolIsConcatenation | internal/proxy/parser.go:706-727 | per index, arguments are the concatenation of that index's fragments, with the last id and name and the first type, under any interleaving |
| Flatten.SetPathIsPut | internal/normalize/flatten.go:43-69 | setting a path succeeds exactly when all its indexes are in bounds, and then is the total write |
| Flatten.Commute | internal/normalize/flatten.go:43-69 | writes at compatible paths commute, on any tree |
| Flatten.OrderDoesNotMatter | internal/normalize/flatten.go:31-40 | writes of which every two are compatible or the same give one tree in every order |
| Flatten.CommuteIff | internal/normalize/flatten.go:43-69 | on any node two writes commute if and only if their paths are compatible or they write the same value to the same place |
| Flatten.OrderSettledIff | internal/normalize/flatten.go:31-40 | on any node all orders of any writes build one tree if and only if every two of them are such |
| Flatten.ConflictsDependOnOrder | internal/normalize/flatten.go:43-69 | for example, an index and a name under one node do not |
| FlattenRoundTrip.RebuildIndexed | internal/normalize/flatten.go:20-41 | the sorted loop is the specified rebuild over exactly the matching keys, absent without any and rejected exactly for an index out of bounds |
| FlattenRoundTrip.SplitUndoesJoin | internal/normalize/flatten.go:35 | splitting a key at its dots gives back the path it was joined from |
| FlattenRoundTrip.JoinUndoesSplit | internal/normalize/flatten.go:35 | and joining gives back the key |
| FlattenRoundTrip.KeyOrderDoesNotMatter | internal/normalize/flatten.go:31-40 | for keys that are compatible or write the same to the same place every visiting order rebuilds the same tree or fails alike |
| FlattenRoundTrip.LeavesClean | internal/normalize/flatten.go:43-69 | the paths of a tree are in bounds, dot-free and conflict-free |
| FlattenRoundTrip.Build | internal/normalize/flatten.go:43-69 | writing all paths of a tree rebuilds it |
| FlattenRoundTrip.RoundTrip | internal/normalize/flatten.go:20-69 | rebuilding the dotted paths of any tree of non-empty arrays (at most 10,001 items) and objects with plain keys returns the tree |
| FlattenRoundTrip.SortedOrderIsNotIndexOrder | internal/normalize/flatten.go:31 | sorting really visits index 10 before index 2 |
| Paging.AllIsDescending | internal/store/query.go:174-187 | a listing is exactly the matching rows in strictly descending (start, id) order |
| Paging.AfterCursor | internal/store/query.go:178-181 | a cursor leaves exactly the rows after it, unless its stamp is zero, when it is ignored |
| Paging.RequestAt | internal/web/agent_json.go:60-67 | a page is the next limit rows, with a cursor exactly when more follow |
| Paging.RequestsServe | internal/web/agent_json.go:82-108 | the cursor of a row is refused, ignored or followed by the page after that row, by its identifier and stamp |
| Paging.WalkIsExact | internal/web/agent_json.go:82-108 | as long as no page ends badly, n requests list the first n pages in order, each row once, and go on exactly while rows remain |
| Paging.WalkIsRefused | internal/web/agent_json.go:46-56 | a page that ends at an identifier the cursor check refuses is the last one |
| Paging.WalkNeverEnds | internal/store/query.go:178-181 | a page boundary at a zero stamp restarts the walk for ever |
| Paging.WalkCompletesIff | internal/web/agent_json.go:82-108 | a walk completes if and only if no page with rows after it ends at a zero stamp or a refused identifier, and then it has listed everything |
| Paging.WalkRefusedIff | internal/web/agent_json.go:92-97 | it ends in a refusal if and only if the first page that ends badly ends at a refused identifier |
| Paging.SessionWalk | internal/web/agent_json.go:110-138 | a walk over sessions is never refused, and completes if and only if no page with rows after it ends at a session whose last end is zero |
| Paging.OddTraceIdEndsTheWalk | internal/web/agent_json.go:46-56 | a stored trace id that is not hexadecimal hides the rows after it |
| Paging.WindowsJoinToTheText | internal/web/agent_json.go:247-259 | following next_offset, the windows join to the rest of the text |
| Paging.WindowHolds | internal/web/agent_json.go:247-259 | a window holds at most the code points asked for, exactly those when more follow, and says the total and where to go on |
| Paging.HexIdIff | internal/web/agent_json.go:46-56 | the trace cursor admits exactly identifiers of 32 hexadecimal digits |
| Utf8.DecodeCut | internal/store/sqlpage.go:79 | following text changes a decoded code point only by cutting it short |
| Utf8.DecodeEncoded | internal/store/sqlpage.go:79 | decoding gives back every encoded code point |
| Utf8.WellFormedIsEncoded | internal/store/sqlpage.go:79 | and takes nothing for well formed but such encodings |
| SqlTokens.QuotedEnd | internal/store/sqlpage.go:130-141 | the loop finds the specified end of a quoted value |
| SqlTokens.SqlTokens | internal/store/sqlpage.go:76-128 | the loop computes the specified tokens or failure, and always advances |
| SqlTokens.PiecesPartitionTheText | internal/store/sqlpage.go:76-128 | a text that scans is the concatenation of non-empty pieces, and the tokens are theirs |
| SqlTokens.QuotedIff | internal/store/sqlpage.go:130-141 | a quoted value ends after n bytes if and only if they are some value quoted by doubling and no quote follows |
| SqlTokens.FillerChangesNothing | internal/store/sqlpage.go:76-128 | white space or a block comment between two pieces leaves tokens and failures as they were |
| SqlTokens.CheckUserSQL | internal/store/sqlpage.go:35-68 | the guard's loops give the specified verdict with its reason |
| SqlTokens.AcceptedIff | internal/store/sqlpage.go:35-68 | accepted if and only if within the size, well terminated, one statement of an allowed kind, and without forbidden words or calls |
| SqlTokens.VerdictIgnoresFiller | internal/store/sqlpage.go:35-68 | within the size limit the verdict does not depend on white space or block comments between tokens |
| SqlText.AcceptedOnText | internal/store/sqlpage.go:35-146 | told byte by byte, without the tokenizer: accepted if and only if within the size, ending in code or a line comment, the first visible word an allowed one, nothing visible after a semicolon, no forbidden word, and no forbidden function before a parenthesis |
| SqlText.ForbiddenInAnyCase | internal/store/sqlpage.go:60-63 | a text with a forbidden word in any case outside quotes and comments, between bytes of no word, is not accepted |
| SqlText.ForbiddenCallInAnyCase | internal/store/sqlpage.go:64-66 | nor is one with a forbidden function and a parenthesis next |
| SqlText.StartsInAnyCase | internal/store/sqlpage.go:35-68 | a text with none of these that starts with an allowed word in any case is accepted |
| SqlText.VerdictIgnoresCase | internal/store/sqlpage.go:35-146 | the verdict does not depend on the case of ASCII letters |
| SqlText.QuotedAfterSemicolon | internal/store/sqlpage.go:97-112 | a quoted value is not visible: one after the closing semicolon is accepted |

## Left out

- HTTP relaying, header filtering, compression, timeouts, authentication, templates, dashboards and configuration.
- Protobuf and JSON decoding, event-stream line scanning, SHA-256 and JSON encoding: models start from decoded values.
- SQLite internals (WAL, checkpoints, incremental vacuum, segment merging, ranking): checkpoint, merge and reclamation are outcomes given to the purge loop.
- 64-bit overflow of token sums and of the arrival counter, and floating-point rounding of costs and durations.
- Attribute tables: which log record is a request or response and its pairing key are inputs, and so are the LIKE filters of the listings.
- Visible text of prompts and outputs (turnText): root inputs and outputs are given strings.
- Token usage, finish reasons and the other scalar fields that the stream parsers pick up.
- The exact walk over search results: their cursor (start, span id) is unique only within a trace.
- Handler.Handler.Capture: takes the trace chosen for the exchange and the turn's merged root span as given; TurnTable models how they arise and JointRuns composes the two.
- SpanStore.ExecSpans: the length check counts characters, and each byte of malformed UTF-8 as one; SQLite counts some malformed sequences otherwise and stops at a NUL byte.
- Handler.Store.InsertProxyBatch: the trace recomputation inside the same transaction is modelled in SpanStore, here it only appears as a statement that can be refused; OneDatabase relates the two tables of spans.
- SpanStore.RecomputeTraces: visits the traces in any order; the source sorts them, which decides only the trace an error names.
- Retention.PurgeLoop: ingest interferes in finitely many turns given beforehand; after them the loop is undisturbed, so endless interference is not covered.
- Retention.Purge: the deletes of expired correlation and turn records before the purge are steps of Correlation and TurnTable, not of this method.
- Import.ImportSpans: a line is given as blank, undecodable or a span with its length; the 256 MiB line limit is a scan error, and ingest that commits between two batches is not modelled.
- Reimport.ImportOfExport: the JSON text of a span, with its base64 overrides for invalid UTF-8, is taken to read back as the span.
- TurnTable.RootIsMergeOfItsCaptures: the purge of a trace, which removes its root span, is not an event there; a later capture of the turn writes the span again.
- ResultSpans.AnsweredCallIsLinked: speaks of calls whose record has not expired; afterwards a result is an orphan.
- SqlTokens.SqlTokens: Go's Unicode tables and upper-casing are parameters of which only the ASCII part is fixed, and that upper-casing ignores the case of ASCII letters and makes no semicolon or parenthesis.
- LogRuns.SpanAttributes: the span's name, its resource and scope, and the trace and span ids that are hashed when the record has none, are not part of this model.

// Matching tool results to the calls that issued them (internal/proxy/relay.go and
// internal/store/proxy_tool_calls.go): the transitions of the handler and its database, written as
// functions. Handler.dfy proves the imperative code against them; CorrelationRuns.dfy proves what
// every run of them guarantees.
module Correlation {
  import opened Prelude
  import opened RingCache

  datatype ToolKey = ToolKey(route: string, session: string, id: string)

  // Trace and span ids. Each constructor stands for one prefix given to the hash, applied to an
  // injective encoding of its arguments.
  datatype Id =
    | NoParent
    | Given(text: string)
    | SessionTrace(seed: string)
    | ModelSpan(route: string, session: string, seed: string)
    | TurnTrace(turnKey: string)
    | TurnRoot(turnKey: string)
    | ToolTrace(key: ToolKey)
    | ToolSpan(key: ToolKey)

  datatype Span = Span(parentId: Id, startNs: int, endNs: int, toolName: string, arguments: Option<string>,
                       content: string, isError: bool)

  datatype Row = Row(traceId: Id, spanId: Id, span: Span)

  type SpanTable = map<(Id, Id), Span>

  // toolCall, with the clock reading taken if it is recorded.
  datatype Call = Call(name: string, arguments: Option<string>, createdNs: int)

  datatype Result = Result(id: string, name: string, arguments: Option<string>, content: string, isError: bool)

  datatype Origin = Origin(name: string, arguments: Option<string>, traceId: Id, spanId: Id, endNs: int,
                           firstResultNs: int, hasResult: bool, createdNs: int)

  type Origins = map<ToolKey, Origin>

  // One decoded exchange. `traceId` and `model` carry the trace chosen by proxyTurn, `root` is the
  // span that the turn upsert adds to the batch, `results` is the answer of toolResults and `calls`
  // that of toolCalls.
  datatype Exchange = Exchange(route: string, session: string, seed: string, traceId: Id, startNs: int, endNs: int,
                               model: Span, root: Option<Row>, results: seq<Result>, calls: map<string, Call>) {
    function Key(id: string): ToolKey {
      ToolKey(route, session, id)
    }

    function SpanId(): Id {
      ModelSpan(route, session, seed)
    }

    function ModelRow(): Row {
      Row(traceId, SpanId(), model)
    }

    predicate WellFormed() {
      !traceId.ToolTrace? && (root.Some? ==> !root.value.spanId.ToolSpan?)
    }
  }

  // ----- One map of origins: what a capture does to it -----

  function NoteResult(m: Origins, ex: Exchange, r: Result): Origins {
    var k := ex.Key(r.id);
    if k in m && !m[k].hasResult then m[k := m[k].(firstResultNs := ex.startNs, hasResult := true)] else m
  }

  function NoteResults(m: Origins, ex: Exchange, rs: seq<Result>): Origins {
    if rs == [] then m else NoteResult(NoteResults(m, ex, rs[..|rs| - 1]), ex, rs[|rs| - 1])
  }

  function NewOrigin(ex: Exchange, call: Call): Origin {
    Origin(call.name, call.arguments, ex.traceId, ex.SpanId(), ex.endNs, 0, false, call.createdNs)
  }

  // The calls whose ids are in `done` have been recorded. The first issue of a key wins.
  ghost predicate Issued(m: Origins, ex: Exchange, done: set<string>, tx: Origins)
    requires done <= ex.calls.Keys
  {
    && (forall k :: k in tx <==> k in m || (k.id in done && k == ex.Key(k.id)))
    && (forall k :: k in tx ==> tx[k] == (if k in m then m[k] else NewOrigin(ex, ex.calls[k.id])))
  }

  function IssueCalls(m: Origins, ex: Exchange): (tx: Origins)
    ensures Issued(m, ex, ex.calls.Keys, tx)
  {
    var issued := map id | id in ex.calls :: ex.Key(id) := NewOrigin(ex, ex.calls[id]);
    assert forall k: ToolKey :: k.id in ex.calls && k == ex.Key(k.id) ==> ex.Key(k.id) in issued;
    issued + m
  }

  function After(m: Origins, ex: Exchange, rs: seq<Result>): Origins {
    IssueCalls(NoteResults(m, ex, rs), ex)
  }

  // toolSpan and the overrides for a linked result; `m` already counts this result.
  function ResultRow(m: Origins, ex: Exchange, r: Result): Row {
    var k := ex.Key(r.id);
    if k in m then
      var o := m[k];
      Row(o.traceId, ToolSpan(k),
          Span(o.spanId, Min(o.endNs, o.firstResultNs), o.firstResultNs, if r.name == "" then o.name else r.name,
               if r.arguments.None? then o.arguments else r.arguments, r.content, r.isError))
    else
      Row(ToolTrace(k), ToolSpan(k),
          Span(NoParent, ex.startNs, ex.startNs, r.name, r.arguments, r.content, r.isError))
  }

  function ResultRows(m: Origins, ex: Exchange, rs: seq<Result>): (rows: seq<Row>)
    ensures |rows| == |rs|
  {
    if rs == [] then []
    else ResultRows(m, ex, rs[..|rs| - 1]) + [ResultRow(NoteResults(m, ex, rs), ex, rs[|rs| - 1])]
  }

  // ----- The handler's cache over the database -----

  datatype Sys = Sys(ring: Ring<ToolKey, Origin>, calls: Origins, spans: SpanTable) {
    // What a lookup finds: the cache first, then the database.
    function View(): Origins {
      calls + ring.entries
    }
  }

  const INIT := Sys(Empty(), map[], map[])

  function Ids(rs: seq<Result>): set<string> {
    set r | r in rs :: r.id
  }

  // Having looked up the ids in `ids` and reached the plain map `m`, `origins` holds exactly what
  // the cache does not already say about those keys.
  ghost predicate Tracks(cache: Origins, calls: Origins, ex: Exchange, ids: set<string>, m: Origins, origins: Origins) {
    && (forall k :: k in m <==> k in origins || k in cache || k in calls)
    && (forall k :: k in m ==> m[k] == (if k in origins then origins[k] else if k in cache then cache[k] else calls[k]))
    && (forall k :: k in cache ==> m[k] == cache[k] || (!cache[k].hasResult && m[k].hasResult))
    && (forall k :: k in origins <==> k in m && k.id in ids && k == ex.Key(k.id) && (k !in cache || m[k] != cache[k]))
  }

  // The origins map that toolSpansLocked hands to the commit: every key it looked at and found
  // outside the cache, changed or created.
  ghost function Pending(cache: Origins, calls: Origins, ex: Exchange, rs: seq<Result>): Origins {
    var after := After(calls + cache, ex, rs);
    map k | k in after && k.id in Ids(rs) + ex.calls.Keys && k == ex.Key(k.id) && (k !in cache || after[k] != cache[k])
      :: after[k]
  }

  // ON CONFLICT(key) DO UPDATE: only the result columns change, and a recorded result stays.
  function MergeCall(stored: Origin, incoming: Origin): Origin {
    stored.(firstResultNs := if stored.hasResult then stored.firstResultNs else incoming.firstResultNs,
          hasResult := stored.hasResult || incoming.hasResult)
  }

  function UpsertCall(calls: Origins, k: ToolKey, o: Origin): Origins {
    calls[k := if k in calls then MergeCall(calls[k], o) else o]
  }

  // The statements for the keys in `done` have been executed.
  ghost predicate Upserted(calls: Origins, origins: Origins, done: set<ToolKey>, tx: Origins)
    requires done <= origins.Keys
  {
    && (forall k :: k in tx <==> k in calls || k in done)
    && (forall k | k in tx :: tx[k] ==
          if k !in done then calls[k] else if k in calls then MergeCall(calls[k], origins[k]) else origins[k])
  }

  function UpsertCalls(calls: Origins, origins: Origins): (tx: Origins)
    ensures Upserted(calls, origins, origins.Keys, tx)
  {
    calls + map k | k in origins :: if k in calls then MergeCall(calls[k], origins[k]) else origins[k]
  }

  function UpsertRows(spans: SpanTable, rows: seq<Row>): SpanTable {
    if rows == [] then spans
    else var r := rows[|rows| - 1]; UpsertRows(spans, rows[..|rows| - 1])[(r.traceId, r.spanId) := r.span]
  }

  // Retention: DELETE FROM proxy_tool_calls WHERE created_ns < cutoff.
  function Swept(calls: Origins, cutoff: Option<int>): Origins {
    map k | k in calls && (cutoff.Some? ==> calls[k].createdNs >= cutoff.value) :: calls[k]
  }

  // Retention: every span of the trace ended, after it started, before the cutoff.
  ghost predicate TraceExpired(spans: SpanTable, traceId: Id, cutoff: int) {
    && (exists id :: (traceId, id) in spans)
    && forall id :: (traceId, id) in spans ==>
         var span := spans[(traceId, id)]; span.startNs <= span.endNs && 0 < span.endNs < cutoff
  }

  function WithoutTraces(spans: SpanTable, gone: set<Id>): SpanTable {
    map key | key in spans && key.0 !in gone :: spans[key]
  }

  // The stored span that a recorded result demands.
  ghost predicate Fits(o: Origin, span: Span) {
    span.parentId == o.spanId && span.endNs == o.firstResultNs && span.startNs == Min(o.endNs, o.firstResultNs)
  }

  // A foreign row, which may be a tool span when it comes from an import, does not contradict a
  // recorded result.
  ghost predicate Agrees(m: Origins, row: Row) {
    row.spanId.ToolSpan? && row.spanId.key in m ==>
      var o := m[row.spanId.key]; o.hasResult && row.traceId == o.traceId ==> Fits(o, row.span)
  }

  function Batch(ex: Exchange, m: Origins): seq<Row> {
    [ex.ModelRow()] + ResultRows(m, ex, ex.results) + (if ex.root.Some? then [ex.root.value] else [])
  }

  // ----- Steps -----

  // `visit` is the order in which the cache loop meets the origins; `sweep` is a retention delete
  // that slipped in between the reads and the commit, which toolMu does not exclude. Retention
  // first deletes records (Retention), then expired traces, a batch at a time (Purge).
  datatype Step =
    | Captured(ex: Exchange, visit: seq<ToolKey>, sweep: Option<int>)
    | Dropped(ex: Exchange, visit: seq<ToolKey>, sweep: Option<int>)
    | Failed(sweep: Option<int>)
    | Restart
    | Retention(cutoff: int)
    | Purge(cutoff: int, gone: set<Id>)
    | Ingest(rows: seq<Row>)

  ghost predicate CanCommit(s: Sys, ex: Exchange, rs: seq<Result>, visit: seq<ToolKey>) {
    && ex.WellFormed()
    && Enumerates(visit, Pending(s.ring.entries, s.calls, ex, rs).Keys)
    && s.ring.next < MAX_TOOL_CALLS && (|s.ring.order| < MAX_TOOL_CALLS ==> s.ring.next == 0)
  }

  ghost function Commit(s: Sys, ex: Exchange, rs: seq<Result>, visit: seq<ToolKey>, sweep: Option<int>,
                        rows: seq<Row>): Sys
    requires CanCommit(s, ex, rs, visit)
  {
    var origins := Pending(s.ring.entries, s.calls, ex, rs);
    Sys(PutAll(s.ring, origins, visit), UpsertCalls(Swept(s.calls, sweep), origins), UpsertRows(s.spans, rows))
  }

  ghost predicate Enabled(s: Sys, step: Step) {
    match step
    case Captured(ex, visit, _) => CanCommit(s, ex, ex.results, visit)
    case Dropped(ex, visit, _) => CanCommit(s, ex, [], visit)
    case Purge(cutoff, gone) => forall t :: t in gone ==> TraceExpired(s.spans, t, cutoff)
    case Ingest(rows) => forall i :: 0 <= i < |rows| ==> Agrees(s.View(), rows[i])
    case _ => true
  }

  ghost function Apply(s: Sys, step: Step): Sys
    requires Enabled(s, step)
  {
    match step
    case Captured(ex, visit, sweep) => Commit(s, ex, ex.results, visit, sweep, Batch(ex, s.View()))
    case Dropped(ex, visit, sweep) => Commit(s, ex, [], visit, sweep, [])
    case Failed(sweep) => s.(calls := Swept(s.calls, sweep))
    case Restart => s.(ring := Empty())
    case Retention(cutoff) => s.(calls := Swept(s.calls, Some(cutoff)))
    case Purge(_, gone) => s.(spans := WithoutTraces(s.spans, gone))
    case Ingest(rows) => s.(spans := UpsertRows(s.spans, rows))
  }

  ghost predicate Legal(steps: seq<Step>)
    decreases |steps|, 1
  {
    steps != [] ==> Legal(steps[..|steps| - 1]) && LastEnabled(steps)
  }

  ghost predicate LastEnabled(steps: seq<Step>)
    requires steps != [] && Legal(steps[..|steps| - 1])
    decreases |steps|, 0
  {
    Enabled(Run(steps[..|steps| - 1]), steps[|steps| - 1])
  }

  ghost function Run(steps: seq<Step>): Sys
    requires Legal(steps)
    decreases |steps|, 3
  {
    if steps == [] then INIT else LastApplied(steps)
  }

  ghost function LastApplied(steps: seq<Step>): Sys
    requires steps != [] && Legal(steps)
    decreases |steps|, 2
  {
    assert LastEnabled(steps);
    Apply(Run(steps[..|steps| - 1]), steps[|steps| - 1])
  }

  // ----- The reference: one plain map, no cache, no eviction, no retention -----

  function PlainApply(m: Origins, step: Step): Origins {
    match step
    case Captured(ex, _, _) => After(m, ex, ex.results)
    case Dropped(ex, _, _) => After(m, ex, [])
    case _ => m
  }

  function PlainRun(steps: seq<Step>): Origins {
    if steps == [] then map[] else PlainApply(PlainRun(steps[..|steps| - 1]), steps[|steps| - 1])
  }
}

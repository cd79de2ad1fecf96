// The span table, the trace table computed from it, and the full-text index kept by triggers
// (internal/store/insert.go and migrate.go), with the retention delete of retention.go.
module TraceStore {
  import opened Prelude
  import opened Seqs
  import opened Order
  import opened Utf8

  const MAX_COST := 1_000_000.0

  // `Unlisted` is any kind that the table's CHECK refuses.
  datatype Kind = Llm | Embedding | Tool | Retrieval | Agent | Other | Unlisted(name: string)

  datatype Span = Span(traceId: string, spanId: string, parentId: string, name: string, kind: Kind, service: string,
                       startNs: int, endNs: int, statusCode: int, provider: string, requestModel: string,
                       responseModel: string, inputTokens: Option<int>, outputTokens: Option<int>,
                       cacheRead: Option<int>, cost: Option<real>, costSource: string,
                       input: string, output: string, session: string, user: string, attributes: string,
                       cacheCreation: Option<int>)

  datatype Row = Row(id: int, span: Span)

  datatype TraceRow = TraceRow(name: string, service: string, startNs: int, endNs: int, durationMs: real,
                               spanCount: nat, llmCount: nat, inputTokens: Option<int>, outputTokens: Option<int>,
                               cost: Option<real>, hasError: bool, session: string, user: string, models: string)

  // What the index holds for one row: the postings are a function of these texts.
  datatype Doc = Doc(id: int, input: string, output: string, name: string)

  type Table = seq<Row>

  datatype Db = Db(rows: Table, traces: map<string, TraceRow>, index: multiset<Doc>)

  const EMPTY := Db([], map[], multiset{})

  // ----- Reading the span table -----

  function HasKey(traceId: string, spanId: string): Row -> bool {
    (r: Row) => r.span.traceId == traceId && r.span.spanId == spanId
  }

  function InTrace(traceId: string): Span -> bool {
    (s: Span) => s.traceId == traceId
  }

  function Spans(rows: Table): seq<Span> {
    seq(|rows|, i requires 0 <= i < |rows| => rows[i].span)
  }

  function SpansOf(rows: Table, traceId: string): seq<Span> {
    Filter(InTrace(traceId), Spans(rows))
  }

  function DocOf(r: Row): Doc {
    Doc(r.id, r.span.input, r.span.output, r.span.name)
  }

  function Docs(rows: Table): seq<Doc> {
    seq(|rows|, i requires 0 <= i < |rows| => DocOf(rows[i]))
  }

  // ----- The aggregate of one trace: recomputeTraceSQL -----

  predicate TimeLeq(a: Span, b: Span) {
    a.startNs < b.startNs || (a.startNs == b.startNs && StrLeq(a.spanId, b.spanId))
  }

  // ORDER BY (parent_span_id<>''), start_ns, span_id
  predicate RootLeq(a: Span, b: Span) {
    (a.parentId == "" && b.parentId != "") || ((a.parentId == "" <==> b.parentId == "") && TimeLeq(a, b))
  }

  predicate Counted(s: Span) {
    s.kind == Llm || s.kind == Embedding
  }

  function ModelOf(s: Span): string {
    if s.responseModel != "" then s.responseModel else s.requestModel
  }

  function MinStart(rows: seq<Span>): int
    requires rows != []
  {
    if |rows| == 1 then rows[0].startNs else Min(rows[0].startNs, MinStart(rows[1..]))
  }

  function MaxEnd(rows: seq<Span>): int
    requires rows != []
  {
    if |rows| == 1 then rows[0].endNs else Max(rows[0].endNs, MaxEnd(rows[1..]))
  }

  function SumInt(rows: seq<Span>, f: Span -> Option<int>): int {
    if rows == [] then 0
    else (if Counted(rows[0]) && f(rows[0]).Some? then f(rows[0]).value else 0) + SumInt(rows[1..], f)
  }

  function SumCost(rows: seq<Span>): real {
    if rows == [] then 0.0
    else (if Counted(rows[0]) && rows[0].cost.Some? then rows[0].cost.value else 0.0) + SumCost(rows[1..])
  }

  // NULL unless there is something to sum and every counted span has a value.
  predicate Known<T>(rows: seq<Span>, f: Span -> Option<T>) {
    && (exists i :: 0 <= i < |rows| && Counted(rows[i]))
    && (forall i :: 0 <= i < |rows| && Counted(rows[i]) ==> f(rows[i]).Some?)
  }

  function InputTokens(): Span -> Option<int> {
    (s: Span) => s.inputTokens
  }

  function OutputTokens(): Span -> Option<int> {
    (s: Span) => s.outputTokens
  }

  function CostOf(): Span -> Option<real> {
    (s: Span) => s.cost
  }

  function IsLlm(): Span -> bool {
    (s: Span) => s.kind == Llm
  }

  function SessionOf(): Span -> string {
    (s: Span) => s.session
  }

  function UserOf(): Span -> string {
    (s: Span) => s.user
  }

  function TokenTotal(rows: seq<Span>, f: Span -> Option<int>): Option<int> {
    if Known(rows, f) then Some(SumInt(rows, f)) else None
  }

  function CostTotal(rows: seq<Span>): Option<real> {
    if Known(rows, CostOf()) then Some(SumCost(rows)) else None
  }

  function FirstText(rows: seq<Span>, f: Span -> string): string {
    if rows == [] then "" else if f(rows[0]) != "" then f(rows[0]) else FirstText(rows[1..], f)
  }

  // Every model once, in order of first use.
  function ModelList(rows: seq<Span>): seq<string> {
    if rows == [] then []
    else
      var init, model := ModelList(rows[..|rows| - 1]), ModelOf(rows[|rows| - 1]);
      if model == "" || model in init then init else init + [model]
  }

  function Join(names: seq<string>): string {
    if names == [] then "" else if |names| == 1 then names[0] else names[0] + "," + Join(names[1..])
  }

  predicate HasError(rows: seq<Span>) {
    exists i :: 0 <= i < |rows| && rows[i].statusCode == 2
  }

  function Recompute(rows: seq<Span>): TraceRow
    requires rows != []
  {
    SortMembers(RootLeq, rows);
    var byTime, root := Sort(TimeLeq, rows), Sort(RootLeq, rows)[0];
    TraceRow(root.name, root.service, MinStart(rows), MaxEnd(rows), (MaxEnd(rows) - MinStart(rows)) as real / 1e6,
      |rows|,
             |Filter(IsLlm(), rows)|, TokenTotal(rows, InputTokens()),
             TokenTotal(rows, OutputTokens()), CostTotal(rows),
             HasError(rows),
             FirstText(byTime, SessionOf()), FirstText(byTime, UserOf()), Join(ModelList(byTime)))
  }

  // ----- Statements -----

  predicate InRange(cost: real) {
    0.0 <= cost <= MAX_COST
  }

  // The CHECK constraints of the span table; SQLite's length counts characters.
  predicate Accepted(s: Span) {
    Characters(s.traceId) == 32 && Characters(s.spanId) == 16 && !s.kind.Unlisted?
  }

  predicate CostOk(cost: Option<real>) {
    cost.Some? ==> InRange(cost.value)
  }

  function NextId(rows: Table): int {
    if rows == [] then 1 else rows[|rows| - 1].id + 1
  }

  // The table has no column for cache-creation tokens.
  function Stored(s: Span): Span {
    s.(cacheCreation := None)
  }

  // INSERT ... ON CONFLICT(trace_id, span_id) DO UPDATE, with the insert or update trigger.
  function Exec(db: Db, s: Span): Db {
    var i := LastIndex(HasKey(s.traceId, s.spanId), db.rows);
    if i < 0 then
      var r := Row(NextId(db.rows), Stored(s));
      db.(rows := db.rows + [r], index := db.index + multiset{DocOf(r)})
    else
      var r := Row(db.rows[i].id, Stored(s));
      db.(rows := db.rows[i := r], index := db.index - multiset{DocOf(db.rows[i])} + multiset{DocOf(r)})
  }

  function ExecAll(db: Db, spans: seq<Span>): Db {
    if spans == [] then db else Exec(ExecAll(db, spans[..|spans| - 1]), spans[|spans| - 1])
  }

  function TraceIds(spans: seq<Span>): set<string> {
    set s | s in spans :: s.traceId
  }

  // The trace table with the rows of `traceIds` computed anew; `aggregate` is the SELECT.
  function Recomputed(rows: Table, traces: map<string, TraceRow>, traceIds: set<string>,
                      aggregate: seq<Span> --> TraceRow)
    : (traces': map<string, TraceRow>)
    requires forall spans :: spans != [] ==> aggregate.requires(spans)
    ensures forall t :: t in traces' <==> t in traces || (t in traceIds && SpansOf(rows, t) != [])
    ensures forall t :: t in traces' ==>
      traces'[t] == if t in traceIds && SpansOf(rows, t) != [] then aggregate(SpansOf(rows, t)) else traces[t]
  {
    traces + map t | t in traceIds && SpansOf(rows, t) != [] :: aggregate(SpansOf(rows, t))
  }

  function Refresh(db: Db, traceIds: set<string>): Db {
    db.(traces := Recomputed(db.rows, db.traces, traceIds, Recompute))
  }

  function Inserted(db: Db, spans: seq<Span>): Db {
    Refresh(ExecAll(db, spans), TraceIds(spans))
  }

  // What insertBatch accepts: well-formed spans with costs in range, and no touched trace whose
  // total leaves the range.
  predicate Insertable(db: Db, spans: seq<Span>) {
    && (forall i :: 0 <= i < |spans| ==> CostOk(spans[i].cost) && Accepted(spans[i]))
    && (forall t :: t in TraceIds(spans) ==> CostOk(CostTotal(SpansOf(ExecAll(db, spans).rows, t))))
  }

  // ----- Retention -----

  predicate Unfinished(s: Span) {
    s.endNs <= 0 || s.endNs < s.startNs
  }

  // The WHERE clause of purgeBatch, on the trace row and its spans.
  predicate Eligible(db: Db, traceId: string, cutoff: int) {
    && traceId in db.traces
    && db.traces[traceId].startNs < cutoff && db.traces[traceId].endNs < cutoff
    && !exists i :: 0 <= i < |db.rows| && db.rows[i].span.traceId == traceId && Unfinished(db.rows[i].span)
  }

  function NotIn(del: set<string>): Row -> bool {
    (r: Row) => r.span.traceId !in del
  }

  function In(del: set<string>): Row -> bool {
    (r: Row) => r.span.traceId in del
  }

  // Both DELETEs; the delete trigger takes each row's document out of the index.
  function Deleted(db: Db, del: set<string>): Db {
    Db(Filter(NotIn(del), db.rows), db.traces - del,
       db.index - multiset(Docs(Filter(In(del), db.rows))))
  }
}

// Importing a file again, and importing an export (internal/web/export.go): when the second import
// is accepted, and what it changes.
module Reimport {
  import opened Prelude
  import Seqs
  import opened TraceStore
  import opened TraceView
  import opened SpanStore
  import opened Pipeline
  import opened Import

  // ----- Writing over stored rows -----

  function SpanKey(traceId: string, spanId: string): Span -> bool {
    (s: Span) => s.traceId == traceId && s.spanId == spanId
  }

  // The last span written for a row's key, if any.
  function LastWrite(spans: seq<Span>, r: Row): int {
    LastIndex(SpanKey(r.span.traceId, r.span.spanId), spans)
  }

  function Overwritten(spans: seq<Span>, r: Row): Row {
    if LastWrite(spans, r) < 0 then r else Row(r.id, Stored(spans[LastWrite(spans, r)]))
  }

  ghost predicate HasRow(rows: Table, s: Span) {
    exists i :: 0 <= i < |rows| && rows[i].span.traceId == s.traceId && rows[i].span.spanId == s.spanId
  }

  lemma LastWriteNext(init: seq<Span>, last: Span, r: Row)
    ensures LastWrite(init + [last], r) ==
      if r.span.traceId == last.traceId && r.span.spanId == last.spanId then |init| else LastWrite(init, r)
  {
    LastIndexAppend(SpanKey(r.span.traceId, r.span.spanId), init, [last]);
    assert [last][..0] == [];
  }

  // Writing spans whose keys are all stored only replaces contents: each row ends up with the last
  // span written for its key.
  lemma {:induction false} WritesOverwrite(db: Db, spans: seq<Span>)
    requires KeysUnique(db.rows)
    requires forall i :: 0 <= i < |spans| ==> HasRow(db.rows, spans[i])
    ensures |ExecAll(db, spans).rows| == |db.rows|
    ensures forall j :: 0 <= j < |db.rows| ==> ExecAll(db, spans).rows[j] == Overwritten(spans, db.rows[j])
  {
    if spans != [] {
      var init, last := spans[..|spans| - 1], spans[|spans| - 1];
      assert spans == init + [last];
      WritesOverwrite(db, init);
      OneMoreWrite(db.rows, ExecAll(db, init), init, last);
    }
  }

  lemma OneMoreWrite(rows: Table, mid: Db, init: seq<Span>, last: Span)
    requires KeysUnique(rows) && HasRow(rows, last) && |mid.rows| == |rows|
    requires forall j :: 0 <= j < |rows| ==> mid.rows[j] == Overwritten(init, rows[j])
    ensures |Exec(mid, last).rows| == |rows|
    ensures forall j :: 0 <= j < |rows| ==> Exec(mid, last).rows[j] == Overwritten(init + [last], rows[j])
  {
    SameKeys(rows, mid.rows, init);
    var i :| 0 <= i < |rows| && rows[i].span.traceId == last.traceId && rows[i].span.spanId == last.spanId;
    ExecAt(mid, last, i);
    forall j | 0 <= j < |rows| ensures Exec(mid, last).rows[j] == Overwritten(init + [last], rows[j]) {
      LastWriteNext(init, last, rows[j]);
    }
  }

  lemma SameKeys(rows: Table, rows': Table, spans: seq<Span>)
    requires KeysUnique(rows) && |rows'| == |rows|
    requires forall j :: 0 <= j < |rows| ==> rows'[j] == Overwritten(spans, rows[j])
    ensures KeysUnique(rows')
    ensures forall j | 0 <= j < |rows| ::
      rows'[j].id == rows[j].id && rows'[j].span.traceId == rows[j].span.traceId
        && rows'[j].span.spanId == rows[j].span.spanId
  {
    forall j | 0 <= j < |rows| ensures rows'[j].id == rows[j].id && rows'[j].span.cacheCreation == None
      && rows'[j].span.traceId == rows[j].span.traceId && rows'[j].span.spanId == rows[j].span.spanId
    {
      var last := LastWrite(spans, rows[j]);
      if last >= 0 {
        assert SpanKey(rows[j].span.traceId, rows[j].span.spanId)(spans[last]);
      }
    }
  }

  // After a batch every written key is stored, with the content written last.
  ghost predicate Reflects(rows: Table, spans: seq<Span>) {
    && (forall i :: 0 <= i < |spans| ==> HasRow(rows, spans[i]))
    && (forall j :: 0 <= j < |rows| ==> Overwritten(spans, rows[j]) == rows[j])
  }

  lemma {:induction false} BatchIsReflected(db: Db, spans: seq<Span>)
    requires KeysUnique(db.rows)
    ensures KeysUnique(ExecAll(db, spans).rows) && Reflects(ExecAll(db, spans).rows, spans)
  {
    if spans != [] {
      var init, last := spans[..|spans| - 1], spans[|spans| - 1];
      assert spans == init + [last];
      BatchIsReflected(db, init);
      StatementIsReflected(ExecAll(db, init), init, last);
    }
  }

  lemma StatementIsReflected(db: Db, init: seq<Span>, last: Span)
    requires KeysUnique(db.rows) && Reflects(db.rows, init)
    ensures KeysUnique(Exec(db, last).rows) && Reflects(Exec(db, last).rows, init + [last])
  {
    ExecRows(db, last);
    RowsReflect(db, init, last);
  }

  lemma RowsReflect(db: Db, init: seq<Span>, last: Span)
    requires KeysUnique(db.rows) && KeysUnique(Exec(db, last).rows) && Reflects(db.rows, init)
    ensures Reflects(Exec(db, last).rows, init + [last])
  {
    var rows, at := Exec(db, last).rows, WrittenAt(db, last);
    WrittenRow(db, last);
    forall h | 0 <= h < |init + [last]| ensures HasRow(rows, (init + [last])[h]) {
      KeysStay(db, init, last, h);
    }
    forall j | 0 <= j < |rows| ensures Overwritten(init + [last], rows[j]) == rows[j] {
      LastWriteNext(init, last, rows[j]);
      assert j != at ==> rows[j].span.traceId != rows[at].span.traceId || rows[j].span.spanId != rows[at].span.spanId;
    }
  }

  lemma KeysStay(db: Db, init: seq<Span>, last: Span, h: nat)
    requires Reflects(db.rows, init) && h < |init + [last]|
    ensures HasRow(Exec(db, last).rows, (init + [last])[h])
  {
    var rows, at := Exec(db, last).rows, WrittenAt(db, last);
    WrittenRow(db, last);
    if h < |init| {
      var j :| 0 <= j < |db.rows| && db.rows[j].span.traceId == init[h].traceId
        && db.rows[j].span.spanId == init[h].spanId;
      assert rows[j].span.traceId == init[h].traceId && rows[j].span.spanId == init[h].spanId;
    } else {
      assert rows[at].span.traceId == last.traceId && rows[at].span.spanId == last.spanId;
    }
  }

  // Rows that do not change leave everything unchanged.
  lemma NoRowChanges(db: Db, spans: seq<Span>)
    requires Consistent(db) && ExecAll(db, spans).rows == db.rows
    requires forall i :: 0 <= i < |spans| ==> CostOk(spans[i].cost) && Accepted(spans[i])
    ensures Insertable(db, spans) && Inserted(db, spans) == db
  {
    forall t | t in TraceIds(spans) ensures CostOk(CostTotal(SpansOf(ExecAll(db, spans).rows, t))) {
      ExecAllRows(db, spans, t);
      assert TraceExact(db, t);
    }
    InsertKeepsView(db, spans);
    RowsDetermineAll(Inserted(db, spans), db);
  }

  // ----- A file imported twice -----

  // The rows after these spans have been written over them.
  function Rewritten(rows: Table, spans: seq<Span>): Table {
    seq(|rows|, j requires 0 <= j < |rows| => Overwritten(spans, rows[j]))
  }

  // After these batches once more, the traces of the next one still have totals in range.
  ghost predicate TotalsHold(rows: Table, pricing: Option<Pricing>, batches: seq<seq<Span>>, batch: seq<Span>) {
    TotalsOk(Rewritten(rows, Priced(pricing, Concat(batches) + batch)), TraceIds(batch))
  }

  // The spans are acceptable one by one, and their keys are stored.
  ghost predicate Rewritable(rows: Table, pricing: Option<Pricing>, spans: seq<Span>) {
    forall i :: 0 <= i < |spans| ==>
      var s := Price(pricing, Pipeline.Import, spans[i]); Accepted(s) && CostOk(s.cost) && HasRow(rows, spans[i])
  }

  lemma RewritableRows(rows: Table, pricing: Option<Pricing>, spans: seq<Span>)
    requires Rewritable(rows, pricing, spans)
    ensures forall i :: 0 <= i < |spans| ==> HasRow(rows, Priced(pricing, spans)[i])
  {
    forall i | 0 <= i < |spans| ensures HasRow(rows, Priced(pricing, spans)[i]) {
      var j :| 0 <= j < |rows| && rows[j].span.traceId == spans[i].traceId && rows[j].span.spanId == spans[i].spanId;
    }
  }

  lemma RowsAfter(db: Db, pricing: Option<Pricing>, batches: seq<seq<Span>>, batch: seq<Span>)
    requires Consistent(db) && InTurn(db, pricing, batches) && Rewritable(db.rows, pricing, Concat(batches) + batch)
    ensures ExecAll(After(db, pricing, batches), Priced(pricing, batch)).rows
      == Rewritten(db.rows, Priced(pricing, Concat(batches) + batch))
  {
    var spans := Concat(batches) + batch;
    BatchesAreOneCommit(db, pricing, batches);
    PriceAppend(pricing, Concat(batches), batch);
    SplitRows(db, Priced(pricing, Concat(batches)), Priced(pricing, batch));
    RowsRewritten(db, pricing, spans);
  }

  lemma RowsRewritten(db: Db, pricing: Option<Pricing>, spans: seq<Span>)
    requires Consistent(db) && Rewritable(db.rows, pricing, spans)
    ensures ExecAll(db, Priced(pricing, spans)).rows == Rewritten(db.rows, Priced(pricing, spans))
  {
    RewritableRows(db.rows, pricing, spans);
    WritesOverwrite(db, Priced(pricing, spans));
  }

  lemma PricedTraces(pricing: Option<Pricing>, batch: seq<Span>)
    ensures TraceIds(Priced(pricing, batch)) == TraceIds(batch)
  {
    forall t ensures t in TraceIds(Priced(pricing, batch)) <==> t in TraceIds(batch) {
      if s :| s in batch && s.traceId == t {
        var i :| 0 <= i < |batch| && batch[i] == s;
        assert Priced(pricing, batch)[i] in Priced(pricing, batch);
      }
      if s :| s in Priced(pricing, batch) && s.traceId == t {
        var i :| 0 <= i < |batch| && Priced(pricing, batch)[i] == s;
        assert batch[i] in batch;
      }
    }
  }

  lemma AcceptedIffTotalsHold(db: Db, pricing: Option<Pricing>, batches: seq<seq<Span>>, batch: seq<Span>)
    requires Consistent(db) && InTurn(db, pricing, batches) && Rewritable(db.rows, pricing, Concat(batches) + batch)
    ensures Insertable(After(db, pricing, batches), Priced(pricing, batch)) <==>
      TotalsHold(db.rows, pricing, batches, batch)
  {
    RowsAfter(db, pricing, batches, batch);
    PricedTraces(pricing, batch);
    BatchOk(db.rows, pricing, Concat(batches), batch);
    var rows := Rewritten(db.rows, Priced(pricing, Concat(batches) + batch));
    InsertableIff(After(db, pricing, batches), Priced(pricing, batch), TraceIds(batch), rows);
  }

  lemma BatchOk(rows: Table, pricing: Option<Pricing>, before: seq<Span>, batch: seq<Span>)
    requires Rewritable(rows, pricing, before + batch)
    ensures AllOk(Priced(pricing, batch))
  {
    forall i | 0 <= i < |batch| ensures Accepted(Priced(pricing, batch)[i]) && CostOk(Priced(pricing, batch)[i].cost) {
      assert (before + batch)[|before| + i] == batch[i];
    }
  }

  ghost predicate AllOk(spans: seq<Span>) {
    forall i :: 0 <= i < |spans| ==> Accepted(spans[i]) && CostOk(spans[i].cost)
  }

  ghost predicate TotalsOk(rows: Table, traces: set<string>) {
    forall t :: t in traces ==> CostOk(CostTotal(SpansOf(rows, t)))
  }

  lemma InsertableIff(db: Db, spans: seq<Span>, traces: set<string>, rows: Table)
    requires ExecAll(db, spans).rows == rows && TraceIds(spans) == traces && AllOk(spans)
    ensures Insertable(db, spans) <==> TotalsOk(rows, traces)
  {
  }

  ghost predicate AllTotalsHold(rows: Table, pricing: Option<Pricing>, batches: seq<seq<Span>>) {
    forall k :: 0 <= k < |batches| ==> TotalsHold(rows, pricing, batches[..k], batches[k])
  }

  lemma TotalsNext(rows: Table, pricing: Option<Pricing>, batches: seq<seq<Span>>, batch: seq<Span>)
    ensures AllTotalsHold(rows, pricing, batches + [batch]) <==>
      AllTotalsHold(rows, pricing, batches) && TotalsHold(rows, pricing, batches, batch)
  {
    var all := batches + [batch];
    assert all[..|batches|] == batches;
    assert forall k :: 0 <= k < |batches| ==> all[..k] == batches[..k] && all[k] == batches[k];
    if AllTotalsHold(rows, pricing, all) {
      assert TotalsHold(rows, pricing, all[..|batches|], all[|batches|]);
      forall k | 0 <= k < |batches| ensures TotalsHold(rows, pricing, batches[..k], batches[k]) {
        assert TotalsHold(rows, pricing, all[..k], all[k]);
      }
    }
  }

  // Batches of spans whose keys are stored are accepted in turn exactly when every total holds.
  lemma {:induction false} InTurnIffTotalsHold(db: Db, pricing: Option<Pricing>, batches: seq<seq<Span>>)
    requires Consistent(db) && Rewritable(db.rows, pricing, Concat(batches))
    ensures InTurn(db, pricing, batches) <==> AllTotalsHold(db.rows, pricing, batches)
  {
    if batches != [] {
      var init, last := batches[..|batches| - 1], batches[|batches| - 1];
      assert batches == init + [last];
      assert Rewritable(db.rows, pricing, Concat(init)) by {
        assert forall i :: 0 <= i < |Concat(init)| ==> Concat(batches)[i] == Concat(init)[i];
      }
      InTurnIffTotalsHold(db, pricing, init);
      TotalsNext(db.rows, pricing, init, last);
      if InTurn(db, pricing, init) {
        AcceptedIffTotalsHold(db, pricing, init, last);
      }
    }
  }

  // What a successful import leaves.
  ghost predicate Holds(db: Db, pricing: Option<Pricing>, lines: seq<Line>) {
    Consistent(db) && Rewritable(db.rows, pricing, Records(lines)) && Reflects(db.rows, Priced(pricing, Records(lines)))
  }

  lemma CommitHolds(before: Db, pricing: Option<Pricing>, spans: seq<Span>)
    requires Consistent(before) && Insertable(before, Priced(pricing, spans))
    ensures var rows := ExecAll(before, Priced(pricing, spans)).rows;
      Rewritable(rows, pricing, spans) && Reflects(rows, Priced(pricing, spans))
  {
    var priced := Priced(pricing, spans);
    var rows := ExecAll(before, priced).rows;
    BatchIsReflected(before, priced);
    forall i | 0 <= i < |spans|
      ensures Accepted(Price(pricing, Pipeline.Import, spans[i]))
        && CostOk(Price(pricing, Pipeline.Import, spans[i]).cost)
      ensures HasRow(rows, spans[i])
    {
      assert Accepted(priced[i]) && CostOk(priced[i].cost) && HasRow(rows, priced[i]);
    }
  }

  lemma ImportedHolds(before: Db, pricing: Option<Pricing>, lines: seq<Line>)
    requires Consistent(before) && Imports(before, pricing, lines)
    ensures Holds(After(before, pricing, Batches(lines)), pricing, lines)
  {
    BatchesKeepAll(lines);
    BatchesAreOneCommit(before, pricing, Batches(lines));
    CommitHolds(before, pricing, Records(lines));
  }

  lemma RewrittenIsSame(rows: Table, spans: seq<Span>)
    requires Reflects(rows, spans)
    ensures Rewritten(rows, spans) == rows
  {
  }

  // The batch that is flushed last leaves the rows as they were, so its totals hold.
  lemma RestTotalsHold(db: Db, pricing: Option<Pricing>, lines: seq<Line>)
    requires Holds(db, pricing, lines)
    ensures TotalsHold(db.rows, pricing, Cutting(lines).full, Cutting(lines).rest)
  {
    CutKeepsAll(lines);
    RewrittenIsSame(db.rows, Priced(pricing, Records(lines)));
    var rest := Cutting(lines).rest;
    forall t | t in TraceIds(rest) ensures CostOk(CostTotal(SpansOf(db.rows, t))) {
      assert TraceExact(db, t);
    }
  }

  // Importing a file again is accepted exactly when, after each full batch, the traces it touches
  // have totals in range: the totals that result when that much of the file is written once more
  // over what the first import left.
  lemma SecondImportIff(before: Db, pricing: Option<Pricing>, lines: seq<Line>)
    requires Consistent(before) && Imports(before, pricing, lines)
    ensures var after := After(before, pricing, Batches(lines));
      Imports(after, pricing, lines) <==> AllTotalsHold(after.rows, pricing, Cutting(lines).full)
  {
    var after, cut := After(before, pricing, Batches(lines)), Cutting(lines);
    ImportedHolds(before, pricing, lines);
    BatchesKeepAll(lines);
    InTurnIffTotalsHold(after, pricing, Batches(lines));
    RestTotalsHold(after, pricing, lines);
    TotalsNext(after.rows, pricing, cut.full, cut.rest);
  }

  // When it is accepted it changes nothing: rows, row ids, traces and index stay as they were.
  lemma SecondImportChangesNothing(before: Db, pricing: Option<Pricing>, lines: seq<Line>)
    requires Consistent(before) && Imports(before, pricing, lines)
    requires Imports(After(before, pricing, Batches(lines)), pricing, lines)
    ensures var after := After(before, pricing, Batches(lines)); After(after, pricing, Batches(lines)) == after
  {
    var after, spans := After(before, pricing, Batches(lines)), Priced(pricing, Records(lines));
    ImportedHolds(before, pricing, lines);
    BatchesKeepAll(lines);
    BatchesAreOneCommit(after, pricing, Batches(lines));
    WritesOverwrite(after, spans);
    assert ExecAll(after, spans).rows == after.rows;
    NoRowChanges(after, spans);
  }

  predicate SameKey(a: Span, b: Span) {
    a.traceId == b.traceId && a.spanId == b.spanId
  }

  // No key occurs twice, or only with the same contents.
  ghost predicate RepeatsAgree(spans: seq<Span>) {
    forall i, j :: 0 <= i < j < |spans| && SameKey(spans[i], spans[j]) ==> spans[i] == spans[j]
  }

  // Part of a file without conflicting repeats, written over what all of it left.
  lemma PartIsReflected(rows: Table, pricing: Option<Pricing>, some: seq<Span>, more: seq<Span>)
    requires RepeatsAgree(some + more) && Reflects(rows, Priced(pricing, some + more))
    ensures Rewritten(rows, Priced(pricing, some)) == rows
  {
    var all := some + more;
    forall j | 0 <= j < |rows| ensures Overwritten(Priced(pricing, some), rows[j]) == rows[j] {
      var key := SpanKey(rows[j].span.traceId, rows[j].span.spanId);
      var part, last := LastWrite(Priced(pricing, some), rows[j]), LastWrite(Priced(pricing, all), rows[j]);
      assert Overwritten(Priced(pricing, all), rows[j]) == rows[j];
      if part >= 0 {
        assert key(Priced(pricing, some)[part]) && Priced(pricing, all)[part] == Priced(pricing, some)[part];
        assert part <= last && key(Priced(pricing, all)[last]);
        assert all[part] == all[last];
      }
    }
  }

  // A file without conflicting repeats can always be imported again, which changes nothing.
  lemma ImportTwiceIsOnce(before: Db, pricing: Option<Pricing>, lines: seq<Line>)
    requires Consistent(before) && Imports(before, pricing, lines) && RepeatsAgree(Records(lines))
    ensures var after := After(before, pricing, Batches(lines));
      Imports(after, pricing, lines) && After(after, pricing, Batches(lines)) == after
  {
    var after, full := After(before, pricing, Batches(lines)), Cutting(lines).full;
    ImportedHolds(before, pricing, lines);
    forall k | 0 <= k < |full| ensures TotalsHold(after.rows, pricing, full[..k], full[k]) {
      PartTotalsHold(after, pricing, lines, k);
    }
    SecondImportIff(before, pricing, lines);
    SecondImportChangesNothing(before, pricing, lines);
  }

  lemma PartTotalsHold(db: Db, pricing: Option<Pricing>, lines: seq<Line>, k: nat)
    requires Holds(db, pricing, lines) && RepeatsAgree(Records(lines)) && k < |Cutting(lines).full|
    ensures TotalsHold(db.rows, pricing, Cutting(lines).full[..k], Cutting(lines).full[k])
  {
    var full := Cutting(lines).full;
    var some := Concat(full[..k]) + full[k];
    var more := RestOfFile(lines, k);
    PartIsReflected(db.rows, pricing, some, more);
    forall t | t in TraceIds(full[k]) ensures CostOk(CostTotal(SpansOf(db.rows, t))) {
      assert TraceExact(db, t);
    }
  }

  lemma RestOfFile(lines: seq<Line>, k: nat) returns (more: seq<Span>)
    requires k < |Cutting(lines).full|
    ensures var full := Cutting(lines).full; Concat(full[..k]) + full[k] + more == Records(lines)
  {
    var full := Cutting(lines).full;
    CutKeepsAll(lines);
    ConcatNext(full[..k], full[k]);
    assert full[..k + 1] == full[..k] + [full[k]];
    ConcatPrefix(full, k + 1);
    more := Concat(full)[|Concat(full[..k + 1])|..] + Cutting(lines).rest;
  }

  lemma {:induction false} ConcatPrefix(batches: seq<seq<Span>>, k: nat)
    requires k <= |batches|
    ensures Concat(batches[..k]) <= Concat(batches)
    decreases |batches|
  {
    if k < |batches| {
      ConcatPrefix(batches[..|batches| - 1], k);
      assert batches[..|batches| - 1][..k] == batches[..k];
    } else {
      assert batches[..k] == batches;
    }
  }

  // ----- Importing an export -----

  // Any part of an export, in any order: spans as they are stored.
  ghost predicate Exported(db: Db, spans: seq<Span>) {
    forall i :: 0 <= i < |spans| ==> IsStored(db, spans[i])
  }

  ghost predicate IsStored(db: Db, s: Span) {
    exists j :: 0 <= j < |db.rows| && db.rows[j].span == s
  }

  lemma ExportedHasRow(db: Db, pricing: Option<Pricing>, exported: seq<Span>)
    requires Exported(db, exported)
    ensures forall i :: 0 <= i < |exported| ==> HasRow(db.rows, Priced(pricing, exported)[i])
  {
    var priced := Priced(pricing, exported);
    forall i | 0 <= i < |exported| ensures HasRow(db.rows, priced[i]) {
      var j :| 0 <= j < |db.rows| && db.rows[j].span == exported[i];
      assert db.rows[j].span.traceId == priced[i].traceId && db.rows[j].span.spanId == priced[i].spanId;
    }
  }

  // The last write to an exported span's row is that span, priced.
  lemma LastWriteIsItself(db: Db, pricing: Option<Pricing>, exported: seq<Span>, j: nat)
    requires KeysUnique(db.rows) && Exported(db, exported) && j < |db.rows|
    ensures var priced := Priced(pricing, exported); var last := LastWrite(priced, db.rows[j]);
      && (last >= 0 ==>
          exported[last] == db.rows[j].span && priced[last] == Price(pricing, Pipeline.Import, db.rows[j].span))
      && (db.rows[j].span in exported ==> last >= 0)
  {
    var priced := Priced(pricing, exported);
    var key := SpanKey(db.rows[j].span.traceId, db.rows[j].span.spanId);
    var last := LastWrite(priced, db.rows[j]);
    if last >= 0 {
      assert key(priced[last]);
      var h :| 0 <= h < |db.rows| && db.rows[h].span == exported[last];
      assert h == j;
    }
    if i :| 0 <= i < |exported| && exported[i] == db.rows[j].span {
      assert key(priced[i]);
    }
  }

  // Importing an export into the database it came from changes nothing if its spans are settled.
  lemma SettledExport(db: Db, pricing: Option<Pricing>, exported: seq<Span>)
    requires Consistent(db) && Exported(db, exported)
    requires forall i :: 0 <= i < |exported| ==> Settled(pricing, exported[i])
    ensures var priced := Priced(pricing, exported); Insertable(db, priced) && Inserted(db, priced) == db
  {
    assert Priced(pricing, exported) == exported;
    ExportedHasRow(db, pricing, exported);
    WritesOverwrite(db, exported);
    forall j | 0 <= j < |db.rows| ensures Overwritten(exported, db.rows[j]) == db.rows[j] {
      LastWriteIsItself(db, pricing, exported, j);
    }
    assert ExecAll(db, exported).rows == db.rows;
    NoRowChanges(db, exported);
  }

  // If it changes nothing, they are.
  lemma UnchangedIsSettled(db: Db, pricing: Option<Pricing>, exported: seq<Span>, i: nat)
    requires Consistent(db) && Exported(db, exported) && i < |exported|
    requires Inserted(db, Priced(pricing, exported)) == db
    ensures Settled(pricing, exported[i])
  {
    var priced := Priced(pricing, exported);
    var j :| 0 <= j < |db.rows| && db.rows[j].span == exported[i];
    ExportedHasRow(db, pricing, exported);
    WritesOverwrite(db, priced);
    LastWriteIsItself(db, pricing, exported, j);
    assert ExecAll(db, priced).rows[j] == db.rows[j];
    assert db.rows[j].span == Stored(Price(pricing, Pipeline.Import, exported[i]));
  }

  // The lines of any part of an export, in any order.
  ghost predicate ExportLines(db: Db, lines: seq<Line>) {
    forall i :: 0 <= i < |lines| ==>
      lines[i].Blank? || (lines[i].Record? && IsStored(db, lines[i].span))
  }

  ghost predicate Importable(pricing: Option<Pricing>, s: Span) {
    s.startNs != 0 && s.endNs != 0 && Settled(pricing, s)
  }

  lemma {:induction false} RecordsMembers(lines: seq<Line>, s: Span)
    ensures s in Records(lines) <==> exists i :: 0 <= i < |lines| && lines[i].Record? && lines[i].span == s
  {
    if lines != [] {
      var init, last := lines[..|lines| - 1], lines[|lines| - 1];
      RecordsMembers(init, s);
      if i :| 0 <= i < |lines| && lines[i].Record? && lines[i].span == s {
        assert i < |init| ==> init[i] == lines[i];
      }
      if i :| 0 <= i < |init| && init[i].Record? && init[i].span == s {
        assert lines[i] == init[i];
      }
    }
  }

  lemma RecordsExported(db: Db, lines: seq<Line>)
    requires ExportLines(db, lines)
    ensures Exported(db, Records(lines))
  {
    var spans := Records(lines);
    forall i | 0 <= i < |spans| ensures IsStored(db, spans[i]) {
      assert spans[i] in spans;
      RecordsMembers(lines, spans[i]);
      var k :| 0 <= k < |lines| && lines[k].Record? && lines[k].span == spans[i];
      assert !lines[k].Blank?;
    }
  }

  // Every line of an export can be read if its timestamps are set; its ids are.
  lemma ExportReadable(db: Db, lines: seq<Line>)
    requires Consistent(db) && ExportLines(db, lines)
    ensures AllReadable(lines) <==> forall s :: s in Records(lines) ==> s.startNs != 0 && s.endNs != 0
  {
    if AllReadable(lines) {
      forall s | s in Records(lines) ensures s.startNs != 0 && s.endNs != 0 {
        RecordsMembers(lines, s);
      }
    }
    if forall s :: s in Records(lines) ==> s.startNs != 0 && s.endNs != 0 {
      forall i | 0 <= i < |lines| ensures Readable(lines[i]) {
        if lines[i].Record? {
          RecordsMembers(lines, lines[i].span);
        }
      }
    }
  }

  // Batches of settled exported spans are accepted in turn and change nothing.
  lemma {:induction false} SettledBatches(db: Db, pricing: Option<Pricing>, batches: seq<seq<Span>>)
    requires Consistent(db) && Exported(db, Concat(batches))
    requires forall s :: s in Concat(batches) ==> Settled(pricing, s)
    ensures InTurn(db, pricing, batches) && After(db, pricing, batches) == db
  {
    if batches != [] {
      var init, last := batches[..|batches| - 1], batches[|batches| - 1];
      ExportedParts(db, pricing, Concat(init), last);
      SettledBatches(db, pricing, init);
      SettledExport(db, pricing, last);
    }
  }

  lemma ExportedParts(db: Db, pricing: Option<Pricing>, a: seq<Span>, b: seq<Span>)
    requires Exported(db, a + b) && forall s :: s in a + b ==> Settled(pricing, s)
    ensures Exported(db, a) && (forall s :: s in a ==> Settled(pricing, s))
    ensures Exported(db, b) && (forall s :: s in b ==> Settled(pricing, s))
  {
    assert forall i :: 0 <= i < |a| ==> (a + b)[i] == a[i];
    assert forall i :: 0 <= i < |b| ==> (a + b)[|a| + i] == b[i];
  }

  // Importing any part of an export into the database it came from, in any order and with any line
  // lengths, is accepted and changes nothing if and only if every span in it has its timestamps and
  // is settled.
  lemma ImportOfExport(db: Db, pricing: Option<Pricing>, lines: seq<Line>)
    requires Consistent(db) && ExportLines(db, lines)
    ensures Imports(db, pricing, lines) && After(db, pricing, Batches(lines)) == db <==>
      forall s :: s in Records(lines) ==> Importable(pricing, s)
  {
    RecordsExported(db, lines);
    ExportReadable(db, lines);
    BatchesKeepAll(lines);
    var spans := Records(lines);
    if forall s :: s in spans ==> Importable(pricing, s) {
      SettledBatches(db, pricing, Batches(lines));
    }
    if Imports(db, pricing, lines) && After(db, pricing, Batches(lines)) == db {
      BatchesAreOneCommit(db, pricing, Batches(lines));
      forall s | s in spans ensures Importable(pricing, s) {
        var i :| 0 <= i < |spans| && spans[i] == s;
        UnchangedIsSettled(db, pricing, spans, i);
      }
    }
  }

  // ----- A second import that is refused -----

  // A fills a batch by itself and takes its trace to the limit; it is then rewritten to cost
  // nothing, and B costs something. The second import writes A back first.
  lemma SecondImportRefused(a: Span, b: Span)
    requires Accepted(a) && Accepted(b) && a.traceId == b.traceId && a.spanId != b.spanId
    requires Counted(a) && Counted(b) && a.cost == Some(MAX_COST) && b.cost == Some(1.0) && HasIdentity(a)
      && HasIdentity(b)
    requires a.cacheCreation == None == b.cacheCreation
    ensures var lines := [Record(a, BATCH_BYTES), Record(a.(cost := Some(0.0)), 1), Record(b, 1)];
      Imports(EMPTY, None, lines) && !Imports(After(EMPTY, None, Batches(lines)), None, lines)
  {
    ThreeLines(a, a.(cost := Some(0.0)), b);
    SecondTimeRefused(a, a.(cost := Some(0.0)), b);
  }

  lemma SecondTimeRefused(a: Span, free: Span, b: Span)
    requires Accepted(a) && Accepted(b) && a.traceId == b.traceId && a.spanId != b.spanId
    requires Counted(a) && Counted(b) && a.cost == Some(MAX_COST) && b.cost == Some(1.0)
    requires a.cacheCreation == None == b.cacheCreation && free == a.(cost := Some(0.0))
    ensures var batches := [[a], [free, b]];
      InTurn(EMPTY, None, batches) && !InTurn(After(EMPTY, None, batches), None, batches)
  {
    FirstBatch(a);
    SecondBatch(a, free, b);
    TwoBatches(a, free, b);
    BatchesAreOneCommit(EMPTY, None, [[a], [free, b]]);
    var after := After(EMPTY, None, [[a], [free, b]]);
    BothBatches(a, free, b);
    AgainTooMuch(after, a, free, b);
    NotAgain(after, a, [free, b]);
  }

  lemma NotAgain(db: Db, a: Span, more: seq<Span>)
    requires !Insertable(db, [a])
    ensures !InTurn(db, None, [[a], more])
  {
    AfterNext(db, None, [], [a]);
    assert Priced(None, [a]) == [a] && [] + [[a]] == [[a]];
    if InTurn(db, None, [[a], more]) {
      InTurnPrefix(db, None, [[a], more], [[a]]);
    }
  }

  lemma TwoBatches(a: Span, free: Span, b: Span)
    ensures After(EMPTY, None, [[a]]) == Inserted(EMPTY, [a])
    ensures After(EMPTY, None, [[a], [free, b]]) == Inserted(Inserted(EMPTY, [a]), [free, b])
    ensures InTurn(EMPTY, None, [[a], [free, b]]) <==>
      Insertable(EMPTY, [a]) && Insertable(Inserted(EMPTY, [a]), [free, b])
  {
    AfterNext(EMPTY, None, [], [a]);
    AfterNext(EMPTY, None, [[a]], [free, b]);
    assert Priced(None, [a]) == [a] && Priced(None, [free, b]) == [free, b];
    assert [] + [[a]] == [[a]] && [[a]] + [[free, b]] == [[a], [free, b]];
  }

  lemma ThreeLines(a: Span, free: Span, b: Span)
    requires HasIdentity(a) && HasIdentity(free) && HasIdentity(b)
    ensures var lines := [Record(a, BATCH_BYTES), Record(free, 1), Record(b, 1)];
      AllReadable(lines) && Batches(lines) == [[a], [free, b]]
  {
    var lines := [Record(a, BATCH_BYTES), Record(free, 1), Record(b, 1)];
    CutNext(lines, 0);
    CutNext(lines, 1);
    CutNext(lines, 2);
    assert lines[..0] == [] && lines[..3] == lines;
    var none: seq<Span>, noBatch: seq<seq<Span>> := [], [];
    assert none + [a] == [a] && none + [free] == [free] && noBatch + [[a]] == [[a]];
    assert Queued(Cut([], [], 0), lines[0]) == Cut([[a]], [], 0);
    assert [free] + [b] == [free, b] && [[a]] + [[free, b]] == [[a], [free, b]];
    assert Cutting(lines) == Cut([[a]], [free, b], 2);
  }

  lemma OneRow(a: Span)
    requires a.cacheCreation == None
    ensures ExecAll(EMPTY, [a]).rows == [Row(1, a)] && SpansOf([Row(1, a)], a.traceId) == [a]
  {
    assert [a][..0] == [];
    ExecNew(EMPTY, a);
    assert Spans([Row(1, a)]) == [a] && [a][1..] == [];
    assert Seqs.Filter(InTrace(a.traceId), [a]) == [a];
  }

  lemma CostOfOne(a: Span)
    requires Counted(a) && a.cost.Some?
    ensures CostTotal([a]) == a.cost
  {
    assert TraceStore.Known([a], CostOf()) by { assert Counted([a][0]); }
    assert [a][1..] == [] && SumCost([a]) == a.cost.value;
  }

  lemma FirstBatch(a: Span)
    requires Accepted(a) && Counted(a) && a.cost == Some(MAX_COST) && a.cacheCreation == None
    ensures Insertable(EMPTY, [a])
  {
    OneRow(a);
    CostOfOne(a);
  }

  // The rows after both batches.
  lemma BothBatches(a: Span, free: Span, b: Span)
    requires free == a.(cost := Some(0.0)) && a.traceId == b.traceId && a.spanId != b.spanId
    requires a.cacheCreation == None == b.cacheCreation
    ensures ExecAll(Inserted(EMPTY, [a]), [free, b]).rows == [Row(1, free), Row(2, b)]
  {
    OneRow(a);
    WriteBoth(Inserted(EMPTY, [a]), a, free, b);
  }

  lemma WriteBoth(one: Db, a: Span, free: Span, b: Span)
    requires free == a.(cost := Some(0.0)) && a.traceId == b.traceId && a.spanId != b.spanId
    requires a.cacheCreation == None == b.cacheCreation && one.rows == [Row(1, a)]
    ensures ExecAll(one, [free, b]).rows == [Row(1, free), Row(2, b)]
  {
    ExecAt(one, free, 0);
    var two := Exec(one, free);
    ExecNew(two, b);
    ExecNext(one, [free, b], 0);
    ExecNext(one, [free, b], 1);
    assert [free, b][..0] == [] && [free, b][..2] == [free, b] && ExecAll(one, []) == one;
  }

  lemma TotalOfBoth(a: Span, b: Span)
    requires a.traceId == b.traceId && a.spanId != b.spanId && a.cacheCreation == None == b.cacheCreation
    requires Counted(a) && Counted(b) && a.cost.Some? && b.cost.Some?
    ensures CostTotal(SpansOf([Row(1, a), Row(2, b)], a.traceId)) == Some(a.cost.value + b.cost.value)
  {
    TwoRows(a, b);
    CostOfTwo(a, b);
  }

  lemma SecondBatch(a: Span, free: Span, b: Span)
    requires free == a.(cost := Some(0.0)) && a.traceId == b.traceId && a.spanId != b.spanId
    requires a.cacheCreation == None == b.cacheCreation && Accepted(a) && Accepted(b)
    requires Counted(a) && Counted(b) && b.cost == Some(1.0)
    ensures Insertable(Inserted(EMPTY, [a]), [free, b])
  {
    BothBatches(a, free, b);
    TotalOfBoth(free, b);
    forall t | t in TraceIds([free, b]) ensures t == a.traceId {
    }
  }

  lemma AgainTooMuch(after: Db, a: Span, free: Span, b: Span)
    requires free == a.(cost := Some(0.0)) && a.traceId == b.traceId && a.spanId != b.spanId
    requires a.cacheCreation == None == b.cacheCreation && KeysUnique(after.rows)
    requires Counted(a) && Counted(b) && a.cost == Some(MAX_COST) && b.cost == Some(1.0)
    requires after.rows == [Row(1, free), Row(2, b)]
    ensures !Insertable(after, [a])
  {
    ExecAt(after, a, 0);
    assert [a][..0] == [];
    assert ExecAll(after, [a]).rows == [Row(1, a), Row(2, b)];
    TotalOfBoth(a, b);
    assert a in [a];
  }
}

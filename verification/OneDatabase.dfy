// The table of spans that the correlation model writes is the span table of the store: the steps
// there are the transactions here (internal/store/insert.go, retention.go, proxy_tool_calls.go).
module OneDatabase {
  import opened Prelude
  import opened Seqs
  import C = Correlation
  import opened TraceStore
  import opened TraceView

  // How stored text and spans are read as ids and spans of the correlation model.
  datatype Reading = Reading(id: string -> C.Id, span: Span -> C.Span) {
    // Different texts are different ids; times are the stored ones, and a column that the table
    // does not have makes no difference.
    ghost predicate Faithful() {
      && (forall a, b :: id(a) == id(b) ==> a == b)
      && (forall s :: span(s).startNs == s.startNs && span(s).endNs == s.endNs && span(Stored(s)) == span(s))
    }

    function Key(s: Span): (C.Id, C.Id) {
      (id(s.traceId), id(s.spanId))
    }

    function RowOf(s: Span): C.Row {
      C.Row(id(s.traceId), id(s.spanId), span(s))
    }
  }

  function RowsOf(r: Reading, spans: seq<Span>): seq<C.Row> {
    seq(|spans|, i requires 0 <= i < |spans| => r.RowOf(spans[i]))
  }

  ghost predicate Shows(r: Reading, row: Row, spans: C.SpanTable) {
    r.Key(row.span) in spans && spans[r.Key(row.span)] == r.span(row.span)
  }

  ghost predicate Comes(r: Reading, rows: Table, key: (C.Id, C.Id)) {
    exists i :: 0 <= i < |rows| && r.Key(rows[i].span) == key
  }

  // The correlation model's table is this table: one span for each row, and no other.
  ghost predicate Sees(r: Reading, rows: Table, spans: C.SpanTable) {
    && (forall i :: 0 <= i < |rows| ==> Shows(r, rows[i], spans))
    && (forall key :: key in spans ==> Comes(r, rows, key))
  }

  // It is determined by the rows.
  lemma SeenTwice(r: Reading, rows: Table, a: C.SpanTable, b: C.SpanTable)
    requires Sees(r, rows, a) && Sees(r, rows, b)
    ensures a == b
  {
    forall key | key in a ensures key in b && b[key] == a[key] {
      assert Comes(r, rows, key);
      var i :| 0 <= i < |rows| && r.Key(rows[i].span) == key;
      assert Shows(r, rows[i], a) && Shows(r, rows[i], b);
    }
    forall key | key in b ensures key in a {
      assert Comes(r, rows, key);
      var i :| 0 <= i < |rows| && r.Key(rows[i].span) == key;
      assert Shows(r, rows[i], a);
    }
  }

  // ----- Inserting -----

  // One statement is one upsert.
  lemma ExecIsUpsert(r: Reading, db: Db, spans: C.SpanTable, s: Span)
    requires r.Faithful() && KeysUnique(db.rows) && Sees(r, db.rows, spans)
    ensures KeysUnique(Exec(db, s).rows) && Sees(r, Exec(db, s).rows, spans[r.Key(s) := r.span(s)])
  {
    ExecRows(db, s);
    WrittenRow(db, s);
    WrittenIsSeen(r, db.rows, Exec(db, s).rows, WrittenAt(db, s), spans, s);
  }

  lemma WrittenIsSeen(r: Reading, rows: Table, rows': Table, at: nat, spans: C.SpanTable, s: Span)
    requires r.Faithful() && KeysUnique(rows') && Sees(r, rows, spans)
    requires |rows| <= |rows'| && at < |rows'| && rows'[at].span == Stored(s)
    requires forall j :: 0 <= j < |rows'| && j != at ==> j < |rows| && rows'[j] == rows[j]
    requires at < |rows| ==> r.Key(rows[at].span) == r.Key(s)
    ensures Sees(r, rows', spans[r.Key(s) := r.span(s)])
  {
    var spans' := spans[r.Key(s) := r.span(s)];
    forall j | 0 <= j < |rows'| ensures Shows(r, rows'[j], spans') {
      if j != at {
        OtherKey(r, rows', at, j);
        assert Shows(r, rows[j], spans);
      }
    }
    forall key | key in spans' ensures Comes(r, rows', key) {
      if key == r.Key(s) {
        assert r.Key(rows'[at].span) == key;
      } else {
        StillComes(r, rows, rows', at, key);
      }
    }
  }

  lemma StillComes(r: Reading, rows: Table, rows': Table, at: nat, key: (C.Id, C.Id))
    requires Comes(r, rows, key) && |rows| <= |rows'|
    requires forall j :: 0 <= j < |rows| && j != at ==> rows'[j] == rows[j]
    requires at < |rows| ==> r.Key(rows[at].span) != key
    ensures Comes(r, rows', key)
  {
    var i :| 0 <= i < |rows| && r.Key(rows[i].span) == key;
    assert r.Key(rows'[i].span) == key;
  }

  lemma OtherKey(r: Reading, rows: Table, i: nat, j: nat)
    requires r.Faithful() && KeysUnique(rows) && i < |rows| && j < |rows| && i != j
    ensures r.Key(rows[i].span) != r.Key(rows[j].span)
  {
    assert KeysUnique(rows);
    if i < j {
      assert rows[i].span.traceId != rows[j].span.traceId || rows[i].span.spanId != rows[j].span.spanId;
    } else {
      assert rows[j].span.traceId != rows[i].span.traceId || rows[j].span.spanId != rows[i].span.spanId;
    }
  }

  // The insert loop is the correlation model's upsert of all rows.
  lemma ExecAllIsUpsertRows(r: Reading, db: Db, spans: C.SpanTable, batch: seq<Span>)
    requires r.Faithful() && KeysUnique(db.rows) && Sees(r, db.rows, spans)
    ensures KeysUnique(ExecAll(db, batch).rows)
    ensures Sees(r, ExecAll(db, batch).rows, C.UpsertRows(spans, RowsOf(r, batch)))
  {
    ExecAllIsSeen(r, db, spans, batch, ExecAll(db, batch), C.UpsertRows(spans, RowsOf(r, batch)));
  }

  lemma {:induction false} ExecAllIsSeen(r: Reading, db: Db, spans: C.SpanTable, batch: seq<Span>, after: Db,
                                         table: C.SpanTable)
    requires r.Faithful() && KeysUnique(db.rows) && Sees(r, db.rows, spans)
    requires after == ExecAll(db, batch) && table == C.UpsertRows(spans, RowsOf(r, batch))
    ensures KeysUnique(after.rows) && Sees(r, after.rows, table)
  {
    if batch != [] {
      var init, last := batch[..|batch| - 1], batch[|batch| - 1];
      var mid, before := ExecAll(db, init), C.UpsertRows(spans, RowsOf(r, init));
      ExecAllIsSeen(r, db, spans, init, mid, before);
      SplitLast(batch);
      ExecIsUpsert(r, mid, before, last);
      UpsertOneMore(r, spans, init, last);
    } else {
      assert RowsOf(r, batch) == [];
    }
  }

  lemma UpsertOneMore(r: Reading, spans: C.SpanTable, init: seq<Span>, last: Span)
    ensures C.UpsertRows(spans, RowsOf(r, init + [last])) ==
      C.UpsertRows(spans, RowsOf(r, init))[r.Key(last) := r.span(last)]
  {
    var rows := RowsOf(r, init + [last]);
    assert rows[..|init|] == RowsOf(r, init) && rows[|init|] == r.RowOf(last);
  }

  // ----- Purging -----

  function Ids(r: Reading, traceIds: set<string>): set<C.Id> {
    set t | t in traceIds :: r.id(t)
  }

  lemma IdGone(r: Reading, del: set<string>, t: string)
    requires r.Faithful()
    ensures r.id(t) in Ids(r, del) <==> t in del
  {
  }

  lemma DeletedIsWithoutTraces(r: Reading, db: Db, spans: C.SpanTable, del: set<string>)
    requires r.Faithful() && Sees(r, db.rows, spans)
    ensures Sees(r, Deleted(db, del).rows, C.WithoutTraces(spans, Ids(r, del)))
  {
    var rows, kept := db.rows, Deleted(db, del).rows;
    var without := C.WithoutTraces(spans, Ids(r, del));
    forall i | 0 <= i < |kept| ensures Shows(r, kept[i], without) {
      KeptShows(r, rows, spans, del, i);
    }
    forall key | key in without ensures Comes(r, kept, key) {
      KeptComes(r, rows, spans, del, key);
    }
  }

  lemma KeptShows(r: Reading, rows: Table, spans: C.SpanTable, del: set<string>, i: nat)
    requires r.Faithful() && Sees(r, rows, spans) && i < |Filter(NotIn(del), rows)|
    ensures Shows(r, Filter(NotIn(del), rows)[i], C.WithoutTraces(spans, Ids(r, del)))
  {
    var row := Filter(NotIn(del), rows)[i];
    FilterMembers(NotIn(del), rows);
    assert row in Filter(NotIn(del), rows);
    assert row in rows && row.span.traceId !in del;
    var j :| 0 <= j < |rows| && rows[j] == row;
    assert Shows(r, rows[j], spans);
    IdGone(r, del, row.span.traceId);
  }

  lemma KeptComes(r: Reading, rows: Table, spans: C.SpanTable, del: set<string>, key: (C.Id, C.Id))
    requires r.Faithful() && Sees(r, rows, spans) && key in C.WithoutTraces(spans, Ids(r, del))
    ensures Comes(r, Filter(NotIn(del), rows), key)
  {
    assert Comes(r, rows, key);
    var j :| 0 <= j < |rows| && r.Key(rows[j].span) == key;
    IdGone(r, del, rows[j].span.traceId);
    KeptRow(rows, del, j);
    var i :| 0 <= i < |Filter(NotIn(del), rows)| && Filter(NotIn(del), rows)[i] == rows[j];
  }

  lemma KeptRow(rows: Table, del: set<string>, j: nat)
    requires j < |rows| && rows[j].span.traceId !in del
    ensures rows[j] in Filter(NotIn(del), rows)
  {
    FilterMembers(NotIn(del), rows);
    assert rows[j] in rows && NotIn(del)(rows[j]);
  }

  // Both models mean the same by an expired trace.
  lemma ExpiredIsTraceExpired(r: Reading, rows: Table, spans: C.SpanTable, t: string, cutoff: int)
    requires r.Faithful() && Sees(r, rows, spans)
    ensures Expired(rows, t, cutoff) <==> C.TraceExpired(spans, r.id(t), cutoff)
  {
    if Expired(rows, t, cutoff) {
      ExpiredThere(r, rows, spans, t, cutoff);
    }
    if C.TraceExpired(spans, r.id(t), cutoff) {
      ExpiredHere(r, rows, spans, t, cutoff);
    }
  }

  lemma ExpiredThere(r: Reading, rows: Table, spans: C.SpanTable, t: string, cutoff: int)
    requires r.Faithful() && Sees(r, rows, spans) && Expired(rows, t, cutoff)
    ensures C.TraceExpired(spans, r.id(t), cutoff)
  {
    SpansOfMembers(rows, t);
    var s := SpansOf(rows, t)[0];
    assert s in SpansOf(rows, t);
    var i :| 0 <= i < |rows| && rows[i].span == s && s.traceId == t;
    assert Shows(r, rows[i], spans);
    forall id | (r.id(t), id) in spans
      ensures var span := spans[(r.id(t), id)]; span.startNs <= span.endNs && 0 < span.endNs < cutoff
    {
      var j := RowWith(r, rows, spans, t, id);
    }
  }

  // A span that the model's table has under a trace is a row of that trace.
  lemma RowWith(r: Reading, rows: Table, spans: C.SpanTable, t: string, id: C.Id) returns (j: nat)
    requires r.Faithful() && Sees(r, rows, spans) && (r.id(t), id) in spans
    ensures j < |rows| && rows[j].span in SpansOf(rows, t) && r.span(rows[j].span) == spans[(r.id(t), id)]
  {
    assert Comes(r, rows, (r.id(t), id));
    j :| 0 <= j < |rows| && r.Key(rows[j].span) == (r.id(t), id);
    SpansOfMembers(rows, t);
    assert Shows(r, rows[j], spans);
  }

  lemma ExpiredHere(r: Reading, rows: Table, spans: C.SpanTable, t: string, cutoff: int)
    requires r.Faithful() && Sees(r, rows, spans) && C.TraceExpired(spans, r.id(t), cutoff)
    ensures Expired(rows, t, cutoff)
  {
    SpansOfMembers(rows, t);
    var id :| (r.id(t), id) in spans;
    var i := RowWith(r, rows, spans, t, id);
    forall s | s in SpansOf(rows, t) ensures s.startNs <= s.endNs && 0 < s.endNs < cutoff {
      var j :| 0 <= j < |rows| && rows[j].span == s && s.traceId == t;
      assert Shows(r, rows[j], spans);
      assert (r.id(t), r.id(s.spanId)) in spans;
    }
  }

  // ----- The steps are the transactions -----

  // A batch that ingest commits is the step Ingest on the spans.
  lemma InsertIsIngest(r: Reading, s: C.Sys, db: Db, spans: seq<Span>)
    requires r.Faithful() && Consistent(db) && Sees(r, db.rows, s.spans)
    requires C.Enabled(s, C.Ingest(RowsOf(r, spans)))
    ensures Sees(r, Inserted(db, spans).rows, C.Apply(s, C.Ingest(RowsOf(r, spans))).spans)
  {
    ExecAllIsUpsertRows(r, db, s.spans, spans);
  }

  // The spans of a capture, inserted in one batch, are what the step Captured writes.
  lemma InsertIsCapture(r: Reading, s: C.Sys, db: Db, spans: seq<Span>, step: C.Step)
    requires r.Faithful() && Consistent(db) && Sees(r, db.rows, s.spans)
    requires step.Captured? && C.Enabled(s, step) && C.Batch(step.ex, s.View()) == RowsOf(r, spans)
    ensures Sees(r, Inserted(db, spans).rows, C.Apply(s, step).spans)
  {
    ExecAllIsUpsertRows(r, db, s.spans, spans);
  }

  // A retention transaction that takes expired traces is the step Purge.
  lemma DeleteIsPurge(r: Reading, s: C.Sys, db: Db, del: set<string>, cutoff: int)
    requires r.Faithful() && Consistent(db) && Sees(r, db.rows, s.spans)
    requires forall t :: t in del ==> Expired(db.rows, t, cutoff)
    ensures C.Enabled(s, C.Purge(cutoff, Ids(r, del)))
    ensures Sees(r, Deleted(db, del).rows, C.Apply(s, C.Purge(cutoff, Ids(r, del))).spans)
  {
    forall id | id in Ids(r, del) ensures C.TraceExpired(s.spans, id, cutoff) {
      var t :| t in del && r.id(t) == id;
      ExpiredIsTraceExpired(r, db.rows, s.spans, t, cutoff);
    }
    DeletedIsWithoutTraces(r, db, s.spans, del);
  }
}

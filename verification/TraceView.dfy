// The trace table and the index are always what a recomputation from the span table would give.
module TraceView {
  import opened Prelude
  import opened Seqs
  import opened Order
  import opened TraceStore

  // ----- The invariant -----

  ghost predicate KeysUnique(rows: Table) {
    && (forall i :: 0 <= i < |rows| ==> rows[i].span.cacheCreation == None)
    && (forall i, j :: 0 <= i < j < |rows| ==>
          rows[i].id < rows[j].id
          && (rows[i].span.traceId != rows[j].span.traceId || rows[i].span.spanId != rows[j].span.spanId))
  }

  // Every stored span passed the checks of the table and of the insert.
  ghost predicate RowsOk(rows: Table) {
    forall i :: 0 <= i < |rows| ==> Accepted(rows[i].span) && CostOk(rows[i].span.cost)
  }

  ghost predicate TraceExact(db: Db, t: string) {
    && (t in db.traces <==> SpansOf(db.rows, t) != [])
    && (t in db.traces ==> db.traces[t] == Recompute(SpansOf(db.rows, t)))
  }

  ghost predicate Consistent(db: Db) {
    && KeysUnique(db.rows) && RowsOk(db.rows)
    && (forall t :: TraceExact(db, t))
    && db.index == multiset(Docs(db.rows))
    && (forall t :: t in db.traces ==> CostOk(db.traces[t].cost))
  }

  // ----- One statement -----

  lemma SpansAppend(rows: Table, r: Row, t: string)
    ensures SpansOf(rows + [r], t) == SpansOf(rows, t) + (if r.span.traceId == t then [r.span] else [])
  {
    assert Spans(rows + [r]) == Spans(rows) + [r.span];
    FilterAppend(InTrace(t), Spans(rows), [r.span]);
    assert Filter(InTrace(t), [r.span]) == if r.span.traceId == t then [r.span] else [];
  }

  lemma SpansSplit(rows: Table, i: nat, t: string)
    requires i < |rows|
    ensures SpansOf(rows, t) == SpansOf(rows[..i], t) + (if rows[i].span.traceId == t then [rows[i].span]
      else []) + SpansOf(rows[i + 1..], t)
  {
    assert rows[..i + 1] == rows[..i] + [rows[i]];
    SpansAppend(rows[..i], rows[i], t);
    assert rows == rows[..i + 1] + rows[i + 1..];
    assert Spans(rows) == Spans(rows[..i + 1]) + Spans(rows[i + 1..]);
    FilterAppend(InTrace(t), Spans(rows[..i + 1]), Spans(rows[i + 1..]));
  }

  lemma SpansUpdate(rows: Table, i: nat, r: Row, t: string)
    requires i < |rows| && rows[i].span.traceId == r.span.traceId
    ensures t != r.span.traceId ==> SpansOf(rows[i := r], t) == SpansOf(rows, t)
    ensures t == r.span.traceId ==> SpansOf(rows[i := r], t) != []
  {
    SpansSplit(rows, i, t);
    SpansSplit(rows[i := r], i, t);
    assert rows[i := r][..i] == rows[..i] && rows[i := r][i + 1..] == rows[i + 1..];
  }

  // A new key is appended; a stored one keeps its row and id.
  lemma ExecNew(db: Db, s: Span)
    requires forall j :: 0 <= j < |db.rows| ==>
      db.rows[j].span.traceId != s.traceId || db.rows[j].span.spanId != s.spanId
    ensures Exec(db, s).rows == db.rows + [Row(NextId(db.rows), Stored(s))]
  {
  }

  lemma ExecAt(db: Db, s: Span, i: nat)
    requires KeysUnique(db.rows) && i < |db.rows|
    requires db.rows[i].span.traceId == s.traceId && db.rows[i].span.spanId == s.spanId
    ensures Exec(db, s).rows == db.rows[i := Row(db.rows[i].id, Stored(s))]
  {
    var last := LastIndex(HasKey(s.traceId, s.spanId), db.rows);
    assert HasKey(s.traceId, s.spanId)(db.rows[i]);
    assert last >= i;
  }

  // Where a statement writes: the row that has the key, or a new one.
  function WrittenAt(db: Db, s: Span): nat {
    var i := LastIndex(HasKey(s.traceId, s.spanId), db.rows);
    if i < 0 then |db.rows| else i
  }

  lemma WrittenRow(db: Db, s: Span)
    ensures var rows, at := Exec(db, s).rows, WrittenAt(db, s);
      && |db.rows| <= |rows| && at < |rows| && rows[at].span == Stored(s)
      && (forall j :: 0 <= j < |rows| && j != at ==> j < |db.rows| && rows[j] == db.rows[j])
      && (at < |db.rows| ==> db.rows[at].span.traceId == s.traceId && db.rows[at].span.spanId == s.spanId)
  {
    var i := LastIndex(HasKey(s.traceId, s.spanId), db.rows);
    assert i >= 0 ==> HasKey(s.traceId, s.spanId)(db.rows[i]);
  }

  // The row of a span's key, with every column of it that the table has.
  ghost predicate HasSpan(rows: Table, s: Span) {
    exists j :: 0 <= j < |rows| && rows[j].span == s.(cacheCreation := None)
  }

  lemma ExecStores(db: Db, s: Span)
    ensures HasSpan(Exec(db, s).rows, s)
  {
    WrittenRow(db, s);
    assert Exec(db, s).rows[WrittenAt(db, s)].span == s.(cacheCreation := None);
  }

  lemma OtherSpanStays(db: Db, s: Span, other: Span)
    requires HasSpan(db.rows, s) && (s.traceId != other.traceId || s.spanId != other.spanId)
    ensures HasSpan(Exec(db, other).rows, s)
  {
    WrittenRow(db, other);
    var j :| 0 <= j < |db.rows| && db.rows[j].span == s.(cacheCreation := None);
    assert Exec(db, other).rows[j] == db.rows[j];
  }

  // After a batch, the last span written under a key is stored as it came, but for its cache-creation
  // tokens.
  lemma {:induction false} LastWriteIsStored(db: Db, spans: seq<Span>, i: nat)
    requires i < |spans|
    requires forall l :: i < l < |spans| ==> spans[l].traceId != spans[i].traceId || spans[l].spanId != spans[i].spanId
    ensures HasSpan(ExecAll(db, spans).rows, spans[i])
    decreases |spans|
  {
    var init, last := spans[..|spans| - 1], spans[|spans| - 1];
    if i == |spans| - 1 {
      ExecStores(ExecAll(db, init), last);
    } else {
      LastWriteIsStored(db, init, i);
      OtherSpanStays(ExecAll(db, init), spans[i], last);
    }
  }

  lemma ExecSpans(db: Db, s: Span, t: string)
    ensures t != s.traceId ==> SpansOf(Exec(db, s).rows, t) == SpansOf(db.rows, t)
    ensures t == s.traceId ==> SpansOf(Exec(db, s).rows, t) != []
  {
    var i := LastIndex(HasKey(s.traceId, s.spanId), db.rows);
    if i < 0 {
      SpansAppend(db.rows, Row(NextId(db.rows), Stored(s)), t);
    } else {
      SpansUpdate(db.rows, i, Row(db.rows[i].id, Stored(s)), t);
    }
  }

  lemma ExecRows(db: Db, s: Span)
    requires KeysUnique(db.rows)
    ensures KeysUnique(Exec(db, s).rows) && Exec(db, s).traces == db.traces
  {
    var i := LastIndex(HasKey(s.traceId, s.spanId), db.rows);
    if i < 0 {
      forall j | 0 <= j < |db.rows| ensures db.rows[j].id < NextId(db.rows)
        && !HasKey(s.traceId, s.spanId)(db.rows[j]) {
        assert j < |db.rows| - 1 ==> db.rows[j].id < db.rows[|db.rows| - 1].id;
      }
    } else {
      assert HasKey(s.traceId, s.spanId)(db.rows[i]);
    }
  }

  // The triggers keep the index exact through inserts and same-key updates.
  lemma ExecIndex(db: Db, s: Span)
    requires db.index == multiset(Docs(db.rows))
    ensures Exec(db, s).index == multiset(Docs(Exec(db, s).rows))
  {
    var i := LastIndex(HasKey(s.traceId, s.spanId), db.rows);
    if i < 0 {
      var r := Row(NextId(db.rows), Stored(s));
      assert Docs(db.rows + [r]) == Docs(db.rows) + [DocOf(r)];
    } else {
      var r := Row(db.rows[i].id, Stored(s));
      assert Docs(db.rows[i := r]) == Docs(db.rows)[i := DocOf(r)];
    }
  }

  // What statements keep, from the database before them on.
  ghost predicate Continues(db: Db, db': Db, touched: set<string>, t: string) {
    && KeysUnique(db'.rows) && db'.traces == db.traces && db'.index == multiset(Docs(db'.rows))
    && (t !in touched ==> SpansOf(db'.rows, t) == SpansOf(db.rows, t))
    && (t in touched ==> SpansOf(db'.rows, t) != [])
  }

  lemma ExecContinues(db: Db, mid: Db, touched: set<string>, s: Span, t: string)
    requires Continues(db, mid, touched, t)
    ensures Continues(db, Exec(mid, s), touched + {s.traceId}, t)
  {
    ExecSpans(mid, s, t);
    ExecRows(mid, s);
    ExecIndex(mid, s);
  }

  lemma ExecAllRows(db: Db, spans: seq<Span>, t: string)
    requires KeysUnique(db.rows) && db.index == multiset(Docs(db.rows))
    ensures Continues(db, ExecAll(db, spans), TraceIds(spans), t)
  {
    ExecAllContinues(db, spans, ExecAll(db, spans), TraceIds(spans), t);
  }

  lemma TraceIdsNext(init: seq<Span>, last: Span)
    ensures TraceIds(init + [last]) == TraceIds(init) + {last.traceId}
  {
  }

  lemma {:induction false} ExecAllContinues(db: Db, spans: seq<Span>, after: Db, touched: set<string>, t: string)
    requires KeysUnique(db.rows) && db.index == multiset(Docs(db.rows))
    requires after == ExecAll(db, spans) && touched == TraceIds(spans)
    ensures Continues(db, after, touched, t)
  {
    if spans != [] {
      var init, last := spans[..|spans| - 1], spans[|spans| - 1];
      var mid, before := ExecAll(db, init), TraceIds(init);
      ExecAllContinues(db, init, mid, before, t);
      ExecContinues(db, mid, before, last, t);
      SplitLast(spans);
      TraceIdsNext(init, last);
    }
  }

  lemma {:induction false} ExecAllRowsOk(db: Db, spans: seq<Span>)
    requires RowsOk(db.rows) && forall i :: 0 <= i < |spans| ==> Accepted(spans[i]) && CostOk(spans[i].cost)
    ensures RowsOk(ExecAll(db, spans).rows)
  {
    if spans != [] {
      ExecAllRowsOk(db, spans[..|spans| - 1]);
      ExecRowsOk(ExecAll(db, spans[..|spans| - 1]), spans[|spans| - 1]);
    }
  }

  lemma ExecRowsOk(db: Db, s: Span)
    requires RowsOk(db.rows) && Accepted(s) && CostOk(s.cost)
    ensures RowsOk(Exec(db, s).rows)
  {
  }

  // ----- One batch -----

  lemma InsertedExact(db: Db, spans: seq<Span>, t: string)
    requires Consistent(db)
    ensures TraceExact(Inserted(db, spans), t)
  {
    ExecAllRows(db, spans, t);
    assert TraceExact(db, t);
  }

  lemma InsertedCost(db: Db, spans: seq<Span>, t: string)
    requires Consistent(db) && Insertable(db, spans) && t in Inserted(db, spans).traces
    ensures CostOk(Inserted(db, spans).traces[t].cost)
  {
    ExecAllRows(db, spans, t);
    assert TraceExact(db, t);
  }

  // Every accepted batch leaves the view exact, with every stored total in range.
  lemma InsertKeepsView(db: Db, spans: seq<Span>)
    requires Consistent(db) && Insertable(db, spans)
    ensures Consistent(Inserted(db, spans))
  {
    ExecAllRows(db, spans, "");
    ExecAllRowsOk(db, spans);
    forall t ensures TraceExact(Inserted(db, spans), t) {
      InsertedExact(db, spans, t);
    }
    forall t | t in Inserted(db, spans).traces ensures CostOk(Inserted(db, spans).traces[t].cost) {
      InsertedCost(db, spans, t);
    }
  }

  // The full-text index holds the input, output and name of every stored row, under its id, and nothing else.
  lemma IndexHolds(db: Db, d: Doc)
    requires Consistent(db)
    ensures d in db.index <==>
      exists i :: 0 <= i < |db.rows|
                  && d == Doc(db.rows[i].id, db.rows[i].span.input, db.rows[i].span.output, db.rows[i].span.name)
  {
    var docs := Docs(db.rows);
    if d in db.index {
      assert d in docs;
      var i :| 0 <= i < |docs| && docs[i] == d;
      assert d == DocOf(db.rows[i]);
    }
    if i :| 0 <= i < |db.rows|
            && d == Doc(db.rows[i].id, db.rows[i].span.input, db.rows[i].span.output, db.rows[i].span.name) {
      assert docs[i] == d && d in docs;
    }
  }

  // Two consistent databases with the same span rows are the same database.
  lemma RowsDetermineAll(a: Db, b: Db)
    requires Consistent(a) && Consistent(b) && a.rows == b.rows
    ensures a == b
  {
    forall t ensures t in a.traces <==> t in b.traces
             ensures t in a.traces ==> a.traces[t] == b.traces[t] {
      assert TraceExact(a, t) && TraceExact(b, t);
    }
    assert a.traces == b.traces;
  }

  lemma InsertNothing(db: Db)
    requires Consistent(db)
    ensures Insertable(db, []) && Inserted(db, []) == db
  {
    InsertKeepsView(db, []);
    RowsDetermineAll(Inserted(db, []), db);
  }

  // ----- Splitting a batch -----

  lemma {:induction false} ExecIgnoresTraces(db: Db, traces: map<string, TraceRow>, spans: seq<Span>)
    ensures ExecAll(db.(traces := traces), spans) == ExecAll(db, spans).(traces := traces)
  {
    if spans != [] {
      ExecIgnoresTraces(db, traces, spans[..|spans| - 1]);
    }
  }

  lemma {:induction false} ExecAllIsFold(db: Db, spans: seq<Span>)
    ensures ExecAll(db, spans) == Fold(Exec, db, spans)
  {
    if spans != [] {
      ExecAllIsFold(db, spans[..|spans| - 1]);
    }
  }

  lemma ExecAllSplit(db: Db, a: seq<Span>, b: seq<Span>)
    ensures ExecAll(db, a + b) == ExecAll(ExecAll(db, a), b)
  {
    ExecAllIsFold(db, a);
    ExecAllIsFold(db, a + b);
    ExecAllIsFold(ExecAll(db, a), b);
    FoldSplit(Exec, db, a, b);
  }

  lemma SplitRows(db: Db, a: seq<Span>, b: seq<Span>)
    ensures ExecAll(Inserted(db, a), b).rows == ExecAll(db, a + b).rows
  {
    ExecAllSplit(db, a, b);
    ExecIgnoresTraces(ExecAll(db, a), Inserted(db, a).traces, b);
  }

  // When both halves of a batch are accepted, so is the whole, and the result is the same.
  lemma SplittingABatch(db: Db, a: seq<Span>, b: seq<Span>)
    requires Consistent(db) && Insertable(db, a) && Insertable(Inserted(db, a), b)
    ensures Insertable(db, a + b)
    ensures Inserted(Inserted(db, a), b) == Inserted(db, a + b)
  {
    InsertKeepsView(db, a);
    InsertKeepsView(Inserted(db, a), b);
    SplitRows(db, a, b);
    assert Insertable(db, a + b) by {
      forall t | t in TraceIds(a + b) ensures CostOk(CostTotal(SpansOf(ExecAll(db, a + b).rows, t))) {
        if t !in TraceIds(b) {
          ExecAllRows(Inserted(db, a), b, t);
          assert t in TraceIds(a);
        }
      }
    }
    InsertKeepsView(db, a + b);
    RowsDetermineAll(Inserted(Inserted(db, a), b), Inserted(db, a + b));
  }

  // ----- Retention -----

  // On the view, the purge condition says exactly that every span of the trace ended, after it
  // started, before the cutoff.
  ghost predicate Expired(rows: Table, t: string, cutoff: int) {
    && SpansOf(rows, t) != []
    && forall s :: s in SpansOf(rows, t) ==> s.startNs <= s.endNs && 0 < s.endNs < cutoff
  }

  lemma {:induction false} StartBound(rows: seq<Span>)
    requires rows != []
    ensures exists s :: s in rows && s.startNs == MinStart(rows)
    ensures forall s :: s in rows ==> MinStart(rows) <= s.startNs
  {
    if |rows| > 1 {
      StartBound(rows[1..]);
      assert rows == [rows[0]] + rows[1..];
      var s :| s in rows[1..] && s.startNs == MinStart(rows[1..]);
      assert s in rows && rows[0] in rows;
    } else {
      assert rows == [rows[0]] && rows[0] in rows;
    }
  }

  lemma {:induction false} EndBound(rows: seq<Span>)
    requires rows != []
    ensures exists s :: s in rows && s.endNs == MaxEnd(rows)
    ensures forall s :: s in rows ==> s.endNs <= MaxEnd(rows)
  {
    if |rows| > 1 {
      EndBound(rows[1..]);
      assert rows == [rows[0]] + rows[1..];
      var s :| s in rows[1..] && s.endNs == MaxEnd(rows[1..]);
      assert s in rows && rows[0] in rows;
    } else {
      assert rows == [rows[0]] && rows[0] in rows;
    }
  }

  lemma SpansOfMembers(rows: Table, t: string)
    ensures forall s :: s in SpansOf(rows, t) <==> exists i :: 0 <= i < |rows| && rows[i].span == s && s.traceId == t
  {
    FilterMembers(InTrace(t), Spans(rows));
    forall s ensures s in SpansOf(rows, t) <==> exists i :: 0 <= i < |rows| && rows[i].span == s && s.traceId == t {
      if s in SpansOf(rows, t) {
        var i :| 0 <= i < |rows| && Spans(rows)[i] == s;
        assert rows[i].span == s;
      }
      if i :| 0 <= i < |rows| && rows[i].span == s && s.traceId == t {
        assert Spans(rows)[i] == s;
      }
    }
  }

  lemma EligibleIffExpired(db: Db, t: string, cutoff: int)
    requires Consistent(db)
    ensures Eligible(db, t, cutoff) <==> Expired(db.rows, t, cutoff)
  {
    assert TraceExact(db, t);
    SpansOfMembers(db.rows, t);
    var spans := SpansOf(db.rows, t);
    if spans != [] {
      StartBound(spans);
      EndBound(spans);
      if Eligible(db, t, cutoff) {
        forall s | s in spans ensures s.startNs <= s.endNs && 0 < s.endNs < cutoff {
          assert exists i :: 0 <= i < |db.rows| && db.rows[i].span == s;
        }
      }
      if Expired(db.rows, t, cutoff) {
        forall i | 0 <= i < |db.rows| && db.rows[i].span.traceId == t ensures !Unfinished(db.rows[i].span) {
          assert db.rows[i].span in spans;
        }
      }
    }
  }

  lemma SpansCons(r: Row, rows: Table, t: string)
    ensures SpansOf([r] + rows, t) == (if r.span.traceId == t then [r.span] else []) + SpansOf(rows, t)
  {
    assert Spans([r] + rows) == [r.span] + Spans(rows);
    FilterFirst(InTrace(t), r.span, Spans(rows));
  }

  lemma {:induction false} FilterSpans(rows: Table, del: set<string>, t: string)
    ensures SpansOf(Filter(NotIn(del), rows), t) == if t in del then [] else SpansOf(rows, t)
  {
    if rows != [] {
      var r, rest := rows[0], rows[1..];
      var kept := Filter(NotIn(del), rest);
      FilterSpans(rest, del, t);
      FilterFirst(NotIn(del), r, rest);
      assert rows == [r] + rest;
      SpansCons(r, rest, t);
      SpansCons(r, kept, t);
      assert [] + kept == kept && [] + SpansOf(rest, t) == SpansOf(rest, t);
    }
  }

  lemma {:induction false} FilterKeys(rows: Table, del: set<string>)
    requires KeysUnique(rows)
    ensures KeysUnique(Filter(NotIn(del), rows))
  {
    if rows != [] {
      var kept := Filter(NotIn(del), rows[1..]);
      FilterKeys(rows[1..], del);
      assert rows == [rows[0]] + rows[1..];
      FilterMembers(NotIn(del), rows[1..]);
      if NotIn(del)(rows[0]) {
        forall j | 0 <= j < |kept| ensures kept[j] in rows[1..] {
          assert kept[j] in kept;
        }
        KeysCons(rows[0], rows[1..], kept);
      }
    }
  }

  lemma FilterRowsOk(rows: Table, del: set<string>)
    requires RowsOk(rows)
    ensures RowsOk(Filter(NotIn(del), rows))
  {
    var kept := Filter(NotIn(del), rows);
    FilterMembers(NotIn(del), rows);
    forall i | 0 <= i < |kept| ensures Accepted(kept[i].span) && CostOk(kept[i].span.cost) {
      assert kept[i] in kept;
    }
  }

  lemma KeysCons(r: Row, rows: Table, kept: Table)
    requires KeysUnique([r] + rows) && KeysUnique(kept) && forall j :: 0 <= j < |kept| ==> kept[j] in rows
    ensures KeysUnique([r] + kept)
  {
    assert ([r] + rows)[0] == r;
    forall j | 0 <= j < |kept| ensures r.id < kept[j].id
      && (r.span.traceId != kept[j].span.traceId || r.span.spanId != kept[j].span.spanId) {
      var i :| 0 <= i < |rows| && rows[i] == kept[j];
      assert ([r] + rows)[i + 1] == kept[j];
    }
  }

  lemma DocsCons(r: Row, rows: Table, d: Doc)
    ensures Times(Docs([r] + rows), d) == (if DocOf(r) == d then 1 else 0) + Times(Docs(rows), d)
  {
    assert Docs([r] + rows)[1..] == Docs(rows);
  }

  lemma {:induction false} FilterDocTimes(rows: Table, del: set<string>, d: Doc)
    ensures Times(Docs(rows), d) == Times(Docs(Filter(NotIn(del), rows)), d) + Times(Docs(Filter(In(del), rows)), d)
  {
    if rows != [] {
      var r, rest := rows[0], rows[1..];
      FilterDocTimes(rest, del, d);
      FilterFirst(NotIn(del), r, rest);
      FilterFirst(In(del), r, rest);
      assert rows == [r] + rest;
      DocsCons(r, rest, d);
      DocsCons(r, Filter(NotIn(del), rest), d);
      DocsCons(r, Filter(In(del), rest), d);
      assert [] + Filter(NotIn(del), rest) == Filter(NotIn(del), rest);
      assert [] + Filter(In(del), rest) == Filter(In(del), rest);
    }
  }

  lemma {:induction false} TimesIsMultiset(docs: seq<Doc>, d: Doc)
    ensures multiset(docs)[d] == Times(docs, d)
  {
    if docs != [] {
      TimesIsMultiset(docs[1..], d);
      assert docs == [docs[0]] + docs[1..];
    }
  }

  lemma FilterDocs(rows: Table, del: set<string>)
    ensures multiset(Docs(rows)) - multiset(Docs(Filter(In(del), rows))) == multiset(Docs(Filter(NotIn(del), rows)))
  {
    forall d ensures multiset(Docs(rows))[d] ==
      multiset(Docs(Filter(NotIn(del), rows)))[d] + multiset(Docs(Filter(In(del), rows)))[d] {
      FilterDocTimes(rows, del, d);
      TimesIsMultiset(Docs(rows), d);
      TimesIsMultiset(Docs(Filter(NotIn(del), rows)), d);
      TimesIsMultiset(Docs(Filter(In(del), rows)), d);
    }
  }

  // A purge removes whole traces: exactly the named ones lose all their spans, their row and their
  // postings, and every other trace keeps its spans, row and postings.
  lemma PurgeKeepsView(db: Db, del: set<string>)
    requires Consistent(db)
    ensures Consistent(Deleted(db, del))
    ensures forall t :: SpansOf(Deleted(db, del).rows, t) == if t in del then [] else SpansOf(db.rows, t)
  {
    FilterKeys(db.rows, del);
    FilterRowsOk(db.rows, del);
    FilterDocs(db.rows, del);
    forall t ensures SpansOf(Deleted(db, del).rows, t) == (if t in del then [] else SpansOf(db.rows, t))
             ensures TraceExact(Deleted(db, del), t) {
      FilterSpans(db.rows, del, t);
      assert TraceExact(db, t);
    }
  }

  // Two purges in a row delete what one purge of both sets would.
  lemma PurgeTwice(db: Db, a: set<string>, b: set<string>)
    requires Consistent(db)
    ensures Deleted(Deleted(db, a), b) == Deleted(db, a + b)
  {
    PurgeKeepsView(db, a);
    PurgeKeepsView(Deleted(db, a), b);
    PurgeKeepsView(db, a + b);
    FilterFilter(NotIn(b), NotIn(a), NotIn(a + b), db.rows);
    RowsDetermineAll(Deleted(Deleted(db, a), b), Deleted(db, a + b));
  }

  // A purge changes the expiry of no other trace.
  lemma ExpiredAfterPurge(db: Db, del: set<string>, t: string, cutoff: int)
    requires Consistent(db)
    ensures Expired(Deleted(db, del).rows, t, cutoff) <==> t !in del && Expired(db.rows, t, cutoff)
  {
    PurgeKeepsView(db, del);
  }
}

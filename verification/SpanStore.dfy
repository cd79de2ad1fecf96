// The store's writer (internal/store/insert.go, retention.go): transactions over the span table,
// the trace table and the index.
module SpanStore {
  import opened Prelude
  import opened Seqs
  import opened TraceStore
  import opened TraceView
  import opened Utf8

  type Costs = map<string, Option<real>>

  // ----- The statements of one transaction, on its private copy -----

  lemma ExecNext(db: Db, spans: seq<Span>, i: nat)
    requires i < |spans|
    ensures ExecAll(db, spans[..i + 1]) == Exec(ExecAll(db, spans[..i]), spans[i])
    ensures TraceIds(spans[..i + 1]) == TraceIds(spans[..i]) + {spans[i].traceId}
  {
    assert spans[..i + 1][..i] == spans[..i];
    assert spans[..i + 1] == spans[..i] + [spans[i]];
  }

  // For ids in ASCII: 32 and 16 bytes, one of the six kinds, and a cost up to a million.
  lemma AcceptedInAscii(s: Span)
    requires forall i :: 0 <= i < |s.traceId| ==> s.traceId[i] as int < 0x80
    requires forall i :: 0 <= i < |s.spanId| ==> s.spanId[i] as int < 0x80
    ensures Accepted(s) <==>
      && |s.traceId| == 32 && |s.spanId| == 16
      && s.kind in {Llm, Embedding, Tool, Retrieval, Agent, Other}
    ensures CostOk(s.cost) <==> s.cost.None? || 0.0 <= s.cost.value <= 1_000_000.0
  {
    AsciiCharacters(s.traceId);
    AsciiCharacters(s.spanId);
  }

  ghost predicate AllAccepted(spans: seq<Span>) {
    forall i :: 0 <= i < |spans| ==> Accepted(spans[i])
  }

  lemma AcceptedNext(spans: seq<Span>, i: nat)
    requires i < |spans| && AllAccepted(spans[..i])
    ensures AllAccepted(spans[..i + 1]) <==> Accepted(spans[i])
    ensures !Accepted(spans[i]) ==> !AllAccepted(spans)
  {
    assert spans[..i + 1] == spans[..i] + [spans[i]];
  }

  // One statement; a CHECK violation refuses it.
  method ExecOne(tx: Db, s: Span) returns (ok: bool, tx': Db)
    ensures ok == Accepted(s) && (ok ==> tx' == Exec(tx, s))
  {
    ok := Accepted(s);
    tx' := if ok then Exec(tx, s) else tx;
  }

  // The insert loop of insertBatch.
  method ExecSpans(db: Db, spans: seq<Span>) returns (ok: bool, tx: Db, traceSet: set<string>)
    ensures ok <==> AllAccepted(spans)
    ensures ok ==> tx == ExecAll(db, spans) && traceSet == TraceIds(spans)
  {
    tx, traceSet := db, {};
    for i := 0 to |spans|
      invariant tx == ExecAll(db, spans[..i])
      invariant traceSet == TraceIds(spans[..i])
      invariant AllAccepted(spans[..i])
    {
      ExecNext(db, spans, i);
      AcceptedNext(spans, i);
      ok, tx := ExecOne(tx, spans[i]);
      if !ok {
        return;
      }
      traceSet := traceSet + {spans[i].traceId};
    }
    assert spans[..|spans|] == spans;
    ok := true;
  }

  ghost predicate CostsRead(rows: Table, aggregate: seq<Span> --> TraceRow, done: set<string>, costs: Costs)
    requires forall spans :: spans != [] ==> aggregate.requires(spans)
    requires forall t :: t in done ==> SpansOf(rows, t) != []
  {
    costs.Keys == done && forall t :: t in done ==> costs[t] == aggregate(SpansOf(rows, t)).cost
  }

  lemma CostsReadNext(rows: Table, aggregate: seq<Span> --> TraceRow, done: set<string>, costs: Costs, t: string)
    requires forall spans :: spans != [] ==> aggregate.requires(spans)
    requires SpansOf(rows, t) != [] && forall u :: u in done ==> SpansOf(rows, u) != []
    requires CostsRead(rows, aggregate, done, costs)
    ensures CostsRead(rows, aggregate, done + {t}, costs[t := aggregate(SpansOf(rows, t)).cost])
  {
  }

  lemma RecomputedNext(rows: Table, traces: map<string, TraceRow>, done: set<string>,
                       aggregate: seq<Span> --> TraceRow, t: string)
    requires forall spans :: spans != [] ==> aggregate.requires(spans)
    requires SpansOf(rows, t) != []
    ensures Recomputed(rows, traces, done + {t}, aggregate) ==
      Recomputed(rows, traces, done, aggregate)[t := aggregate(SpansOf(rows, t))]
  {
  }

  // The recompute loop of insertBatch: it reads each total back and refuses one out of range.
  method RecomputeTraces(rows: Table, traces: map<string, TraceRow>, traceSet: set<string>,
                         aggregate: seq<Span> --> TraceRow)
    returns (ok: bool, tx: map<string, TraceRow>, costs: Costs)
    requires forall spans :: spans != [] ==> aggregate.requires(spans)
    requires forall t :: t in traceSet ==> SpansOf(rows, t) != []
    ensures ok <==> forall t :: t in traceSet ==> CostOk(aggregate(SpansOf(rows, t)).cost)
    ensures ok ==> tx == Recomputed(rows, traces, traceSet, aggregate) && CostsRead(rows, aggregate, traceSet, costs)
  {
    tx, costs := traces, map[];
    var remaining := traceSet;
    ghost var done: set<string> := {};
    while remaining != {}
      invariant done !! remaining && done + remaining == traceSet
      invariant tx == Recomputed(rows, traces, done, aggregate) && CostsRead(rows, aggregate, done, costs)
      invariant forall t :: t in done ==> CostOk(aggregate(SpansOf(rows, t)).cost)
      decreases remaining
    {
      var t :| t in remaining;
      var row := aggregate(SpansOf(rows, t));
      if !CostOk(row.cost) {
        return false, tx, costs;
      }
      RecomputedNext(rows, traces, done, aggregate, t);
      CostsReadNext(rows, aggregate, done, costs, t);
      tx, costs := tx[t := row], costs[t := row.cost];
      remaining, done := remaining - {t}, done + {t};
    }
    ok := true;
  }

  lemma TouchedTraces(db: Db, spans: seq<Span>)
    requires Consistent(db)
    ensures forall t :: t in TraceIds(spans) ==> SpansOf(ExecAll(db, spans).rows, t) != []
  {
    forall t | t in TraceIds(spans) ensures SpansOf(ExecAll(db, spans).rows, t) != [] {
      ExecAllRows(db, spans, t);
    }
  }

  // The whole transaction up to its commit.
  method InsertTx(db: Db, spans: seq<Span>) returns (ok: bool, tx: Db, costs: Costs)
    requires Consistent(db)
    ensures ok <==>
      && AllAccepted(spans)
      && (forall t :: t in TraceIds(spans) ==> CostOk(CostTotal(SpansOf(ExecAll(db, spans).rows, t))))
    ensures ok ==> tx == Inserted(db, spans) && costs.Keys == TraceIds(spans)
    ensures ok ==> forall t :: t in TraceIds(spans) ==> t in tx.traces && costs[t] == tx.traces[t].cost
  {
    var traceSet;
    ok, tx, traceSet := ExecSpans(db, spans);
    if !ok {
      costs := map[];
      return;
    }
    TouchedTraces(db, spans);
    var traces;
    ok, traces, costs := RecomputeTraces(tx.rows, tx.traces, traceSet, Recompute);
    tx := tx.(traces := traces);
  }

  // The SELECT of purgeBatch: up to `limit` eligible traces, in no particular order.
  method SelectEligible(db: Db, cutoff: int, limit: nat) returns (del: set<string>)
    ensures |del| <= limit && forall t :: t in del ==> Eligible(db, t, cutoff)
    ensures |del| < limit ==> forall t :: Eligible(db, t, cutoff) ==> t in del
  {
    del := {};
    var remaining := db.traces.Keys;
    while remaining != {} && |del| < limit
      invariant |del| <= limit && forall t :: t in del ==> Eligible(db, t, cutoff)
      invariant del !! remaining && del + remaining <= db.traces.Keys
      invariant forall t :: Eligible(db, t, cutoff) ==> t in del || t in remaining
      decreases remaining
    {
      var t :| t in remaining;
      remaining := remaining - {t};
      if Eligible(db, t, cutoff) {
        del := del + {t};
      }
    }
  }

  class Store {
    var db: Db
    var retentionHeld: bool // retentionMu

    ghost predicate Valid()
      reads this
    {
      Consistent(db)
    }

    constructor ()
      ensures Valid() && db == EMPTY && !retentionHeld
    {
      db, retentionHeld := EMPTY, false;
    }

    // None is an error; `fault` is the database refusing the transaction for its own reasons.
    // Either the whole batch and its consequences are committed, or nothing is.
    method InsertBatch(spans: seq<Span>, fault: bool) returns (result: Option<Costs>)
      requires Valid()
      modifies this`db
      ensures Valid()
      ensures result.Some? <==> spans == [] || (Insertable(old(db), spans) && !fault)
      ensures result.Some? ==> db == Inserted(old(db), spans)
      ensures result.Some? && spans != [] ==> result.value.Keys == TraceIds(spans)
      ensures result.Some? && spans != [] ==> forall t :: t in TraceIds(spans) ==>
        t in db.traces && result.value[t] == db.traces[t].cost
      ensures result.None? ==> db == old(db)
    {
      if spans == [] {
        assert db == Inserted(db, []);
        return Some(map[]);
      }
      for i := 0 to |spans|
        invariant forall j :: 0 <= j < i ==> CostOk(spans[j].cost)
        invariant db == old(db)
      {
        if !CostOk(spans[i].cost) {
          return None;
        }
      }
      var ok, tx, costs := InsertTx(db, spans);
      if !ok || fault {
        return None;
      }
      InsertKeepsView(db, spans);
      db := tx;
      result := Some(costs);
    }

    // One retention transaction: None is an error and changes nothing.
    method PurgeBatch(cutoff: int, batchSize: nat, fault: bool) returns (deleted: Option<nat>, ghost del: set<string>)
      requires Valid() && batchSize >= 1
      modifies this`db
      ensures Valid()
      ensures deleted.Some? <==> !fault
      ensures deleted.None? ==> db == old(db)
      ensures deleted.Some? ==> db == Deleted(old(db), del) && deleted.value == |del| <= batchSize
      ensures deleted.Some? ==> forall t :: t in del ==> TraceView.Expired(old(db).rows, t, cutoff)
      ensures deleted.Some? && |del| < batchSize ==> forall t :: TraceView.Expired(old(db).rows, t, cutoff) ==> t in del
    {
      var chosen := SelectEligible(db, cutoff, batchSize);
      del := chosen;
      if fault {
        return None, del;
      }
      forall t ensures Eligible(db, t, cutoff) <==> TraceView.Expired(db.rows, t, cutoff) {
        EligibleIffExpired(db, t, cutoff);
      }
      PurgeKeepsView(db, del);
      db := Deleted(db, chosen);
      deleted := Some(|chosen|);
    }
  }

  // ----- Refusal of a batch is not monotone -----

  // An identifier of n digits.
  function DigitId(n: nat, last: char): string
    requires n > 0
  {
    seq(n - 1, _ => '0') + [last]
  }

  lemma DigitIdLength(n: nat, last: char)
    requires n > 0 && last as int < 0x80
    ensures Characters(DigitId(n, last)) == n
  {
    AsciiCharacters(DigitId(n, last));
  }

  lemma SomeIds() returns (t: string, id: string, id': string)
    ensures Characters(t) == 32 && Characters(id) == 16 == Characters(id') && id != id'
  {
    t, id, id' := DigitId(32, '1'), DigitId(16, '1'), DigitId(16, '2');
    DigitIdLength(32, '1');
    DigitIdLength(16, '1');
    DigitIdLength(16, '2');
    assert id[15] != id'[15];
  }

  // The whole of a batch can be accepted although its first half would be refused: the second half
  // rewrites the span whose cost took the trace's total out of range.
  lemma WholeAcceptedHalfRefused()
    ensures exists a, b: seq<Span> :: Insertable(EMPTY, a + b) && !Insertable(EMPTY, a)
  {
    var t, id, id' := SomeIds();
    HalfRefusedFor(t, id, id');
  }

  lemma HalfRefusedFor(t: string, id: string, id': string)
    requires Characters(t) == 32 && Characters(id) == 16 == Characters(id') && id != id'
    ensures exists a, b: seq<Span> :: Insertable(EMPTY, a + b) && !Insertable(EMPTY, a)
  {
    var s := Span(t, id, "", "n", Llm, "", 1, 2, 0, "", "", "", None, None, None, Some(MAX_COST), "",
      "", "", "", "", "", None);
    var s1 := s.(spanId := id', cost := Some(1.0));
    var s0 := s1.(cost := Some(0.0));
    HalfRefused(s, s1);
    WholeAccepted(s, s1, s0);
    assert [s, s1] + [s0] == [s, s1, s0];
  }

  lemma TwoRows(s: Span, s1: Span)
    requires s.traceId == s1.traceId && s.spanId != s1.spanId && s.cacheCreation == None == s1.cacheCreation
    ensures ExecAll(EMPTY, [s, s1]).rows == [Row(1, s), Row(2, s1)]
    ensures SpansOf([Row(1, s), Row(2, s1)], s.traceId) == [s, s1]
  {
    assert [s, s1][..1] == [s] && [s][..0] == [];
    ExecNew(EMPTY, s);
    var one := Exec(EMPTY, s);
    ExecNew(one, s1);
    assert ExecAll(EMPTY, [s]) == one;
    var rows := [Row(1, s), Row(2, s1)];
    assert Spans(rows) == [s, s1];
    assert Filter(InTrace(s.traceId), [s1]) == [s1];
    assert [s, s1][1..] == [s1];
  }

  lemma CostOfTwo(s: Span, s1: Span)
    requires Counted(s) && Counted(s1) && s.cost.Some? && s1.cost.Some?
    ensures CostTotal([s, s1]) == Some(s.cost.value + s1.cost.value)
  {
    var spans := [s, s1];
    assert Known(spans, CostOf()) by { assert Counted(spans[0]); }
    assert spans[1..] == [s1] && SumCost([s1]) == s1.cost.value;
  }

  lemma HalfRefused(s: Span, s1: Span)
    requires s.traceId == s1.traceId && s.spanId != s1.spanId && s.cacheCreation == None == s1.cacheCreation
    requires Counted(s) && Counted(s1) && s.cost == Some(MAX_COST) && s1.cost == Some(1.0)
    ensures !Insertable(EMPTY, [s, s1])
  {
    TwoRows(s, s1);
    CostOfTwo(s, s1);
    assert s in [s, s1];
  }

  lemma SecondRewritten(db: Db, s: Span, s1: Span, s0: Span)
    requires db.rows == [Row(1, s), Row(2, s1)] && KeysUnique(db.rows)
    requires s0.traceId == s1.traceId && s0.spanId == s1.spanId && s0.cacheCreation == None
    ensures Exec(db, s0).rows == [Row(1, s), Row(2, s0)]
  {
    ExecAt(db, s0, 1);
  }

  lemma ThirdRow(s: Span, s1: Span, s0: Span)
    requires s.traceId == s1.traceId && s.spanId != s1.spanId && s.cacheCreation == None == s1.cacheCreation
    requires s0 == s1.(cost := Some(0.0))
    ensures ExecAll(EMPTY, [s, s1, s0]).rows == [Row(1, s), Row(2, s0)]
  {
    TwoRows(s, s1);
    SecondRewritten(ExecAll(EMPTY, [s, s1]), s, s1, s0);
    ExecLast(EMPTY, [s, s1], s0);
    assert [s, s1, s0] == [s, s1] + [s0];
  }

  lemma ExecLast(db: Db, init: seq<Span>, last: Span)
    ensures ExecAll(db, init + [last]) == Exec(ExecAll(db, init), last)
  {
    assert (init + [last])[..|init|] == init;
  }

  lemma OneTrace(s: Span, s1: Span, s0: Span, t: string)
    requires s.traceId == s1.traceId == s0.traceId && t in TraceIds([s, s1, s0])
    ensures t == s.traceId
  {
  }

  lemma WholeAccepted(s: Span, s1: Span, s0: Span)
    requires s.traceId == s1.traceId && s.spanId != s1.spanId && s.cacheCreation == None == s1.cacheCreation
    requires Accepted(s) && Accepted(s1) && s0 == s1.(cost := Some(0.0))
    requires Counted(s) && Counted(s1) && s.cost == Some(MAX_COST) && s1.cost == Some(1.0)
    ensures Insertable(EMPTY, [s, s1, s0])
  {
    var spans := [s, s1, s0];
    forall t | t in TraceIds(spans) ensures CostOk(CostTotal(SpansOf(ExecAll(EMPTY, spans).rows, t))) {
      OneTrace(s, s1, s0, t);
      ThirdRow(s, s1, s0);
      TwoRows(s, s0);
      CostOfTwo(s, s0);
    }
  }
}

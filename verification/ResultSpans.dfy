// A recorded first result and its tool span: when the span is stored, and what it says.
module ResultSpans {
  import opened Prelude
  import opened Correlation
  import opened CorrelationRuns

  ghost predicate HasRow(rows: seq<Row>, traceId: Id, spanId: Id) {
    exists i :: 0 <= i < |rows| && rows[i].traceId == traceId && rows[i].spanId == spanId
  }

  // What is stored under a key after rows have been written.
  lemma {:induction false} UpsertedAt(spans: SpanTable, rows: seq<Row>, traceId: Id, spanId: Id)
    ensures (traceId, spanId) in UpsertRows(spans, rows) <==>
      (traceId, spanId) in spans || HasRow(rows, traceId, spanId)
    ensures (traceId, spanId) in UpsertRows(spans, rows) ==>
      || (exists i :: 0 <= i < |rows| && rows[i] == Row(traceId, spanId, UpsertRows(spans, rows)[(traceId, spanId)]))
      || (!HasRow(rows, traceId, spanId) && UpsertRows(spans, rows)[(traceId, spanId)] == spans[(traceId, spanId)])
    decreases |rows|
  {
    if rows != [] {
      var init, last := rows[..|rows| - 1], rows[|rows| - 1];
      UpsertedAt(spans, init, traceId, spanId);
      if HasRow(rows, traceId, spanId) {
        var i :| 0 <= i < |rows| && rows[i].traceId == traceId && rows[i].spanId == spanId;
        assert i < |init| ==> init[i] == rows[i];
      }
      if HasRow(init, traceId, spanId) {
        var i :| 0 <= i < |init| && init[i].traceId == traceId && init[i].spanId == spanId;
        assert rows[i] == init[i];
      }
      if last.traceId == traceId && last.spanId == spanId {
        assert rows[|rows| - 1] == Row(traceId, spanId, last.span);
      } else if (traceId, spanId) in UpsertRows(spans, init) {
        var stored := UpsertRows(spans, init)[(traceId, spanId)];
        if i :| 0 <= i < |init| && init[i] == Row(traceId, spanId, stored) {
          assert rows[i] == init[i];
        }
      }
    }
  }

  // ----- One step -----

  function PurgeCutoff(steps: seq<Step>): Option<int> {
    if steps == [] then None
    else
      var last := steps[|steps| - 1];
      Later(PurgeCutoff(steps[..|steps| - 1]), if last.Purge? then Some(last.cutoff) else None)
  }

  predicate NotBefore(time: int, cutoff: Option<int>) {
    cutoff.Some? ==> time >= cutoff.value
  }

  // A recorded result has its span, unless a purge has reached the time of the result; a span that
  // is there is the one the record demands.
  ghost predicate SpanStored(spans: SpanTable, k: ToolKey, o: Origin, purged: Option<int>) {
    var key := (o.traceId, ToolSpan(k));
    && (key in spans ==> Fits(o, spans[key]))
    && (NotBefore(o.firstResultNs, purged) ==> key in spans)
  }

  ghost predicate ResultsStored(s: Sys, purged: Option<int>) {
    forall k :: k in s.View() && s.View()[k].hasResult ==> SpanStored(s.spans, k, s.View()[k], purged)
  }

  lemma {:induction false} ResultRowAt(m: Origins, ex: Exchange, rs: seq<Result>, j: nat)
    requires j < |rs|
    ensures ResultRows(m, ex, rs)[j].spanId == ToolSpan(ex.Key(rs[j].id))
    ensures var k := ex.Key(rs[j].id); k in m ==>
      k in After(m, ex, rs)
      && ResultRows(m, ex, rs)[j].traceId == m[k].traceId
      && Fits(After(m, ex, rs)[k], ResultRows(m, ex, rs)[j].span)
    decreases |rs|
  {
    var k := ex.Key(rs[j].id);
    AfterAt(m, ex, rs, k);
    assert HasResultFor(rs, ex, k);
    if j < |rs| - 1 {
      var init := rs[..|rs| - 1];
      ResultRowAt(m, ex, init, j);
      AfterAt(m, ex, init, k);
      assert HasResultFor(init, ex, k) by { assert init[j] == rs[j]; }
    } else {
      NotedAt(m, ex, rs, k);
    }
  }

  // The batch has one tool span per result, and nothing else with a tool span's id.
  lemma BatchRow(m: Origins, ex: Exchange, i: nat)
    requires ex.WellFormed() && i < |Batch(ex, m)| && Batch(ex, m)[i].spanId.ToolSpan?
    ensures 1 <= i < 1 + |ex.results| && Batch(ex, m)[i] == ResultRows(m, ex, ex.results)[i - 1]
  {
  }

  lemma BatchRowFits(m: Origins, ex: Exchange, k: ToolKey, i: nat)
    requires ex.WellFormed() && k in m && i < |Batch(ex, m)| && Batch(ex, m)[i].spanId == ToolSpan(k)
    ensures k in After(m, ex, ex.results) && Fits(After(m, ex, ex.results)[k], Batch(ex, m)[i].span)
  {
    BatchRow(m, ex, i);
    ResultRowAt(m, ex, ex.results, i - 1);
  }

  lemma BatchAnswers(m: Origins, ex: Exchange, k: ToolKey)
    requires k in m && HasResultFor(ex.results, ex, k)
    ensures HasRow(Batch(ex, m), m[k].traceId, ToolSpan(k))
  {
    var j :| 0 <= j < |ex.results| && ex.Key(ex.results[j].id) == k;
    ResultRowAt(m, ex, ex.results, j);
    assert Batch(ex, m)[j + 1] == ResultRows(m, ex, ex.results)[j];
  }

  // On the table alone: rows that all fit are written over a span that is there already, or one of
  // them is written.
  lemma RowsStore(spans: SpanTable, rows: seq<Row>, k: ToolKey, o: Origin, purged: Option<int>)
    requires forall i :: 0 <= i < |rows| && rows[i].spanId == ToolSpan(k) ==> Fits(o, rows[i].span)
    requires HasRow(rows, o.traceId, ToolSpan(k)) || SpanStored(spans, k, o, purged)
    ensures SpanStored(UpsertRows(spans, rows), k, o, purged)
  {
    UpsertedAt(spans, rows, o.traceId, ToolSpan(k));
  }

  lemma CaptureStores(s: Sys, ex: Exchange, k: ToolKey, purged: Option<int>)
    requires ResultsStored(s, purged) && ex.WellFormed()
    requires k in After(s.View(), ex, ex.results) && After(s.View(), ex, ex.results)[k].hasResult
    ensures SpanStored(UpsertRows(s.spans, Batch(ex, s.View())), k, After(s.View(), ex, ex.results)[k], purged)
  {
    var view := s.View();
    AfterAt(view, ex, ex.results, k);
    BatchFits(view, ex, k);
    if HasResultFor(ex.results, ex, k) {
      BatchAnswers(view, ex, k);
    }
    RowsStore(s.spans, Batch(ex, view), k, After(view, ex, ex.results)[k], purged);
  }

  // A span that the batch holds for a recorded result is the one the record demands.
  lemma BatchFits(m: Origins, ex: Exchange, k: ToolKey)
    requires ex.WellFormed() && k in After(m, ex, ex.results) && After(m, ex, ex.results)[k].hasResult
    ensures forall i :: 0 <= i < |Batch(ex, m)| && Batch(ex, m)[i].spanId == ToolSpan(k) && k in m ==>
      Fits(After(m, ex, ex.results)[k], Batch(ex, m)[i].span)
  {
    if k in m {
      forall i | 0 <= i < |Batch(ex, m)| && Batch(ex, m)[i].spanId == ToolSpan(k)
        ensures Fits(After(m, ex, ex.results)[k], Batch(ex, m)[i].span)
      {
        BatchRowFits(m, ex, k, i);
      }
    }
  }

  lemma PurgeKeeps(s: Sys, cutoff: int, gone: set<Id>, k: ToolKey, o: Origin, purged: Option<int>)
    requires Enabled(s, Purge(cutoff, gone)) && SpanStored(s.spans, k, o, purged)
    ensures SpanStored(WithoutTraces(s.spans, gone), k, o, Later(purged, Some(cutoff)))
  {
    var key := (o.traceId, ToolSpan(k));
    if key in s.spans && o.traceId in gone {
      assert TraceExpired(s.spans, o.traceId, cutoff);
      assert s.spans[(o.traceId, ToolSpan(k))].endNs < cutoff;
    }
  }

  lemma IngestKeeps(s: Sys, rows: seq<Row>, k: ToolKey, purged: Option<int>)
    requires Enabled(s, Ingest(rows)) && k in s.View() && s.View()[k].hasResult
    requires SpanStored(s.spans, k, s.View()[k], purged)
    ensures SpanStored(UpsertRows(s.spans, rows), k, s.View()[k], purged)
  {
    var o := s.View()[k];
    UpsertedAt(s.spans, rows, o.traceId, ToolSpan(k));
    assert forall i :: 0 <= i < |rows| ==> Agrees(s.View(), rows[i]);
  }

  lemma StepStoresResults(s: Sys, step: Step, purged: Option<int>)
    requires Coherent(s) && Enabled(s, step) && ResultsStored(s, purged)
    ensures ResultsStored(Apply(s, step), Later(purged, if step.Purge? then Some(step.cutoff) else None))
  {
    var s' := Apply(s, step);
    forall k | k in s'.View() && s'.View()[k].hasResult
      ensures SpanStored(s'.spans, k, s'.View()[k], Later(purged, if step.Purge? then Some(step.cutoff) else None))
    {
      match step
      case Captured(ex, visit, sweep) =>
        CommitCoherent(s, ex, ex.results, visit, sweep, Batch(ex, s.View()));
        CaptureStores(s, ex, k, purged);
      case Dropped(ex, visit, sweep) =>
        CommitCoherent(s, ex, [], visit, sweep, []);
        AfterAt(s.View(), ex, [], k);
        assert s'.spans == s.spans;
      case Purge(cutoff, gone) =>
        PurgeKeeps(s, cutoff, gone, k, s.View()[k], purged);
      case Ingest(rows) =>
        IngestKeeps(s, rows, k, purged);
      case _ =>
        OtherStepShrinks(s, step);
    }
  }

  // In every reachable state, an origin whose result is recorded, in the cache or the table, has
  // its tool span stored beneath the issuing span, in that span's trace, ending at the first result,
  // as long as no purge has reached that time.
  lemma {:induction false} ResultsAlwaysStored(steps: seq<Step>)
    requires Legal(steps)
    ensures ResultsStored(Run(steps), PurgeCutoff(steps))
  {
    if steps != [] {
      var init := steps[..|steps| - 1];
      ResultsAlwaysStored(init);
      AlwaysCoherent(init);
      StepStoresResults(Run(init), steps[|steps| - 1], PurgeCutoff(init));
    }
  }

  // ----- Exactly when a span is stored -----

  predicate Purges(step: Step, traceId: Id) {
    step.Purge? && traceId in step.gone
  }

  // No purge after step h takes the trace.
  ghost predicate Spared(steps: seq<Step>, h: int, traceId: Id)
    requires 0 <= h
  {
    forall l :: h < l < |steps| ==> !Purges(steps[l], traceId)
  }

  // Step h writes k's span in the trace of its issue, which is step i.
  ghost predicate Writes(steps: seq<Step>, h: nat, k: ToolKey, i: int, traceId: Id)
    requires h < |steps|
  {
    || (i < h && Answers(steps[h], k))
    || (steps[h].Ingest? && HasRow(steps[h].rows, traceId, ToolSpan(k)))
  }

  ghost predicate WrittenLast(steps: seq<Step>, h: int, k: ToolKey, i: int, traceId: Id) {
    0 <= h < |steps| && Writes(steps, h, k, i, traceId) && Spared(steps, h, traceId)
  }

  // Some answer to the call, or some import of its span, came after the last purge of the trace.
  ghost predicate Kept(steps: seq<Step>, k: ToolKey, i: int, traceId: Id) {
    exists h :: WrittenLast(steps, h, k, i, traceId)
  }

  // A write stays the last one while the trace is not purged.
  lemma WrittenStays(init: seq<Step>, last: Step, h: int, k: ToolKey, i: int, traceId: Id)
    requires WrittenLast(init, h, k, i, traceId) && !Purges(last, traceId)
    ensures WrittenLast(init + [last], h, k, i, traceId)
  {
    var steps := init + [last];
    assert steps[h] == init[h];
    forall l | h < l < |steps| ensures !Purges(steps[l], traceId) {
      assert l < |init| ==> steps[l] == init[l];
    }
  }

  lemma WrittenBefore(init: seq<Step>, last: Step, h: int, k: ToolKey, i: int, traceId: Id)
    requires WrittenLast(init + [last], h, k, i, traceId) && h < |init|
    ensures WrittenLast(init, h, k, i, traceId) && !Purges(last, traceId)
  {
    var steps := init + [last];
    assert steps[h] == init[h] && steps[|init|] == last;
    forall l | h < l < |init| ensures !Purges(init[l], traceId) {
      assert steps[l] == init[l];
    }
  }

  lemma KeptNext(init: seq<Step>, last: Step, k: ToolKey, i: int, traceId: Id)
    ensures Kept(init + [last], k, i, traceId) <==>
      || Writes(init + [last], |init|, k, i, traceId)
      || (Kept(init, k, i, traceId) && !Purges(last, traceId))
  {
    var steps := init + [last];
    if Writes(steps, |init|, k, i, traceId) {
      assert WrittenLast(steps, |init|, k, i, traceId);
    }
    if Kept(init, k, i, traceId) && !Purges(last, traceId) {
      var h :| WrittenLast(init, h, k, i, traceId);
      WrittenStays(init, last, h, k, i, traceId);
    }
    if h :| WrittenLast(steps, h, k, i, traceId) {
      if h < |init| {
        WrittenBefore(init, last, h, k, i, traceId);
      }
    }
  }

  lemma SpanAfterStep(s: Sys, step: Step, traceId: Id, spanId: Id)
    requires Enabled(s, step)
    ensures (traceId, spanId) in Apply(s, step).spans <==>
      match step
      case Captured(ex, _, _) => (traceId, spanId) in s.spans || HasRow(Batch(ex, s.View()), traceId, spanId)
      case Ingest(rows) => (traceId, spanId) in s.spans || HasRow(rows, traceId, spanId)
      case _ => (traceId, spanId) in s.spans && !Purges(step, traceId)
  {
    match step
    case Captured(ex, _, _) => UpsertedAt(s.spans, Batch(ex, s.View()), traceId, spanId);
    case Ingest(rows) => UpsertedAt(s.spans, rows, traceId, spanId);
    case _ =>
  }

  // What the batch of a capture holds for a call that is known, or not.
  lemma BatchHasSpan(m: Origins, ex: Exchange, k: ToolKey, traceId: Id)
    requires ex.WellFormed() && !traceId.ToolTrace? && (k in m ==> m[k].traceId == traceId)
    ensures HasRow(Batch(ex, m), traceId, ToolSpan(k)) <==> k in m && HasResultFor(ex.results, ex, k)
  {
    if k in m && HasResultFor(ex.results, ex, k) {
      BatchAnswers(m, ex, k);
    }
    if i :| 0 <= i < |Batch(ex, m)| && Batch(ex, m)[i].traceId == traceId && Batch(ex, m)[i].spanId == ToolSpan(k) {
      BatchRow(m, ex, i);
      ResultRowAt(m, ex, ex.results, i - 1);
      OrphanRow(m, ex, ex.results, i - 1);
      assert ex.Key(ex.results[i - 1].id) == k;
    }
  }

  lemma {:induction false} OrphanRow(m: Origins, ex: Exchange, rs: seq<Result>, j: nat)
    requires j < |rs|
    ensures ex.Key(rs[j].id) !in m ==> ResultRows(m, ex, rs)[j].traceId == ToolTrace(ex.Key(rs[j].id))
    decreases |rs|
  {
    if j < |rs| - 1 {
      OrphanRow(m, ex, rs[..|rs| - 1], j);
    } else {
      NotedAt(m, ex, rs, ex.Key(rs[j].id));
    }
  }

  // The origin of a call is settled by its first issue, for good.
  lemma {:induction false} PlainIssue(steps: seq<Step>, k: ToolKey, i: int)
    requires FirstIssue(steps, k, i)
    ensures k in PlainRun(steps)
    ensures var issue, o := steps[i].ex, PlainRun(steps)[k];
      o.traceId == issue.traceId && o.spanId == issue.SpanId() && o.createdNs == issue.calls[k.id].createdNs
  {
    var init := steps[..|steps| - 1];
    PlainStepAt(PlainRun(init), steps[|steps| - 1], k);
    if i == |steps| - 1 {
      PlainNeverIssued(init, k);
    } else {
      assert Issues(init[i], k);
      PlainIssue(init, k, i);
    }
  }

  // Step i, where it lies within the run, is the first issue of k, in this trace, and has not
  // expired; nothing before it issues k.
  ghost predicate IssuedAt(steps: seq<Step>, k: ToolKey, i: nat, traceId: Id) {
    if i < |steps| then
      && FirstIssue(steps, k, i) && steps[i].ex.traceId == traceId
      && Live(NewOrigin(steps[i].ex, steps[i].ex.calls[k.id]), Cutoff(steps))
    else forall h :: 0 <= h < |steps| ==> !Issues(steps[h], k)
  }

  lemma ViewOfIssue(steps: seq<Step>, k: ToolKey, i: nat, traceId: Id)
    requires Legal(steps) && IssuedAt(steps, k, i, traceId)
    ensures k in Run(steps).View() <==> i < |steps|
    ensures i < |steps| ==> Run(steps).View()[k].traceId == traceId
  {
    RunRefinesPlainMap(steps);
    AlwaysCoherent(steps);
    if i < |steps| {
      PlainIssue(steps, k, i);
    } else {
      PlainNeverIssued(steps, k);
    }
  }

  lemma RunNext(init: seq<Step>, last: Step)
    requires Legal(init + [last])
    ensures Legal(init) && Enabled(Run(init), last) && Run(init + [last]) == Apply(Run(init), last)
  {
    assert (init + [last])[..|init|] == init;
  }

  lemma IssuedBefore(init: seq<Step>, last: Step, k: ToolKey, i: nat, traceId: Id)
    requires IssuedAt(init + [last], k, i, traceId)
    ensures IssuedAt(init, k, i, traceId)
  {
    var steps := init + [last];
    assert steps[..|init|] == init;
    assert forall h :: 0 <= h < |init| ==> steps[h] == init[h];
  }

  lemma {:induction false} StoredIffKept(steps: seq<Step>, k: ToolKey, i: nat, traceId: Id)
    requires Legal(steps) && IssuedAt(steps, k, i, traceId) && !traceId.ToolTrace?
    ensures (traceId, ToolSpan(k)) in Run(steps).spans <==> Kept(steps, k, i, traceId)
  {
    if steps != [] {
      var init, last := steps[..|steps| - 1], steps[|steps| - 1];
      assert steps == init + [last];
      IssuedBefore(init, last, k, i, traceId);
      StoredIffKept(init, k, i, traceId);
      ViewOfIssue(init, k, i, traceId);
      KeptByRun(init, last, k, i, traceId);
    }
  }

  lemma KeptByRun(init: seq<Step>, last: Step, k: ToolKey, i: nat, traceId: Id)
    requires Legal(init + [last]) && Legal(init) && !traceId.ToolTrace?
    requires (traceId, ToolSpan(k)) in Run(init).spans <==> Kept(init, k, i, traceId)
    requires k in Run(init).View() <==> i < |init|
    requires i < |init| ==> Run(init).View()[k].traceId == traceId
    ensures (traceId, ToolSpan(k)) in Run(init + [last]).spans <==> Kept(init + [last], k, i, traceId)
  {
    RunNext(init, last);
    StepKeeps(Run(init), init, last, k, i, traceId);
  }

  lemma StepKeeps(s: Sys, init: seq<Step>, last: Step, k: ToolKey, i: nat, traceId: Id)
    requires Enabled(s, last) && !traceId.ToolTrace?
    requires (traceId, ToolSpan(k)) in s.spans <==> Kept(init, k, i, traceId)
    requires k in s.View() <==> i < |init|
    requires i < |init| ==> s.View()[k].traceId == traceId
    ensures (traceId, ToolSpan(k)) in Apply(s, last).spans <==> Kept(init + [last], k, i, traceId)
  {
    KeptNext(init, last, k, i, traceId);
    SpanAfterStep(s, last, traceId, ToolSpan(k));
    if last.Captured? {
      BatchHasSpan(s.View(), last.ex, k, traceId);
    }
  }

  // End to end: whichever step first issued a call, captured or dropped, and whichever capture
  // first answered it, its tool span lies in the issuing exchange's trace under its model span, and
  // runs from that model's end to the first answer's start, clamped when they overlap. It is stored
  // exactly if an answer, be it a replay, or an import of the span came after the last purge of
  // that trace; no purge with an earlier cutoff than the first answer can have taken it.
  lemma AnsweredCallIsLinked(steps: seq<Step>, k: ToolKey, i: int, j: int)
    requires Legal(steps) && FirstIssue(steps, k, i) && FirstAnswer(steps, k, i, j)
    requires Live(NewOrigin(steps[i].ex, steps[i].ex.calls[k.id]), Cutoff(steps))
    ensures var issue, answer, spans := steps[i].ex, steps[j].ex, Run(steps).spans;
      var key := (issue.traceId, ToolSpan(k));
      && (key in spans <==> Kept(steps, k, i, issue.traceId))
      && (NotBefore(answer.startNs, PurgeCutoff(steps)) ==> key in spans)
      && (key in spans ==>
            && spans[key].parentId == issue.SpanId()
            && spans[key].endNs == answer.startNs
            && spans[key].startNs == Min(issue.endNs, answer.startNs))
  {
    OriginAtEnd(steps, k, i, j);
    ResultsAlwaysStored(steps);
    IssuerIsWellFormed(steps, i);
    StoredIffKept(steps, k, i, steps[i].ex.traceId);
  }

  lemma OriginAtEnd(steps: seq<Step>, k: ToolKey, i: int, j: int)
    requires Legal(steps) && FirstIssue(steps, k, i) && FirstAnswer(steps, k, i, j)
    requires Live(NewOrigin(steps[i].ex, steps[i].ex.calls[k.id]), Cutoff(steps))
    ensures k in Run(steps).View()
    ensures Run(steps).View()[k] ==
      NewOrigin(steps[i].ex, steps[i].ex.calls[k.id]).(firstResultNs := steps[j].ex.startNs, hasResult := true)
  {
    PlainAnswered(steps, k, i, j);
    RunRefinesPlainMap(steps);
    AlwaysCoherent(steps);
  }

  lemma {:induction false} IssuerIsWellFormed(steps: seq<Step>, i: int)
    requires Legal(steps) && 0 <= i < |steps| && (steps[i].Captured? || steps[i].Dropped?)
    ensures steps[i].ex.WellFormed()
  {
    if i < |steps| - 1 {
      IssuerIsWellFormed(steps[..|steps| - 1], i);
    }
  }

  // A call that no later capture answered has no result, however often it was dropped or re-issued.
  lemma UnansweredCallHasNoResult(steps: seq<Step>, k: ToolKey, i: int)
    requires Legal(steps) && FirstIssue(steps, k, i) && Unanswered(steps, k, i)
    requires Live(NewOrigin(steps[i].ex, steps[i].ex.calls[k.id]), Cutoff(steps))
    ensures k in Run(steps).calls && Run(steps).calls[k] == NewOrigin(steps[i].ex, steps[i].ex.calls[k.id])
  {
    PlainUnanswered(steps, k, i);
    RunRefinesPlainMap(steps);
  }
}

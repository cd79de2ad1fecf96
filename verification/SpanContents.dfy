// What a tool span says: the fields that a result's span takes from the result, from the call that it
// answers, and from the exchange that first issued the call (internal/proxy/relay.go, parser.go).
module SpanContents {
  import opened Prelude
  import opened Correlation
  import opened CorrelationRuns
  import opened ResultSpans

  // The span of result r for a call issued by `issue` and first answered at `firstNs`: name and
  // arguments are the call's where the result has none.
  function Said(issue: Exchange, call: Call, firstNs: int, r: Result): Span {
    Span(issue.SpanId(), Min(issue.endNs, firstNs), firstNs, if r.name == "" then call.name else r.name,
         if r.arguments.None? then call.arguments else r.arguments, r.content, r.isError)
  }

  // Step i first issued the call, and its record has not expired.
  ghost predicate LiveIssue(steps: seq<Step>, k: ToolKey, i: int) {
    FirstIssue(steps, k, i) && NotBefore(steps[i].ex.calls[k.id].createdNs, Cutoff(steps))
  }

  // When the call was first answered.
  ghost predicate AnsweredAt(steps: seq<Step>, k: ToolKey, i: int, firstNs: int) {
    exists j :: FirstAnswer(steps, k, i, j) && firstNs == steps[j].ex.startNs
  }

  // The same, if `ex` is the next exchange to answer it.
  ghost predicate FirstAt(steps: seq<Step>, k: ToolKey, i: int, ex: Exchange, firstNs: int) {
    if Unanswered(steps, k, i) then firstNs == ex.startNs else AnsweredAt(steps, k, i, firstNs)
  }

  lemma {:induction false} RowOfKnownCall(m: Origins, ex: Exchange, rs: seq<Result>, j: nat)
    requires j < |rs| && ex.Key(rs[j].id) in m
    ensures var k, r, row := ex.Key(rs[j].id), rs[j], ResultRows(m, ex, rs)[j]; var o := NotedIf(true, m[k], ex);
      && row.traceId == o.traceId && row.spanId == ToolSpan(k)
      && row.span.parentId == o.spanId && row.span.endNs == o.firstResultNs
      && row.span.startNs == Min(o.endNs, o.firstResultNs)
      && row.span.toolName == (if r.name == "" then o.name else r.name)
      && row.span.arguments == (if r.arguments.None? then o.arguments else r.arguments)
      && row.span.content == r.content && row.span.isError == r.isError
    decreases |rs|
  {
    if j < |rs| - 1 {
      RowOfKnownCall(m, ex, rs[..|rs| - 1], j);
    } else {
      NotedAt(m, ex, rs, ex.Key(rs[j].id));
      assert HasResultFor(rs, ex, ex.Key(rs[j].id));
    }
  }

  lemma ViewOfLiveCall(steps: seq<Step>, k: ToolKey, i: int)
    requires Legal(steps) && LiveIssue(steps, k, i)
    ensures k in PlainRun(steps) && k in Run(steps).View() && Run(steps).View()[k] == PlainRun(steps)[k]
  {
    PlainIssue(steps, k, i);
    RunRefinesPlainMap(steps);
    AlwaysCoherent(steps);
  }

  // Whatever was evicted, dropped, replayed, restarted or expired before: the row that a capture emits
  // for a result of an issued call is in the trace and under the span of the first issue, and says
  // what the result and the call say.
  lemma EmittedSpan(steps: seq<Step>, ex: Exchange, rs: seq<Result>, j: nat, i: int, firstNs: int)
    requires Legal(steps) && j < |rs| && LiveIssue(steps, ex.Key(rs[j].id), i)
    requires FirstAt(steps, ex.Key(rs[j].id), i, ex, firstNs)
    ensures steps[i].ex.route == ex.route && steps[i].ex.session == ex.session && rs[j].id in steps[i].ex.calls
    ensures var k, issue, row := ex.Key(rs[j].id), steps[i].ex, ResultRows(Run(steps).View(), ex, rs)[j];
      row == Row(issue.traceId, ToolSpan(k), Said(issue, issue.calls[k.id], firstNs, rs[j]))
  {
    var k := ex.Key(rs[j].id);
    ViewOfLiveCall(steps, k, i);
    RowOfKnownCall(Run(steps).View(), ex, rs, j);
    if Unanswered(steps, k, i) {
      PlainUnanswered(steps, k, i);
    } else {
      var h :| FirstAnswer(steps, k, i, h) && firstNs == steps[h].ex.startNs;
      PlainAnswered(steps, k, i, h);
    }
  }

  // A result of a call that lookups do not find is an orphan: a trace of its own, no parent, and the
  // result's own fields.
  lemma {:induction false} OrphanSpan(m: Origins, ex: Exchange, rs: seq<Result>, j: nat)
    requires j < |rs| && ex.Key(rs[j].id) !in m
    ensures var k, r := ex.Key(rs[j].id), rs[j];
      ResultRows(m, ex, rs)[j] ==
        Row(ToolTrace(k), ToolSpan(k),
            Span(NoParent, ex.startNs, ex.startNs, r.name, r.arguments, r.content, r.isError))
    decreases |rs|
  {
    if j < |rs| - 1 {
      OrphanSpan(m, ex, rs[..|rs| - 1], j);
    } else {
      NotedAt(m, ex, rs, ex.Key(rs[j].id));
    }
  }

  lemma NeverIssuedIsOrphan(steps: seq<Step>, ex: Exchange, rs: seq<Result>, j: nat)
    requires Legal(steps) && j < |rs| && forall h :: 0 <= h < |steps| ==> !Issues(steps[h], ex.Key(rs[j].id))
    ensures var k, r := ex.Key(rs[j].id), rs[j];
      ResultRows(Run(steps).View(), ex, rs)[j] ==
        Row(ToolTrace(k), ToolSpan(k),
            Span(NoParent, ex.startNs, ex.startNs, r.name, r.arguments, r.content, r.isError))
  {
    RunRefinesPlainMap(steps);
    PlainNeverIssued(steps, ex.Key(rs[j].id));
    OrphanSpan(Run(steps).View(), ex, rs, j);
  }

  // No other exchange ever writes over the model span of an exchange.
  lemma ModelSpanStays(s: Sys, step: Step, mine: Exchange)
    requires Enabled(s, step) && (step.Captured? || step.Dropped?)
    requires step.ex.root.Some? ==> step.ex.root.value.spanId.TurnRoot?
    requires step.ex.route != mine.route || step.ex.session != mine.session || step.ex.seed != mine.seed
    requires (mine.traceId, mine.SpanId()) in s.spans
    ensures (mine.traceId, mine.SpanId()) in Apply(s, step).spans
    ensures Apply(s, step).spans[(mine.traceId, mine.SpanId())] == s.spans[(mine.traceId, mine.SpanId())]
  {
    if step.Captured? {
      NoRowOf(s.View(), step.ex, mine);
      UpsertedAt(s.spans, Batch(step.ex, s.View()), mine.traceId, mine.SpanId());
    }
  }

  lemma NoRowOf(m: Origins, ex: Exchange, mine: Exchange)
    requires ex.root.Some? ==> ex.root.value.spanId.TurnRoot?
    requires ex.route != mine.route || ex.session != mine.session || ex.seed != mine.seed
    ensures !HasRow(Batch(ex, m), mine.traceId, mine.SpanId())
  {
    var rows := Batch(ex, m);
    forall l | 0 <= l < |rows| ensures rows[l].spanId != mine.SpanId() {
      if 1 <= l < 1 + |ex.results| {
        ResultRowAt(m, ex, ex.results, l - 1);
      }
    }
  }

  // ----- Expired calls -----

  // The origin is what an exchange said when it issued the call.
  ghost predicate FromIssue(o: Origin, issue: Exchange, k: ToolKey) {
    && IssuesKey(issue, k)
    && o.name == issue.calls[k.id].name && o.arguments == issue.calls[k.id].arguments
    && o.traceId == issue.traceId && o.spanId == issue.SpanId() && o.endNs == issue.endNs
    && o.createdNs == issue.calls[k.id].createdNs
  }

  ghost predicate FromSomeIssue(steps: seq<Step>, k: ToolKey, o: Origin) {
    exists i :: 0 <= i < |steps| && Issues(steps[i], k) && FromIssue(o, steps[i].ex, k)
  }

  lemma SomeIssueStays(init: seq<Step>, last: Step, k: ToolKey, o: Origin, o': Origin)
    requires FromSomeIssue(init, k, o) && o' == o.(firstResultNs := o'.firstResultNs, hasResult := o'.hasResult)
    ensures FromSomeIssue(init + [last], k, o')
  {
    var i :| 0 <= i < |init| && Issues(init[i], k) && FromIssue(o, init[i].ex, k);
    assert (init + [last])[i] == init[i];
  }

  // Whatever lookups find, even for a call that expired and was issued again, is what one of the
  // exchanges that issued it said.
  lemma {:induction false} KnownIsIssued(steps: seq<Step>, k: ToolKey)
    requires Legal(steps) && k in Run(steps).View()
    ensures FromSomeIssue(steps, k, Run(steps).View()[k])
  {
    if steps != [] {
      var init, last := steps[..|steps| - 1], steps[|steps| - 1];
      assert steps == init + [last];
      RunNext(init, last);
      AlwaysCoherent(init);
      ViewAfterStep(Run(init), last, k);
      if k in Run(init).View() {
        KnownIsIssued(init, k);
        SomeIssueStays(init, last, k, Run(init).View()[k], Run(steps).View()[k]);
      } else {
        assert Issues(steps[|init|], k);
      }
    }
  }

  lemma ViewAfterStep(s: Sys, step: Step, k: ToolKey)
    requires Coherent(s) && Enabled(s, step) && k in Apply(s, step).View()
    ensures var o := Apply(s, step).View()[k];
      if k in s.View() then o == s.View()[k].(firstResultNs := o.firstResultNs, hasResult := o.hasResult)
      else Issues(step, k) && FromIssue(o, step.ex, k)
  {
    match step
    case Captured(ex, visit, sweep) =>
      CommitCoherent(s, ex, ex.results, visit, sweep, Batch(ex, s.View()));
      AfterAt(s.View(), ex, ex.results, k);
    case Dropped(ex, visit, sweep) =>
      CommitCoherent(s, ex, [], visit, sweep, []);
      AfterAt(s.View(), ex, [], k);
    case _ =>
      OtherStepShrinks(s, step);
  }

  // Retention really forgets: once the cache is gone too, no lookup finds a call that was not issued
  // after the cutoff, so a later result of it is an orphan.
  lemma ExpiredIsForgotten(steps: seq<Step>, cutoff: int, k: ToolKey)
    requires Legal(steps + [Retention(cutoff)] + [Restart])
    requires forall i :: 0 <= i < |steps| && Issues(steps[i], k) ==> steps[i].ex.calls[k.id].createdNs < cutoff
    ensures k !in Run(steps + [Retention(cutoff)] + [Restart]).View()
  {
    RunNext(steps + [Retention(cutoff)], Restart);
    RunNext(steps, Retention(cutoff));
    AlwaysCoherent(steps);
    if k in Run(steps).View() {
      KnownIsOlder(steps, cutoff, k);
    }
    SweptAndRestarted(Run(steps), cutoff, k);
  }

  lemma KnownIsOlder(steps: seq<Step>, cutoff: int, k: ToolKey)
    requires Legal(steps) && k in Run(steps).View()
    requires forall i :: 0 <= i < |steps| && Issues(steps[i], k) ==> steps[i].ex.calls[k.id].createdNs < cutoff
    ensures Run(steps).View()[k].createdNs < cutoff
  {
    KnownIsIssued(steps, k);
  }

  lemma SweptAndRestarted(s: Sys, cutoff: int, k: ToolKey)
    requires Coherent(s) && (k in s.View() ==> s.View()[k].createdNs < cutoff)
    ensures k !in Apply(Apply(s, Retention(cutoff)), Restart).View()
  {
  }

  // ----- The stored span -----

  // Row j is the last one written for its key.
  ghost predicate LastRow(rows: seq<Row>, j: nat, traceId: Id, spanId: Id) {
    && j < |rows| && rows[j].traceId == traceId && rows[j].spanId == spanId
    && forall l :: j < l < |rows| ==> rows[l].traceId != traceId || rows[l].spanId != spanId
  }

  lemma {:induction false} LastRowStays(spans: SpanTable, rows: seq<Row>, j: nat, traceId: Id, spanId: Id)
    requires LastRow(rows, j, traceId, spanId)
    ensures (traceId, spanId) in UpsertRows(spans, rows)
    ensures UpsertRows(spans, rows)[(traceId, spanId)] == rows[j].span
    decreases |rows|
  {
    if j < |rows| - 1 {
      LastRowStays(spans, rows[..|rows| - 1], j, traceId, spanId);
    }
  }

  // The last result for k in a capture, or the last row for it in an import.
  ghost predicate LastResult(rs: seq<Result>, j: nat, id: string) {
    j < |rs| && rs[j].id == id && forall l :: j < l < |rs| ==> rs[l].id != id
  }

  ghost predicate LastWord(steps: seq<Step>, h: nat, j: nat, k: ToolKey, traceId: Id)
    requires h < |steps|
  {
    if steps[h].Captured? then LastResult(steps[h].ex.results, j, k.id)
    else steps[h].Ingest? && LastRow(steps[h].rows, j, traceId, ToolSpan(k))
  }

  // A step that does not write the span, and does not purge its trace, leaves it as it is.
  lemma SpanUntouched(init: seq<Step>, last: Step, k: ToolKey, i: nat, traceId: Id)
    requires Legal(init + [last]) && IssuedAt(init + [last], k, i, traceId) && !traceId.ToolTrace?
    requires !Writes(init + [last], |init|, k, i, traceId) && !Purges(last, traceId)
    requires Legal(init) && SpanOf(init, k, traceId).Some?
    ensures SpanOf(init + [last], k, traceId) == SpanOf(init, k, traceId)
  {
    RunNext(init, last);
    IssuedBefore(init, last, k, i, traceId);
    ViewOfIssue(init, k, i, traceId);
    StepLeaves(Run(init), last, k, traceId);
  }

  // What is stored for a call in this trace.
  ghost function SpanOf(steps: seq<Step>, k: ToolKey, traceId: Id): Option<Span>
    requires Legal(steps)
  {
    var spans := Run(steps).spans;
    if (traceId, ToolSpan(k)) in spans then Some(spans[(traceId, ToolSpan(k))]) else None
  }

  lemma StepLeaves(s: Sys, step: Step, k: ToolKey, traceId: Id)
    requires Enabled(s, step) && !traceId.ToolTrace? && (traceId, ToolSpan(k)) in s.spans
    requires k in s.View() ==> s.View()[k].traceId == traceId
    requires !Purges(step, traceId)
    requires step.Captured? ==> k !in s.View() || !Answers(step, k)
    requires step.Ingest? ==> !HasRow(step.rows, traceId, ToolSpan(k))
    ensures (traceId, ToolSpan(k)) in Apply(s, step).spans
    ensures Apply(s, step).spans[(traceId, ToolSpan(k))] == s.spans[(traceId, ToolSpan(k))]
  {
    match step
    case Captured(ex, _, _) =>
      BatchHasSpan(s.View(), ex, k, traceId);
      UpsertedAt(s.spans, Batch(ex, s.View()), traceId, ToolSpan(k));
    case Ingest(rows) =>
      UpsertedAt(s.spans, rows, traceId, ToolSpan(k));
    case _ =>
  }

  // The rows of a capture end, for a known call, with its last result.
  lemma LastResultRow(m: Origins, ex: Exchange, k: ToolKey, j: nat)
    requires ex.WellFormed() && k in m && k == ex.Key(k.id) && LastResult(ex.results, j, k.id)
    ensures LastRow(Batch(ex, m), j + 1, m[k].traceId, ToolSpan(k))
    ensures Batch(ex, m)[j + 1] == ResultRows(m, ex, ex.results)[j]
  {
    var rows := Batch(ex, m);
    assert rows[j + 1] == ResultRows(m, ex, ex.results)[j];
    RowOfKnownCall(m, ex, ex.results, j);
    forall l | j + 1 < l < |rows| ensures rows[l].spanId != ToolSpan(k) {
      if rows[l].spanId == ToolSpan(k) {
        BatchRow(m, ex, l);
        ResultRowAt(m, ex, ex.results, l - 1);
        assert false;
      }
    }
  }

  // The span as the step writes it: by its result j, or its row j.
  function Written(step: Step, j: nat, issue: Exchange, call: Call, firstNs: int): Span
    requires if step.Captured? then j < |step.ex.results| else step.Ingest? && j < |step.rows|
  {
    if step.Captured? then Said(issue, call, firstNs, step.ex.results[j]) else step.rows[j].span
  }

  lemma CaptureWrites(init: seq<Step>, ex: Exchange, k: ToolKey, i: int, j: nat, firstNs: int)
    requires Legal(init) && LiveIssue(init, k, i) && FirstAt(init, k, i, ex, firstNs)
    requires ex.WellFormed() && k == ex.Key(k.id) && LastResult(ex.results, j, k.id)
    ensures var key, issue := (init[i].ex.traceId, ToolSpan(k)), init[i].ex;
      var spans := UpsertRows(Run(init).spans, Batch(ex, Run(init).View()));
      key in spans && spans[key] == Said(issue, issue.calls[k.id], firstNs, ex.results[j])
  {
    var view := Run(init).View();
    ViewOfLiveCall(init, k, i);
    PlainIssue(init, k, i);
    EmittedSpan(init, ex, ex.results, j, i, firstNs);
    LastResultRow(view, ex, k, j);
    LastRowStays(Run(init).spans, Batch(ex, view), j + 1, init[i].ex.traceId, ToolSpan(k));
  }

  lemma BeforeAnswer(init: seq<Step>, last: Step, k: ToolKey, i: int, firstNs: int)
    requires last.Captured? && 0 <= i < |init| && AnsweredAt(init + [last], k, i, firstNs)
    ensures FirstAt(init, k, i, last.ex, firstNs)
  {
    var steps := init + [last];
    assert forall h :: 0 <= h < |init| ==> steps[h] == init[h];
    var f :| FirstAnswer(steps, k, i, f) && firstNs == steps[f].ex.startNs;
    if f < |init| {
      assert FirstAnswer(init, k, i, f) && !Unanswered(init, k, i);
    }
  }

  lemma LastStepWrites(init: seq<Step>, last: Step, k: ToolKey, i: int, j: nat, firstNs: int, issue: Exchange)
    requires Legal(init + [last]) && k.id in issue.calls
    requires last.Captured? ==>
      && LiveIssue(init, k, i) && init[i].ex == issue && FirstAt(init, k, i, last.ex, firstNs)
      && k == last.ex.Key(k.id) && LastResult(last.ex.results, j, k.id)
    requires !last.Captured? ==> last.Ingest? && LastRow(last.rows, j, issue.traceId, ToolSpan(k))
    ensures SpanOf(init + [last], k, issue.traceId) == Some(Written(last, j, issue, issue.calls[k.id], firstNs))
  {
    RunNext(init, last);
    if last.Captured? {
      CaptureWrites(init, last.ex, k, i, j, firstNs);
    } else {
      LastRowStays(Run(init).spans, last.rows, j, issue.traceId, ToolSpan(k));
    }
  }

  // A prefix of a run in which the call is issued, or not yet.
  lemma {:induction false} Prefix(steps: seq<Step>, n: nat, k: ToolKey, i: nat, traceId: Id)
    requires Legal(steps) && IssuedAt(steps, k, i, traceId) && n <= |steps|
    ensures Legal(steps[..n]) && IssuedAt(steps[..n], k, i, traceId)
    decreases |steps|
  {
    if n < |steps| {
      var init, last := steps[..|steps| - 1], steps[|steps| - 1];
      assert steps == init + [last];
      IssuedBefore(init, last, k, i, traceId);
      Prefix(init, n, k, i, traceId);
      assert init[..n] == steps[..n];
    } else {
      assert steps[..n] == steps;
    }
  }

  // Nothing after the first n steps writes the span or purges its trace.
  ghost predicate Quiet(steps: seq<Step>, n: nat, k: ToolKey, i: int, traceId: Id) {
    forall l :: n <= l < |steps| ==> !Writes(steps, l, k, i, traceId) && !Purges(steps[l], traceId)
  }

  lemma {:induction false} StaysAsWritten(steps: seq<Step>, before: seq<Step>, k: ToolKey, i: nat, traceId: Id)
    requires Legal(steps) && IssuedAt(steps, k, i, traceId) && !traceId.ToolTrace?
    requires before <= steps && Quiet(steps, |before|, k, i, traceId)
    requires Legal(before) && SpanOf(before, k, traceId).Some?
    ensures SpanOf(steps, k, traceId) == SpanOf(before, k, traceId)
    decreases |steps|
  {
    if before != steps {
      var init, last := steps[..|steps| - 1], steps[|steps| - 1];
      SplitLast(steps);
      StaysOneMore(init, last, before, k, i, traceId);
      StaysAsWritten(init, before, k, i, traceId);
      SpanUntouched(init, last, k, i, traceId);
    }
  }

  lemma StaysOneMore(init: seq<Step>, last: Step, before: seq<Step>, k: ToolKey, i: nat, traceId: Id)
    requires Legal(init + [last]) && IssuedAt(init + [last], k, i, traceId)
    requires before <= init && Quiet(init + [last], |before|, k, i, traceId)
    ensures Legal(init) && IssuedAt(init, k, i, traceId) && Quiet(init, |before|, k, i, traceId)
    ensures !Writes(init + [last], |init|, k, i, traceId) && !Purges(last, traceId)
  {
    RunNext(init, last);
    IssuedBefore(init, last, k, i, traceId);
    QuietBefore(init, last, |before|, k, i, traceId);
    assert (init + [last])[|init|] == last;
  }

  lemma QuietBefore(init: seq<Step>, last: Step, n: nat, k: ToolKey, i: int, traceId: Id)
    requires Quiet(init + [last], n, k, i, traceId)
    ensures Quiet(init, n, k, i, traceId)
  {
    var steps := init + [last];
    forall l | n <= l < |init| ensures !Writes(init, l, k, i, traceId) && !Purges(init[l], traceId) {
      assert steps[l] == init[l];
      assert !Writes(steps, l, k, i, traceId);
    }
  }

  // What is stored for an issued call is what was last written for it: the last result of the last
  // capture that answered it, under the first issue and up to the first answer, or an imported row.
  lemma StoredSpan(steps: seq<Step>, k: ToolKey, i: nat, h: nat, j: nat, firstNs: int)
    requires Legal(steps) && LiveIssue(steps, k, i)
    requires h < |steps| && (steps[h].Captured? ==> AnsweredAt(steps, k, i, firstNs))
    requires Writes(steps, h, k, i, steps[i].ex.traceId)
    requires LastWord(steps, h, j, k, steps[i].ex.traceId) && Quiet(steps, h + 1, k, i, steps[i].ex.traceId)
    ensures var issue := steps[i].ex;
      SpanOf(steps, k, issue.traceId) == Some(Written(steps[h], j, issue, issue.calls[k.id], firstNs))
  {
    IssuerIsWellFormed(steps, i);
    StepWrites(steps, k, i, h, j, firstNs);
    Prefix(steps, h + 1, k, i, steps[i].ex.traceId);
    StaysAsWritten(steps, steps[..h + 1], k, i, steps[i].ex.traceId);
  }

  // The state right after step h.
  lemma StepWrites(steps: seq<Step>, k: ToolKey, i: nat, h: nat, j: nat, firstNs: int)
    requires Legal(steps) && LiveIssue(steps, k, i)
    requires h < |steps| && (steps[h].Captured? ==> AnsweredAt(steps, k, i, firstNs))
    requires Writes(steps, h, k, i, steps[i].ex.traceId) && LastWord(steps, h, j, k, steps[i].ex.traceId)
    ensures Legal(steps[..h + 1])
    ensures var issue := steps[i].ex;
      SpanOf(steps[..h + 1], k, issue.traceId) == Some(Written(steps[h], j, issue, issue.calls[k.id], firstNs))
  {
    assert steps[..h + 1] == steps[..h] + [steps[h]];
    Prefix(steps, h + 1, k, i, steps[i].ex.traceId);
    if steps[h].Captured? {
      AnsweredBefore(steps, k, i, h, firstNs);
    }
    LastStepWrites(steps[..h], steps[h], k, i, j, firstNs, steps[i].ex);
  }

  // The state that a capture which answers a call finds.
  lemma AnsweredBefore(steps: seq<Step>, k: ToolKey, i: nat, h: nat, firstNs: int)
    requires Legal(steps) && LiveIssue(steps, k, i) && AnsweredAt(steps, k, i, firstNs)
    requires i < h < |steps| && steps[h].Captured? && Answers(steps[h], k)
    ensures Legal(steps[..h]) && LiveIssue(steps[..h], k, i) && FirstAt(steps[..h], k, i, steps[h].ex, firstNs)
  {
    assert steps[..h + 1] == steps[..h] + [steps[h]];
    Prefix(steps, h, k, i, steps[i].ex.traceId);
    AnsweredByPrefix(steps, h + 1, k, i, firstNs);
    BeforeAnswer(steps[..h], steps[h], k, i, firstNs);
  }

  lemma AnsweredByPrefix(steps: seq<Step>, n: nat, k: ToolKey, i: nat, firstNs: int)
    requires AnsweredAt(steps, k, i, firstNs) && i < n - 1 < |steps| && Answers(steps[n - 1], k)
    ensures AnsweredAt(steps[..n], k, i, firstNs)
  {
    var f :| FirstAnswer(steps, k, i, f) && firstNs == steps[f].ex.startNs;
    assert f < n;
    assert FirstAnswer(steps[..n], k, i, f);
  }
}

// What every run of captures, dropped captures, failed commits, restarts, evictions and retention
// sweeps guarantees about tool-call correlation.
module CorrelationRuns {
  import opened Prelude
  import opened RingCache
  import opened Correlation

  // ----- One key at a time -----

  // What an exchange makes of an origin, depending on whether it carries a result for it.
  function NotedIf(answered: bool, o: Origin, ex: Exchange): Origin {
    if answered && !o.hasResult then o.(firstResultNs := ex.startNs, hasResult := true) else o
  }

  ghost predicate HasResultFor(rs: seq<Result>, ex: Exchange, k: ToolKey) {
    exists j :: 0 <= j < |rs| && ex.Key(rs[j].id) == k
  }

  lemma {:induction false} NotedAt(m: Origins, ex: Exchange, rs: seq<Result>, k: ToolKey)
    ensures k in NoteResults(m, ex, rs) <==> k in m
    ensures k in m ==> NoteResults(m, ex, rs)[k] == NotedIf(HasResultFor(rs, ex, k), m[k], ex)
  {
    if rs != [] {
      var init := rs[..|rs| - 1];
      NotedAt(m, ex, init, k);
      assert HasResultFor(rs, ex, k) <==> HasResultFor(init, ex, k) || ex.Key(rs[|rs| - 1].id) == k by {
        if HasResultFor(rs, ex, k) {
          var j :| 0 <= j < |rs| && ex.Key(rs[j].id) == k;
          assert j < |rs| - 1 ==> init[j] == rs[j];
        }
        if HasResultFor(init, ex, k) {
          var j :| 0 <= j < |init| && ex.Key(init[j].id) == k;
          assert rs[j] == init[j];
        }
      }
    }
  }

  ghost predicate IssuesKey(ex: Exchange, k: ToolKey) {
    k.id in ex.calls && k == ex.Key(k.id)
  }

  lemma AfterAt(m: Origins, ex: Exchange, rs: seq<Result>, k: ToolKey)
    ensures k in After(m, ex, rs) <==> k in m || IssuesKey(ex, k)
    ensures k in m ==> After(m, ex, rs)[k] == NotedIf(HasResultFor(rs, ex, k), m[k], ex)
    ensures k !in m && IssuesKey(ex, k) ==> After(m, ex, rs)[k] == NewOrigin(ex, ex.calls[k.id])
  {
    NotedAt(m, ex, rs, k);
  }

  // ----- The cache never disagrees with the database -----

  ghost predicate Coherent(s: Sys) {
    s.ring.Valid() && Agree(s.ring.entries, s.calls)
  }

  lemma UntouchedOrPending(s: Sys, ex: Exchange, rs: seq<Result>, k: ToolKey)
    requires k in After(s.View(), ex, rs)
    requires k !in Pending(s.ring.entries, s.calls, ex, rs)
    ensures k in s.View() && After(s.View(), ex, rs)[k] == s.View()[k]
  {
    AfterAt(s.View(), ex, rs, k);
    if HasResultFor(rs, ex, k) {
      var j :| 0 <= j < |rs| && ex.Key(rs[j].id) == k;
      assert rs[j] in rs;
    }
  }

  // In a coherent state the upsert writes exactly the pending origins: the database never keeps an
  // older result than the one the handler computed.
  lemma UpsertWritesPending(s: Sys, ex: Exchange, rs: seq<Result>, sweep: Option<int>, k: ToolKey)
    requires Coherent(s) && k in Pending(s.ring.entries, s.calls, ex, rs)
    ensures UpsertCalls(Swept(s.calls, sweep), Pending(s.ring.entries, s.calls, ex, rs))[k] ==
      After(s.View(), ex, rs)[k]
  {
    AfterAt(s.View(), ex, rs, k);
  }

  lemma CommitEntries(s: Sys, ex: Exchange, rs: seq<Result>, visit: seq<ToolKey>, sweep: Option<int>, rows: seq<Row>,
                      k: ToolKey)
    requires Coherent(s) && CanCommit(s, ex, rs, visit)
    ensures var s' := Commit(s, ex, rs, visit, sweep, rows);
      && s'.ring.Valid()
      && (k in s'.ring.entries ==> k in After(s.View(), ex, rs) && s'.ring.entries[k] == After(s.View(), ex, rs)[k])
      && (k in s'.calls ==> k in After(s.View(), ex, rs) && s'.calls[k] == After(s.View(), ex, rs)[k])
  {
    var origins := Pending(s.ring.entries, s.calls, ex, rs);
    PutAllEntries(s.ring, origins, visit);
    AfterAt(s.View(), ex, rs, k);
    if k in origins {
      UpsertWritesPending(s, ex, rs, sweep, k);
    } else if k in After(s.View(), ex, rs) {
      UntouchedOrPending(s, ex, rs, k);
    }
  }

  lemma CommitCoherent(s: Sys, ex: Exchange, rs: seq<Result>, visit: seq<ToolKey>, sweep: Option<int>, rows: seq<Row>)
    requires Coherent(s) && CanCommit(s, ex, rs, visit)
    ensures Coherent(Commit(s, ex, rs, visit, sweep, rows))
    ensures var s' := Commit(s, ex, rs, visit, sweep, rows);
      forall k :: k in s'.View() ==> k in After(s.View(), ex, rs) && s'.View()[k] == After(s.View(), ex, rs)[k]
  {
    forall k ensures var s' := Commit(s, ex, rs, visit, sweep, rows); var after := After(s.View(), ex, rs);
      && s'.ring.Valid()
      && (k in s'.ring.entries ==> k in after && s'.ring.entries[k] == after[k])
      && (k in s'.calls ==> k in after && s'.calls[k] == after[k])
    {
      CommitEntries(s, ex, rs, visit, sweep, rows, k);
    }
  }

  lemma StepCoherent(s: Sys, step: Step)
    requires Coherent(s) && Enabled(s, step)
    ensures Coherent(Apply(s, step))
  {
    match step
    case Captured(ex, visit, sweep) => CommitCoherent(s, ex, ex.results, visit, sweep, Batch(ex, s.View()));
    case Dropped(ex, visit, sweep) => CommitCoherent(s, ex, [], visit, sweep, []);
    case _ =>
  }

  lemma {:induction false} AlwaysCoherent(steps: seq<Step>)
    requires Legal(steps)
    ensures Coherent(Run(steps))
  {
    if steps != [] {
      AlwaysCoherent(steps[..|steps| - 1]);
      StepCoherent(Run(steps[..|steps| - 1]), steps[|steps| - 1]);
    }
  }

  // ----- Refinement of one plain map -----

  function Later(a: Option<int>, b: Option<int>): Option<int> {
    if a.None? then b else if b.None? then a else Some(Max(a.value, b.value))
  }

  function StepCutoff(step: Step): Option<int> {
    match step
    case Captured(_, _, sweep) => sweep
    case Dropped(_, _, sweep) => sweep
    case Failed(sweep) => sweep
    case Retention(cutoff) => Some(cutoff)
    case _ => None
  }

  // The latest retention cutoff of a run; None when retention never swept.
  function Cutoff(steps: seq<Step>): Option<int> {
    if steps == [] then None else Later(Cutoff(steps[..|steps| - 1]), StepCutoff(steps[|steps| - 1]))
  }

  predicate Live(o: Origin, cutoff: Option<int>) {
    cutoff.Some? ==> o.createdNs >= cutoff.value
  }

  // The system knows nothing the plain map does not, and everything in it that has not expired.
  ghost predicate Refines(s: Sys, plain: Origins, cutoff: Option<int>) {
    && (forall k :: k in s.View() ==> k in plain)
    && (forall k :: k in plain && Live(plain[k], cutoff) ==> k in s.calls && s.calls[k] == plain[k])
  }

  lemma LiveSurvives(s: Sys, plain: Origins, cutoff: Option<int>, ex: Exchange, rs: seq<Result>, sweep: Option<int>,
                     k: ToolKey)
    requires Coherent(s) && Refines(s, plain, cutoff)
    requires k in After(plain, ex, rs) && Live(After(plain, ex, rs)[k], Later(cutoff, sweep))
    ensures var calls := UpsertCalls(Swept(s.calls, sweep), Pending(s.ring.entries, s.calls, ex, rs));
      k in calls && calls[k] == After(plain, ex, rs)[k]
  {
    LiveAgrees(s, plain, cutoff, ex, rs, sweep, k);
    if k in Pending(s.ring.entries, s.calls, ex, rs) {
      UpsertWritesPending(s, ex, rs, sweep, k);
    } else {
      UntouchedOrPending(s, ex, rs, k);
    }
  }

  lemma LiveAgrees(s: Sys, plain: Origins, cutoff: Option<int>, ex: Exchange, rs: seq<Result>, sweep: Option<int>,
                   k: ToolKey)
    requires Coherent(s) && Refines(s, plain, cutoff)
    requires k in After(plain, ex, rs) && Live(After(plain, ex, rs)[k], Later(cutoff, sweep))
    ensures k in After(s.View(), ex, rs) && After(s.View(), ex, rs)[k] == After(plain, ex, rs)[k]
    ensures k in s.View() ==> k in s.calls && s.calls[k] == s.View()[k]
  {
    AfterAt(s.View(), ex, rs, k);
    AfterAt(plain, ex, rs, k);
  }

  lemma CommitRefines(s: Sys, plain: Origins, cutoff: Option<int>, ex: Exchange, rs: seq<Result>, visit: seq<ToolKey>,
                      sweep: Option<int>, rows: seq<Row>)
    requires Coherent(s) && CanCommit(s, ex, rs, visit) && Refines(s, plain, cutoff)
    ensures Refines(Commit(s, ex, rs, visit, sweep, rows), After(plain, ex, rs), Later(cutoff, sweep))
  {
    var s' := Commit(s, ex, rs, visit, sweep, rows);
    var plain' := After(plain, ex, rs);
    CommitCoherent(s, ex, rs, visit, sweep, rows);
    forall k | k in s'.View() ensures k in plain' {
      AfterAt(s.View(), ex, rs, k);
      AfterAt(plain, ex, rs, k);
    }
    forall k | k in plain' && Live(plain'[k], Later(cutoff, sweep)) ensures k in s'.calls && s'.calls[k] == plain'[k] {
      LiveSurvives(s, plain, cutoff, ex, rs, sweep, k);
    }
  }

  // A step that commits no exchange takes away from what lookups find, and adds nothing.
  lemma OtherStepShrinks(s: Sys, step: Step)
    requires Coherent(s) && Enabled(s, step) && !step.Captured? && !step.Dropped?
    ensures var s' := Apply(s, step);
      && (forall k :: k in s'.View() ==> k in s.View() && s'.View()[k] == s.View()[k])
      && (forall k :: k in s.calls && Live(s.calls[k], StepCutoff(step)) ==> k in s'.calls && s'.calls[k] == s.calls[k])
  {
  }

  lemma StepRefines(s: Sys, plain: Origins, cutoff: Option<int>, step: Step)
    requires Coherent(s) && Enabled(s, step) && Refines(s, plain, cutoff)
    ensures Refines(Apply(s, step), PlainApply(plain, step), Later(cutoff, StepCutoff(step)))
  {
    match step
    case Captured(ex, visit, sweep) => CommitRefines(s, plain, cutoff, ex, ex.results, visit, sweep,
      Batch(ex, s.View()));
    case Dropped(ex, visit, sweep) => CommitRefines(s, plain, cutoff, ex, [], visit, sweep, []);
    case _ => OtherStepShrinks(s, step);
  }

  lemma {:induction false} RunRefinesPlainMap(steps: seq<Step>)
    requires Legal(steps)
    ensures Refines(Run(steps), PlainRun(steps), Cutoff(steps))
  {
    if steps != [] {
      var init := steps[..|steps| - 1];
      RunRefinesPlainMap(init);
      AlwaysCoherent(init);
      StepRefines(Run(init), PlainRun(init), Cutoff(init), steps[|steps| - 1]);
    }
  }

  // Without retention the database is the plain map, and so is what lookups see.
  lemma RunIsPlainMap(steps: seq<Step>)
    requires Legal(steps) && Cutoff(steps) == None
    ensures Run(steps).calls == PlainRun(steps) == Run(steps).View()
  {
    RunRefinesPlainMap(steps);
    AlwaysCoherent(steps);
    RefinesExactly(Run(steps), PlainRun(steps));
  }

  lemma RefinesExactly(s: Sys, plain: Origins)
    requires Coherent(s) && Refines(s, plain, None)
    ensures s.calls == plain == s.View()
  {
    assert forall k :: k in plain ==> k in s.calls && s.calls[k] == plain[k];
    assert forall k :: k in s.calls ==> k in s.View();
  }

  // Whatever was evicted, dropped or restarted before, a capture emits for each result the span the
  // plain map would emit, unless the result's origin has expired.
  lemma {:induction false} SpansArePlain(steps: seq<Step>, ex: Exchange, rs: seq<Result>, j: nat)
    requires Legal(steps) && j < |rs|
    requires var k := ex.Key(rs[j].id); k in PlainRun(steps) ==> Live(PlainRun(steps)[k], Cutoff(steps))
    ensures ResultRows(Run(steps).View(), ex, rs)[j] == ResultRows(PlainRun(steps), ex, rs)[j]
    decreases |rs|
  {
    if j < |rs| - 1 {
      SpansArePlain(steps, ex, rs[..|rs| - 1], j);
    } else {
      RunRefinesPlainMap(steps);
      AlwaysCoherent(steps);
      var k := ex.Key(rs[j].id);
      NotedAt(Run(steps).View(), ex, rs, k);
      NotedAt(PlainRun(steps), ex, rs, k);
    }
  }

  // ----- What the plain map is: the first issue and the first result after it -----

  ghost predicate Issues(step: Step, k: ToolKey) {
    (step.Captured? || step.Dropped?) && IssuesKey(step.ex, k)
  }

  ghost predicate Answers(step: Step, k: ToolKey) {
    step.Captured? && HasResultFor(step.ex.results, step.ex, k)
  }

  ghost predicate FirstIssue(steps: seq<Step>, k: ToolKey, i: int) {
    0 <= i < |steps| && Issues(steps[i], k) && forall h :: 0 <= h < i ==> !Issues(steps[h], k)
  }

  // Step j is the first capture after step i that carries a result for k.
  ghost predicate FirstAnswer(steps: seq<Step>, k: ToolKey, i: int, j: int) {
    0 <= i < j < |steps| && Answers(steps[j], k) && forall h :: i < h < j ==> !Answers(steps[h], k)
  }

  ghost predicate Unanswered(steps: seq<Step>, k: ToolKey, i: int) {
    0 <= i && forall h :: i < h < |steps| ==> !Answers(steps[h], k)
  }

  lemma PlainStepAt(m: Origins, step: Step, k: ToolKey)
    ensures k in PlainApply(m, step) <==> k in m || Issues(step, k)
    ensures k in m ==> PlainApply(m, step)[k] == if Answers(step, k) then NotedIf(true, m[k], step.ex) else m[k]
    ensures k !in m && Issues(step, k) ==> PlainApply(m, step)[k] == NewOrigin(step.ex, step.ex.calls[k.id])
  {
    match step
    case Captured(ex, _, _) => AfterAt(m, ex, ex.results, k);
    case Dropped(ex, _, _) => AfterAt(m, ex, [], k);
    case _ =>
  }

  lemma {:induction false} PlainNeverIssued(steps: seq<Step>, k: ToolKey)
    requires forall h :: 0 <= h < |steps| ==> !Issues(steps[h], k)
    ensures k !in PlainRun(steps)
  {
    if steps != [] {
      PlainNeverIssued(steps[..|steps| - 1], k);
      PlainStepAt(PlainRun(steps[..|steps| - 1]), steps[|steps| - 1], k);
    }
  }

  lemma {:induction false} PlainUnanswered(steps: seq<Step>, k: ToolKey, i: int)
    requires FirstIssue(steps, k, i) && Unanswered(steps, k, i)
    ensures k in PlainRun(steps) && PlainRun(steps)[k] == NewOrigin(steps[i].ex, steps[i].ex.calls[k.id])
  {
    var init := steps[..|steps| - 1];
    PlainStepAt(PlainRun(init), steps[|steps| - 1], k);
    if i == |steps| - 1 {
      PlainNeverIssued(init, k);
    } else {
      assert Issues(init[i], k);
      PlainUnanswered(init, k, i);
      assert !Answers(steps[|steps| - 1], k);
    }
  }

  lemma {:induction false} PlainAnswered(steps: seq<Step>, k: ToolKey, i: int, j: int)
    requires FirstIssue(steps, k, i) && FirstAnswer(steps, k, i, j)
    ensures k in PlainRun(steps)
    ensures PlainRun(steps)[k] == NewOrigin(steps[i].ex, steps[i].ex.calls[k.id])
                                    .(firstResultNs := steps[j].ex.startNs, hasResult := true)
  {
    var init := steps[..|steps| - 1];
    PlainStepAt(PlainRun(init), steps[|steps| - 1], k);
    assert Issues(init[i], k);
    if j == |steps| - 1 {
      assert Unanswered(init, k, i);
      PlainUnanswered(init, k, i);
    } else {
      assert Answers(init[j], k);
      PlainAnswered(init, k, i, j);
    }
  }
}

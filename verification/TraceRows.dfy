// What the trace table says about a trace, in terms of its spans alone (recomputeTraceSQL in
// internal/store/insert.go).
module TraceRows {
  import opened Prelude
  import opened Seqs
  import opened Order
  import opened TraceStore
  import opened TraceView

  lemma TimeIsPreorder()
    ensures Preorder(TimeLeq)
  {
    forall a, b ensures TimeLeq(a, b) || TimeLeq(b, a) {
      StrTotal(a.spanId, b.spanId);
    }
    forall a, b, c | TimeLeq(a, b) && TimeLeq(b, c) ensures TimeLeq(a, c) {
      if a.startNs == b.startNs == c.startNs {
        StrTransitive(a.spanId, b.spanId, c.spanId);
      }
    }
  }

  lemma RootIsPreorder()
    ensures Preorder(RootLeq)
  {
    TimeIsPreorder();
  }

  // ----- Name and service -----

  // No span of the trace precedes s: one without parent comes before one with, then the earlier start
  // counts, then the smaller id.
  ghost predicate IsRoot(rows: seq<Span>, s: Span) {
    && s in rows
    && forall other :: other in rows ==>
         && (other.parentId == "" ==> s.parentId == "")
         && ((other.parentId == "" <==> s.parentId == "") ==> Earlier(s, other))
  }

  ghost predicate Earlier(a: Span, b: Span) {
    a.startNs < b.startNs || (a.startNs == b.startNs && StrLeq(a.spanId, b.spanId))
  }

  // The trace takes name and service from a span that no other precedes.
  lemma RootChoice(rows: seq<Span>)
    requires rows != []
    ensures exists s :: IsRoot(rows, s) && Recompute(rows).name == s.name && Recompute(rows).service == s.service
  {
    var root := Sort(RootLeq, rows)[0];
    SortMembers(RootLeq, rows);
    RootIsPreorder();
    SortedFirst(RootLeq, rows);
    assert IsRoot(rows, root);
  }

  lemma SortedFirst<T(!new)>(leq: (T, T) -> bool, xs: seq<T>)
    requires xs != [] && Preorder(leq)
    ensures |Sort(leq, xs)| == |xs| && Sort(leq, xs)[0] in xs
    ensures forall x :: x in xs ==> leq(Sort(leq, xs)[0], x)
  {
    var sorted := Sort(leq, xs);
    SortSorts(leq, xs);
    SortMembers(leq, xs);
    assert sorted[0] in sorted;
    forall x | x in xs ensures leq(sorted[0], x) {
      var i :| 0 <= i < |sorted| && sorted[i] == x;
      assert leq(x, x);
    }
  }

  // ----- Bounds, counts and duration -----

  lemma {:induction false} FilterCounts<T(!new)>(p: T -> bool, xs: seq<T>, at: set<int>)
    requires forall i :: i in at <==> 0 <= i < |xs| && p(xs[i])
    ensures |Filter(p, xs)| == |at|
  {
    if xs == [] {
      assert forall i :: i !in at;
    } else {
      var init, last := xs[..|xs| - 1], |xs| - 1;
      FilterCounts(p, init, at - {last});
      FilterAppend(p, init, [xs[last]]);
      assert xs == init + [xs[last]];
    }
  }

  // How many spans, how many LLM calls, and how long.
  lemma Counts(rows: seq<Span>)
    requires rows != []
    ensures Recompute(rows).spanCount == |rows|
    ensures Recompute(rows).llmCount == |set i | 0 <= i < |rows| && rows[i].kind.Llm?|
    ensures Recompute(rows).durationMs == (Recompute(rows).endNs - Recompute(rows).startNs) as real / 1_000_000.0
  {
    FilterCounts(IsLlm(), rows, set i | 0 <= i < |rows| && rows[i].kind.Llm?);
  }

  // The spans of a trace are those rows of the table that belong to it.
  lemma SpansCounted(rows: Table, t: string)
    ensures |SpansOf(rows, t)| == |set i | 0 <= i < |rows| && rows[i].span.traceId == t|
  {
    FilterCounts(InTrace(t), Spans(rows), set i | 0 <= i < |rows| && rows[i].span.traceId == t);
  }

  lemma Bounds(rows: seq<Span>)
    requires rows != []
    ensures exists s :: s in rows && s.startNs == Recompute(rows).startNs
    ensures exists s :: s in rows && s.endNs == Recompute(rows).endNs
    ensures forall s :: s in rows ==> Recompute(rows).startNs <= s.startNs && s.endNs <= Recompute(rows).endNs
    ensures Recompute(rows).hasError <==> exists s :: s in rows && s.statusCode == 2
  {
    StartBound(rows);
    EndBound(rows);
    ErrorIff(rows);
  }

  // ----- Totals -----

  // Only these spans count towards tokens and cost.
  predicate IsCall(s: Span) {
    s.kind.Llm? || s.kind.Embedding?
  }

  ghost predicate NoCalls(rows: seq<Span>) {
    forall s :: s in rows ==> !IsCall(s)
  }

  // A total is NULL exactly when there is nothing to count or a counted span lacks the value.
  lemma NullPropagates(rows: seq<Span>)
    requires rows != []
    ensures Recompute(rows).inputTokens.None? <==> Unknown(rows, InputTokens())
    ensures Recompute(rows).outputTokens.None? <==> Unknown(rows, OutputTokens())
    ensures Recompute(rows).cost.None? <==> Unknown(rows, CostOf())
  {
    UnknownIff(rows, InputTokens());
    UnknownIff(rows, OutputTokens());
    UnknownIff(rows, CostOf());
  }

  ghost predicate Unknown<T(!new)>(rows: seq<Span>, f: Span -> Option<T>) {
    NoCalls(rows) || (exists s :: s in rows && IsCall(s) && f(s).None?)
  }

  lemma UnknownIff<T(!new)>(rows: seq<Span>, f: Span -> Option<T>)
    ensures !Known(rows, f) <==> Unknown(rows, f)
  {
    if Known(rows, f) {
      var i :| 0 <= i < |rows| && Counted(rows[i]);
      assert rows[i] in rows;
      forall s | s in rows && Counted(s) ensures f(s).Some? {
        var j :| 0 <= j < |rows| && rows[j] == s;
        assert f(rows[j]).Some?;
      }
    } else if i :| 0 <= i < |rows| && Counted(rows[i]) {
      var j :| 0 <= j < |rows| && Counted(rows[j]) && !f(rows[j]).Some?;
      assert rows[i] in rows && rows[j] in rows;
    } else {
      assert forall s :: s in rows ==> exists i :: 0 <= i < |rows| && rows[i] == s;
    }
  }

  // The total of one span is its value, if it counts.
  lemma TotalsOfOne(s: Span)
    ensures Recompute([s]).inputTokens == if IsCall(s) then s.inputTokens else None
    ensures Recompute([s]).outputTokens == if IsCall(s) then s.outputTokens else None
    ensures Recompute([s]).cost == if IsCall(s) then s.cost else None
  {
    OneTotal(s, InputTokens());
    OneTotal(s, OutputTokens());
    OneCost(s);
  }

  lemma OneTotal(s: Span, f: Span -> Option<int>)
    ensures TokenTotal([s], f) == if IsCall(s) then f(s) else None
  {
    assert s in [s] && [s][0] == s && [s][1..] == [];
    UnknownIff([s], f);
    if IsCall(s) && f(s).Some? {
      assert Known([s], f) && SumInt([s], f) == f(s).value;
    } else {
      assert Unknown([s], f);
    }
  }

  lemma OneCost(s: Span)
    ensures CostTotal([s]) == if IsCall(s) then s.cost else None
  {
    assert s in [s] && [s][0] == s && [s][1..] == [];
    UnknownIff([s], CostOf());
    if IsCall(s) && s.cost.Some? {
      assert Known([s], CostOf()) && SumCost([s]) == s.cost.value;
    } else {
      assert Unknown([s], CostOf());
    }
  }

  // Totals add up: what counts in neither half adds nothing, and a missing value stays missing.
  ghost predicate AddsUp(a: seq<Span>, x: Option<int>, b: seq<Span>, y: Option<int>, total: Option<int>) {
    total == if NoCalls(a) then y else if NoCalls(b) then x
             else if x.Some? && y.Some? then Some(x.value + y.value) else None
  }

  ghost predicate CostAddsUp(a: seq<Span>, x: Option<real>, b: seq<Span>, y: Option<real>, total: Option<real>) {
    total == if NoCalls(a) then y else if NoCalls(b) then x
             else if x.Some? && y.Some? then Some(x.value + y.value) else None
  }

  lemma {:induction false} SumAppend(a: seq<Span>, b: seq<Span>, f: Span -> Option<int>)
    ensures SumInt(a + b, f) == SumInt(a, f) + SumInt(b, f)
  {
    if a == [] {
      assert a + b == b;
    } else {
      SumAppend(a[1..], b, f);
      assert (a + b)[1..] == a[1..] + b;
    }
  }

  lemma {:induction false} SumCostAppend(a: seq<Span>, b: seq<Span>)
    ensures SumCost(a + b) == SumCost(a) + SumCost(b)
  {
    if a == [] {
      assert a + b == b;
    } else {
      SumCostAppend(a[1..], b);
      assert (a + b)[1..] == a[1..] + b;
    }
  }

  lemma {:induction false} SumOfNone(rows: seq<Span>, f: Span -> Option<int>)
    requires NoCalls(rows)
    ensures SumInt(rows, f) == 0 && SumCost(rows) == 0.0
  {
    if rows != [] {
      assert rows[0] in rows;
      SumOfNone(rows[1..], f);
    }
  }

  lemma UnknownTogether<T(!new)>(a: seq<Span>, b: seq<Span>, f: Span -> Option<T>)
    ensures Known(a + b, f) <==>
      (NoCalls(a) || Known(a, f)) && (NoCalls(b) || Known(b, f)) && !(NoCalls(a) && NoCalls(b))
  {
    UnknownIff(a, f);
    UnknownIff(b, f);
    UnknownIff(a + b, f);
  }

  lemma TotalsOfParts(a: seq<Span>, b: seq<Span>)
    requires a != [] && b != []
    ensures AddsUp(a, Recompute(a).inputTokens, b, Recompute(b).inputTokens, Recompute(a + b).inputTokens)
    ensures AddsUp(a, Recompute(a).outputTokens, b, Recompute(b).outputTokens, Recompute(a + b).outputTokens)
    ensures CostAddsUp(a, Recompute(a).cost, b, Recompute(b).cost, Recompute(a + b).cost)
  {
    TotalOfParts(a, b, InputTokens());
    TotalOfParts(a, b, OutputTokens());
    CostOfParts(a, b);
  }

  lemma TotalOfParts(a: seq<Span>, b: seq<Span>, f: Span -> Option<int>)
    ensures AddsUp(a, TokenTotal(a, f), b, TokenTotal(b, f), TokenTotal(a + b, f))
  {
    SumAppend(a, b, f);
    UnknownTogether(a, b, f);
    UnknownIff(a, f);
    UnknownIff(b, f);
    if NoCalls(a) {
      SumOfNone(a, f);
    }
    if NoCalls(b) {
      SumOfNone(b, f);
    }
  }

  lemma CostOfParts(a: seq<Span>, b: seq<Span>)
    ensures CostAddsUp(a, CostTotal(a), b, CostTotal(b), CostTotal(a + b))
  {
    SumCostAppend(a, b);
    UnknownTogether(a, b, CostOf());
    UnknownIff(a, CostOf());
    UnknownIff(b, CostOf());
    if NoCalls(a) {
      SumOfNone(a, InputTokens());
    }
    if NoCalls(b) {
      SumOfNone(b, InputTokens());
    }
  }

  // ----- Session, user and models -----

  // The first text in time order that is not empty.
  ghost predicate FirstIn(rows: seq<Span>, f: Span -> string, s: Span) {
    s in rows && f(s) != "" && forall other :: other in rows && f(other) != "" ==> Earlier(s, other)
  }

  ghost predicate IsFirst(rows: seq<Span>, f: Span -> string, text: string) {
    if exists s :: s in rows && f(s) != "" then exists s :: FirstIn(rows, f, s) && text == f(s) else text == ""
  }

  ghost predicate FirstAt(rows: seq<Span>, f: Span -> string, i: int) {
    0 <= i < |rows| && f(rows[i]) != "" && forall j :: 0 <= j < i ==> f(rows[j]) == ""
  }

  lemma {:induction false} FirstTextAt(rows: seq<Span>, f: Span -> string, i: int)
    requires FirstAt(rows, f, i)
    ensures FirstText(rows, f) == f(rows[i])
    decreases i
  {
    if i > 0 {
      var rest := rows[1..];
      assert forall j :: 0 < j < |rows| ==> rows[j] == rest[j - 1];
      FirstTextAt(rest, f, i - 1);
    }
  }

  lemma {:induction false} FirstTextOfNone(rows: seq<Span>, f: Span -> string)
    requires forall s :: s in rows ==> f(s) == ""
    ensures FirstText(rows, f) == ""
  {
    if rows != [] {
      assert rows[0] in rows;
      FirstTextOfNone(rows[1..], f);
    }
  }

  lemma {:induction false} SomeFirst(rows: seq<Span>, f: Span -> string, k: nat) returns (i: int)
    requires k < |rows| && f(rows[k]) != ""
    ensures FirstAt(rows, f, i)
  {
    if j :| 0 <= j < k && f(rows[j]) != "" {
      i := SomeFirst(rows, f, j);
    } else {
      i := k;
    }
  }

  lemma FirstByTime(rows: seq<Span>, f: Span -> string)
    ensures IsFirst(rows, f, FirstText(Sort(TimeLeq, rows), f))
  {
    var sorted := Sort(TimeLeq, rows);
    TimeIsPreorder();
    SortSorts(TimeLeq, rows);
    SortMembers(TimeLeq, rows);
    if s :| s in rows && f(s) != "" {
      assert s in sorted;
      var k :| 0 <= k < |sorted| && sorted[k] == s;
      var i := SomeFirst(sorted, f, k);
      FirstTextAt(sorted, f, i);
      FirstOfSorted(rows, sorted, f, i);
    } else {
      FirstTextOfNone(sorted, f);
    }
  }

  lemma FirstOfSorted(rows: seq<Span>, sorted: seq<Span>, f: Span -> string, i: int)
    requires Preorder(TimeLeq) && Sorted(TimeLeq, sorted) && forall s :: s in sorted <==> s in rows
    requires FirstAt(sorted, f, i)
    ensures FirstIn(rows, f, sorted[i])
  {
    assert sorted[i] in sorted;
    forall other | other in rows && f(other) != "" ensures Earlier(sorted[i], other) {
      assert other in sorted;
      var j :| 0 <= j < |sorted| && sorted[j] == other;
      assert TimeLeq(sorted[i], sorted[i]);
    }
  }

  // Session and user are those of the first span that has one.
  lemma SessionAndUser(rows: seq<Span>)
    requires rows != []
    ensures IsFirst(rows, (s: Span) => s.session, Recompute(rows).session)
    ensures IsFirst(rows, (s: Span) => s.user, Recompute(rows).user)
  {
    FirstByTime(rows, SessionOf());
    FirstByTime(rows, UserOf());
    assert forall s: Span :: SessionOf()(s) == s.session;
    SameFirst(rows, SessionOf(), (s: Span) => s.session, Recompute(rows).session);
    SameFirst(rows, UserOf(), (s: Span) => s.user, Recompute(rows).user);
  }

  lemma SameFirst(rows: seq<Span>, f: Span -> string, g: Span -> string, text: string)
    requires IsFirst(rows, f, text) && forall s :: f(s) == g(s)
    ensures IsFirst(rows, g, text)
  {
    if s :| FirstIn(rows, f, s) && text == f(s) {
      assert FirstIn(rows, g, s);
    }
  }

  // ----- Models -----

  predicate Uses(s: Span, model: string) {
    model == if s.responseModel != "" then s.responseModel else s.requestModel
  }

  // The first span in time that uses the model.
  ghost predicate FirstUser(rows: seq<Span>, model: string, s: Span) {
    s in rows && Uses(s, model) && forall other :: other in rows && Uses(other, model) ==> Earlier(s, other)
  }

  // Each model once, a model before another whose first use comes later.
  ghost predicate ListsModels(rows: seq<Span>, list: seq<string>) {
    && Distinct(list)
    && (forall m :: m in list <==> m != "" && exists s :: s in rows && Uses(s, m))
    && (forall a, b, s, t :: 0 <= a < b < |list| && FirstUser(rows, list[a], s) && FirstUser(rows, list[b], t) ==>
          Earlier(s, t))
  }

  ghost predicate FirstUse(rows: seq<Span>, model: string, i: int) {
    0 <= i < |rows| && ModelOf(rows[i]) == model && forall j :: 0 <= j < i ==> ModelOf(rows[j]) != model
  }

  ghost predicate InOrder(rows: seq<Span>, list: seq<string>) {
    && Distinct(list)
    && (forall m :: m in list <==> m != "" && exists i :: 0 <= i < |rows| && ModelOf(rows[i]) == m)
    && (forall a, b, i, j :: 0 <= a < b < |list| && FirstUse(rows, list[a], i) && FirstUse(rows, list[b], j) ==> i < j)
  }

  lemma {:induction false} ListInOrder(rows: seq<Span>)
    ensures InOrder(rows, ModelList(rows))
  {
    if rows != [] {
      var n := |rows| - 1;
      var init, model, list := rows[..n], ModelOf(rows[n]), ModelList(rows[..n]);
      ListInOrder(init);
      ModelStep(rows, list);
    }
  }

  lemma ModelStep(rows: seq<Span>, list: seq<string>)
    requires rows != [] && InOrder(rows[..|rows| - 1], list)
    ensures var model := ModelOf(rows[|rows| - 1]);
      InOrder(rows, if model == "" || model in list then list else list + [model])
  {
    var n := |rows| - 1;
    var init, model := rows[..n], ModelOf(rows[n]);
    var list' := if model == "" || model in list then list else list + [model];
    forall m ensures m in list' <==> m != "" && exists i :: 0 <= i < |rows| && ModelOf(rows[i]) == m {
      if i :| 0 <= i < |rows| && ModelOf(rows[i]) == m {
        assert i < n ==> ModelOf(init[i]) == m;
      }
      if m in list {
        var i :| 0 <= i < n && ModelOf(init[i]) == m;
        assert ModelOf(rows[i]) == m;
      }
    }
    forall a, b, i, j | 0 <= a < b < |list'| && FirstUse(rows, list'[a], i)
      && FirstUse(rows, list'[b], j) ensures i < j {
      assert list'[a] in list;
      var h :| 0 <= h < n && ModelOf(init[h]) == list'[a];
      assert ModelOf(rows[h]) == list'[a];
      assert FirstUse(init, list'[a], i);
      if j < n {
        assert FirstUse(init, list'[b], j);
        assert list'[b] in list by {
          assert ModelOf(init[j]) == list'[b];
        }
      }
    }
  }

  // The models of a trace, joined by commas.
  lemma ModelsInOrder(rows: seq<Span>)
    requires rows != []
    ensures exists list :: ListsModels(rows, list) && Recompute(rows).models == Join(list)
  {
    var sorted := Sort(TimeLeq, rows);
    TimeIsPreorder();
    SortSorts(TimeLeq, rows);
    SortMembers(TimeLeq, rows);
    ListInOrder(sorted);
    InTimeOrder(rows, sorted, ModelList(sorted));
  }

  lemma InTimeOrder(rows: seq<Span>, sorted: seq<Span>, list: seq<string>)
    requires Preorder(TimeLeq) && Sorted(TimeLeq, sorted) && forall s :: s in sorted <==> s in rows
    requires InOrder(sorted, list)
    ensures ListsModels(rows, list)
  {
    forall m ensures m in list <==> m != "" && exists s :: s in rows && Uses(s, m) {
      if i :| 0 <= i < |sorted| && ModelOf(sorted[i]) == m {
        assert sorted[i] in sorted;
      }
      if s :| s in rows && Uses(s, m) {
        assert s in sorted;
      }
    }
    forall a, b, s, t | 0 <= a < b < |list| && FirstUser(rows, list[a], s) && FirstUser(rows, list[b], t)
      ensures Earlier(s, t)
    {
      var i := UseOf(sorted, list[a], s);
      var j := UseOf(sorted, list[b], t);
      assert i < j && sorted[i] in sorted && sorted[j] in sorted;
      assert TimeLeq(s, sorted[i]) && TimeLeq(sorted[i], sorted[j]) && TimeLeq(s, sorted[j]);
    }
  }

  lemma UseOf(sorted: seq<Span>, model: string, s: Span) returns (i: int)
    requires s in sorted && Uses(s, model)
    ensures FirstUse(sorted, model, i)
  {
    var k :| 0 <= k < |sorted| && sorted[k] == s;
    i := FirstUseBefore(sorted, model, k);
  }

  lemma {:induction false} FirstUseBefore(sorted: seq<Span>, model: string, k: nat) returns (i: int)
    requires k < |sorted| && ModelOf(sorted[k]) == model
    ensures FirstUse(sorted, model, i)
  {
    if j :| 0 <= j < k && ModelOf(sorted[j]) == model {
      i := FirstUseBefore(sorted, model, j);
    } else {
      i := k;
    }
  }

  // Read from its end, the list grows by a comma and a name.
  lemma {:induction false} JoinGrows(names: seq<string>, name: string)
    ensures Join(names + [name]) == if names == [] then name else Join(names) + "," + name
  {
    if |names| == 1 {
      assert (names + [name])[1..] == [name];
    } else if names != [] {
      JoinGrows(names[1..], name);
      assert (names + [name])[1..] == names[1..] + [name];
    }
  }

  // ----- The order of the rows -----

  ghost predicate Adds(g: seq<Span> -> real, x: seq<Span>, y: seq<Span>) {
    g(x + y) == g(x) + g(y)
  }

  lemma {:induction false} AdditiveIsOrderFree(g: seq<Span> -> real, a: seq<Span>, b: seq<Span>)
    requires forall x, y :: Adds(g, x, y)
    requires multiset(a) == multiset(b)
    ensures g(a) == g(b)
  {
    if a == [] {
      assert |multiset(b)| == 0;
      assert b == a;
    } else {
      var i := WithoutHead(a, b);
      var head, before, after := [a[0]], b[..i], b[i + 1..];
      AdditiveIsOrderFree(g, a[1..], before + after);
      assert a == head + a[1..] && b == before + (head + after);
      assert Adds(g, head, a[1..]) && Adds(g, before, head + after) && Adds(g, head, after) && Adds(g, before, after);
    }
  }

  lemma WithoutHead(a: seq<Span>, b: seq<Span>) returns (i: int)
    requires a != [] && multiset(a) == multiset(b)
    ensures 0 <= i < |b| && b[i] == a[0] && multiset(a[1..]) == multiset(b[..i] + b[i + 1..])
  {
    assert a[0] in multiset(b);
    i :| 0 <= i < |b| && b[i] == a[0];
    assert a == [a[0]] + a[1..] && b == b[..i] + [a[0]] + b[i + 1..];
    assert multiset(b[..i] + b[i + 1..]) == multiset(b) - multiset{a[0]};
    assert multiset(a[1..]) == multiset(a) - multiset{a[0]};
  }

  lemma TotalsOrderFree(a: seq<Span>, b: seq<Span>)
    requires multiset(a) == multiset(b)
    ensures TokenTotal(a, InputTokens()) == TokenTotal(b, InputTokens())
    ensures TokenTotal(a, OutputTokens()) == TokenTotal(b, OutputTokens())
    ensures CostTotal(a) == CostTotal(b)
  {
    MembersOrderFree(a, b);
    KnownOrderFree(a, b, InputTokens());
    KnownOrderFree(a, b, OutputTokens());
    KnownOrderFree(a, b, CostOf());
    SumOrderFree(a, b, InputTokens());
    SumOrderFree(a, b, OutputTokens());
    var g := (xs: seq<Span>) => SumCost(xs);
    forall x, y ensures Adds(g, x, y) {
      SumCostAppend(x, y);
    }
    AdditiveIsOrderFree(g, a, b);
  }

  lemma SumOrderFree(a: seq<Span>, b: seq<Span>, f: Span -> Option<int>)
    requires multiset(a) == multiset(b)
    ensures SumInt(a, f) == SumInt(b, f)
  {
    var g := (xs: seq<Span>) => SumInt(xs, f) as real;
    forall x, y ensures Adds(g, x, y) {
      SumAppend(x, y, f);
    }
    AdditiveIsOrderFree(g, a, b);
  }

  lemma FilterOrderFree(p: Span -> bool, a: seq<Span>, b: seq<Span>)
    requires multiset(a) == multiset(b)
    ensures |Filter(p, a)| == |Filter(p, b)|
  {
    var g := (xs: seq<Span>) => |Filter(p, xs)| as real;
    forall x, y ensures Adds(g, x, y) {
      FilterAppend(p, x, y);
    }
    AdditiveIsOrderFree(g, a, b);
  }

  lemma MembersOrderFree(a: seq<Span>, b: seq<Span>)
    requires multiset(a) == multiset(b)
    ensures |a| == |b| && forall s :: s in a <==> s in b
  {
    assert |a| == |multiset(a)| && |b| == |multiset(b)|;
    assert forall s :: s in a <==> s in multiset(a);
    assert forall s :: s in b <==> s in multiset(b);
  }

  lemma KnownOrderFree<T(!new)>(a: seq<Span>, b: seq<Span>, f: Span -> Option<T>)
    requires forall s :: s in a <==> s in b
    ensures Known(a, f) <==> Known(b, f)
  {
    UnknownIff(a, f);
    UnknownIff(b, f);
  }

  lemma SortsOrderFree(a: seq<Span>, b: seq<Span>)
    requires multiset(a) == multiset(b)
    requires forall s, t :: s in a && t in a && s.spanId == t.spanId ==> s == t
    ensures Sort(TimeLeq, a) == Sort(TimeLeq, b) && Sort(RootLeq, a) == Sort(RootLeq, b)
  {
    TimeIsPreorder();
    RootIsPreorder();
    forall s, t | s in a && t in a && TimeLeq(s, t) && TimeLeq(t, s) ensures s == t {
      StrTotal(s.spanId, t.spanId);
    }
    SortIsCanonical(TimeLeq, a, b);
    SortIsCanonical(RootLeq, a, b);
  }

  // The row of a trace does not depend on the order in which its spans are stored, as their ids differ.
  lemma RowOrderDoesNotMatter(a: seq<Span>, b: seq<Span>)
    requires a != [] && multiset(a) == multiset(b)
    requires forall s, t :: s in a && t in a && s.spanId == t.spanId ==> s == t
    ensures b != [] && Recompute(a) == Recompute(b)
  {
    MembersOrderFree(a, b);
    SortsOrderFree(a, b);
    TotalsOrderFree(a, b);
    FilterOrderFree(IsLlm(), a, b);
    BoundsOrderFree(a, b);
  }

  lemma BoundsOrderFree(a: seq<Span>, b: seq<Span>)
    requires a != [] && b != [] && forall s :: s in a <==> s in b
    ensures MinStart(a) == MinStart(b) && MaxEnd(a) == MaxEnd(b)
    ensures HasError(a) == HasError(b)
  {
    StartBound(a);
    StartBound(b);
    EndBound(a);
    EndBound(b);
    ErrorIff(a);
    ErrorIff(b);
  }

  lemma ErrorIff(rows: seq<Span>)
    ensures HasError(rows) <==> exists s :: s in rows && s.statusCode == 2
  {
    if HasError(rows) {
      var i :| 0 <= i < |rows| && rows[i].statusCode == 2;
      assert rows[i] in rows;
    }
  }
}

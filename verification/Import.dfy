// The NDJSON import (internal/web/export.go): batching by count and bytes, and when it succeeds.
module Import {
  import opened Prelude
  import opened TraceStore
  import opened TraceView
  import opened SpanStore
  import opened Pipeline

  const BATCH_SPANS := 500
  const BATCH_BYTES := 33554432 // 32 MiB

  // A line of the body: blank, undecodable, or one span with the length of its text.
  datatype Line = Blank | Bad | Record(span: Span, bytes: nat)

  datatype Answer = Imported(count: nat) | Rejected(line: nat) | Failed

  predicate HasIdentity(s: Span) {
    s.traceId != "" && s.spanId != "" && s.startNs != 0 && s.endNs != 0
  }

  predicate Readable(line: Line) {
    line.Blank? || (line.Record? && HasIdentity(line.span))
  }

  ghost predicate AllReadable(lines: seq<Line>) {
    forall i :: 0 <= i < |lines| ==> Readable(lines[i])
  }

  // The spans of the non-blank lines, in order.
  function Records(lines: seq<Line>): seq<Span> {
    if lines == [] then []
    else Records(lines[..|lines| - 1]) + if lines[|lines| - 1].Record? then [lines[|lines| - 1].span] else []
  }

  // How lines are cut into batches: the full ones, and what is waiting after them.
  datatype Cut = Cut(full: seq<seq<Span>>, rest: seq<Span>, bytes: nat)

  function Queued(cut: Cut, line: Line): Cut {
    if !line.Record? then cut
    else
      var rest, bytes := cut.rest + [line.span], cut.bytes + line.bytes;
      if |rest| == BATCH_SPANS || bytes >= BATCH_BYTES then Cut(cut.full + [rest], [], 0)
        else Cut(cut.full, rest, bytes)
  }

  function Cutting(lines: seq<Line>): Cut {
    if lines == [] then Cut([], [], 0) else Queued(Cutting(lines[..|lines| - 1]), lines[|lines| - 1])
  }

  // Every batch of an import, the last one as large as it happens to be.
  function Batches(lines: seq<Line>): seq<seq<Span>> {
    var cut := Cutting(lines);
    if cut.rest == [] then cut.full else cut.full + [cut.rest]
  }

  function Concat(batches: seq<seq<Span>>): seq<Span> {
    if batches == [] then [] else Concat(batches[..|batches| - 1]) + batches[|batches| - 1]
  }

  lemma ConcatNext(batches: seq<seq<Span>>, batch: seq<Span>)
    ensures Concat(batches + [batch]) == Concat(batches) + batch
  {
    assert (batches + [batch])[..|batches|] == batches;
  }

  lemma {:induction false} CutKeepsAll(lines: seq<Line>)
    ensures Concat(Cutting(lines).full) + Cutting(lines).rest == Records(lines)
  {
    if lines != [] {
      var cut, last := Cutting(lines[..|lines| - 1]), lines[|lines| - 1];
      CutKeepsAll(lines[..|lines| - 1]);
      if last.Record? {
        ConcatNext(cut.full, cut.rest + [last.span]);
        assert Concat(cut.full) + (cut.rest + [last.span]) == (Concat(cut.full) + cut.rest) + [last.span];
      }
    }
  }

  // The batches are the records, in order.
  lemma BatchesKeepAll(lines: seq<Line>)
    ensures Concat(Batches(lines)) == Records(lines)
  {
    CutKeepsAll(lines);
    ConcatNext(Cutting(lines).full, Cutting(lines).rest);
  }

  // ----- How large a batch is -----

  function Bytes(lines: seq<Line>): nat {
    if lines == [] then 0
    else Bytes(lines[..|lines| - 1]) + if lines[|lines| - 1].Record? then lines[|lines| - 1].bytes else 0
  }

  // These lines have not reached a limit.
  predicate Small(lines: seq<Line>) {
    |Records(lines)| < 500 && Bytes(lines) < 33_554_432
  }

  // A batch is made of neighbouring lines, up to the first with which a limit is reached.
  ghost predicate FilledBy(lines: seq<Line>, from: nat, to: nat, batch: seq<Span>) {
    && from < to <= |lines| && Records(lines[from..to]) == batch
    && !Small(lines[from..to]) && Small(lines[from..to - 1])
  }

  ghost predicate Filled(lines: seq<Line>, batch: seq<Span>) {
    exists from: nat, to: nat :: FilledBy(lines, from, to, batch)
  }

  lemma FilledLater(lines: seq<Line>, line: Line, batch: seq<Span>)
    requires Filled(lines, batch)
    ensures Filled(lines + [line], batch)
  {
    var from: nat, to: nat :| FilledBy(lines, from, to, batch);
    assert (lines + [line])[from..to] == lines[from..to] && (lines + [line])[from..to - 1] == lines[from..to - 1];
    assert FilledBy(lines + [line], from, to, batch);
  }

  lemma RecordsNext(lines: seq<Line>, line: Line)
    ensures Records(lines + [line]) == Records(lines) + if line.Record? then [line.span] else []
    ensures Bytes(lines + [line]) == Bytes(lines) + if line.Record? then line.bytes else 0
  {
    assert (lines + [line])[..|lines|] == lines;
  }

  // What waits comes from the lines since the last full batch, and has not reached a limit.
  lemma {:induction false} WaitingIsSmall(lines: seq<Line>) returns (from: nat)
    ensures from <= |lines| && Cutting(lines).rest == Records(lines[from..])
    ensures Cutting(lines).bytes == Bytes(lines[from..]) && Small(lines[from..])
    ensures forall batch :: batch in Cutting(lines).full ==> Filled(lines, batch)
  {
    from := 0;
    if lines != [] {
      var init, line := lines[..|lines| - 1], lines[|lines| - 1];
      SplitLast(lines);
      from := WaitingIsSmall(init);
      RecordsNext(init[from..], line);
      assert lines[from..] == init[from..] + [line];
      forall batch | batch in Cutting(init).full ensures Filled(lines, batch) {
        FilledLater(init, line, batch);
      }
      if line.Record? && !Small(lines[from..]) {
        assert lines[from..|lines|] == lines[from..] && lines[from..|lines| - 1] == init[from..];
        assert FilledBy(lines, from, |lines|, Records(lines[from..]));
        from := |lines|;
      }
    }
  }

  // Every full batch is cut where one of the limits is first reached; the last one reaches none.
  lemma BatchesAreFilled(lines: seq<Line>)
    ensures forall batch :: batch in Cutting(lines).full ==> Filled(lines, batch) && 0 < |batch| <= 500
    ensures |Cutting(lines).rest| < 500
  {
    var from := WaitingIsSmall(lines);
    forall batch | batch in Cutting(lines).full ensures 0 < |batch| <= 500 {
      var from: nat, to: nat :| FilledBy(lines, from, to, batch);
      var some := lines[from..to];
      SplitLast(some);
      assert some[..|some| - 1] == lines[from..to - 1];
      RecordsNext(some[..|some| - 1], some[|some| - 1]);
    }
  }

  lemma CutNext(lines: seq<Line>, i: nat)
    requires i < |lines|
    ensures Cutting(lines[..i + 1]) == Queued(Cutting(lines[..i]), lines[i])
    ensures Records(lines[..i + 1]) == Records(lines[..i]) + if lines[i].Record? then [lines[i].span] else []
    ensures AllReadable(lines[..i + 1]) <==> AllReadable(lines[..i]) && Readable(lines[i])
  {
    assert lines[..i + 1][..i] == lines[..i];
    assert forall j :: 0 <= j < i ==> lines[..i + 1][j] == lines[..i][j];
  }

  // Batches already full stay as they are while more lines are read.
  lemma {:induction false} FullIsPrefix(lines: seq<Line>, i: nat)
    requires i <= |lines|
    ensures Cutting(lines[..i]).full <= Cutting(lines).full
    decreases |lines| - i
  {
    if i == |lines| {
      assert lines[..i] == lines;
    } else {
      CutNext(lines, i);
      FullIsPrefix(lines, i + 1);
    }
  }

  // ----- Committing batches one after the other -----

  function Priced(pricing: Option<Pricing>, batch: seq<Span>): seq<Span> {
    PriceAll(pricing, Pipeline.Import, batch)
  }

  ghost function After(db: Db, pricing: Option<Pricing>, batches: seq<seq<Span>>): Db {
    if batches == [] then db
    else Inserted(After(db, pricing, batches[..|batches| - 1]), Priced(pricing, batches[|batches| - 1]))
  }

  // Every batch is accepted by the database that the batches before it have left.
  ghost predicate InTurn(db: Db, pricing: Option<Pricing>, batches: seq<seq<Span>>)
    decreases |batches|, 1
  {
    batches != [] ==> InTurn(db, pricing, batches[..|batches| - 1]) && LastAccepted(db, pricing, batches)
  }

  ghost predicate LastAccepted(db: Db, pricing: Option<Pricing>, batches: seq<seq<Span>>)
    requires batches != [] && InTurn(db, pricing, batches[..|batches| - 1])
    decreases |batches|, 0
  {
    Insertable(After(db, pricing, batches[..|batches| - 1]), Priced(pricing, batches[|batches| - 1]))
  }

  lemma AfterNext(db: Db, pricing: Option<Pricing>, batches: seq<seq<Span>>, batch: seq<Span>)
    ensures After(db, pricing, batches + [batch]) == Inserted(After(db, pricing, batches), Priced(pricing, batch))
    ensures InTurn(db, pricing, batches + [batch]) <==>
      InTurn(db, pricing, batches) && Insertable(After(db, pricing, batches), Priced(pricing, batch))
  {
    assert (batches + [batch])[..|batches|] == batches;
    if InTurn(db, pricing, batches) {
      assert LastAccepted(db, pricing, batches + [batch]) <==>
        Insertable(After(db, pricing, batches), Priced(pricing, batch));
    }
  }

  lemma {:induction false} InTurnPrefix(db: Db, pricing: Option<Pricing>, batches: seq<seq<Span>>, some: seq<seq<Span>>)
    requires InTurn(db, pricing, batches) && some <= batches
    ensures InTurn(db, pricing, some)
    decreases |batches|
  {
    if some != batches {
      assert some <= batches[..|batches| - 1];
      InTurnPrefix(db, pricing, batches[..|batches| - 1], some);
    }
  }

  lemma PriceAppend(pricing: Option<Pricing>, a: seq<Span>, b: seq<Span>)
    ensures Priced(pricing, a + b) == Priced(pricing, a) + Priced(pricing, b)
  {
  }

  // However the spans are divided, batches accepted in turn leave what one commit of all of them,
  // which is accepted too, would leave.
  lemma {:induction false} BatchesAreOneCommit(db: Db, pricing: Option<Pricing>, batches: seq<seq<Span>>)
    requires Consistent(db) && InTurn(db, pricing, batches)
    ensures Consistent(After(db, pricing, batches))
    ensures Insertable(db, Priced(pricing, Concat(batches)))
    ensures After(db, pricing, batches) == Inserted(db, Priced(pricing, Concat(batches)))
  {
    if batches == [] {
      InsertNothing(db);
      assert Priced(pricing, Concat(batches)) == [];
    } else {
      var init, last := batches[..|batches| - 1], batches[|batches| - 1];
      BatchesAreOneCommit(db, pricing, init);
      PriceAppend(pricing, Concat(init), last);
      SplittingABatch(db, Priced(pricing, Concat(init)), Priced(pricing, last));
      InsertKeepsView(After(db, pricing, init), Priced(pricing, last));
    }
  }

  // ----- The handler -----

  // flush: price and commit the batch; nothing to do for an empty one.
  method Flush(store: Store, pricing: Option<Pricing>, batch: seq<Span>, fault: bool) returns (ok: bool)
    requires store.Valid()
    modifies store`db
    ensures store.Valid()
    ensures ok <==> batch == [] || (Insertable(old(store.db), Priced(pricing, batch)) && !fault)
    ensures store.db == if ok && batch != [] then Inserted(old(store.db), Priced(pricing, batch)) else old(store.db)
  {
    if batch == [] {
      return true;
    }
    var priced := PriceBatch(pricing, Pipeline.Import, batch);
    var costs := store.InsertBatch(priced, fault);
    ok := costs.Some?;
  }

  // The database refuses none of the first n flushes for reasons of its own.
  predicate NoFault(fault: Option<nat>, n: nat) {
    fault.Some? ==> fault.value >= n
  }

  // Having stopped after `done` lines: the batch that was next.
  function NextBatch(lines: seq<Line>, done: nat): seq<Span>
    requires done <= |lines|
    requires done < |lines| ==> |Cutting(lines[..done]).full| < |Cutting(lines[..done + 1]).full|
  {
    if done < |lines| then Cutting(lines[..done + 1]).full[|Cutting(lines[..done]).full|] else Cutting(lines).rest
  }

  ghost predicate FlushRefused(db: Db, pricing: Option<Pricing>, lines: seq<Line>, fault: Option<nat>, done: nat) {
    && done <= |lines|
    && (done < |lines| ==> |Cutting(lines[..done]).full| < |Cutting(lines[..done + 1]).full|)
    && (done == |lines| ==> Cutting(lines).rest != [])
    && var full := Cutting(lines[..done]).full;
       fault == Some(|full|) || !Insertable(After(db, pricing, full), Priced(pricing, NextBatch(lines, done)))
  }

  // When an import succeeds.
  ghost predicate Imports(db: Db, pricing: Option<Pricing>, lines: seq<Line>) {
    AllReadable(lines) && InTurn(db, pricing, Batches(lines))
  }

  lemma RefusedIsNotInTurn(db: Db, pricing: Option<Pricing>, lines: seq<Line>, fault: Option<nat>, done: nat)
    requires FlushRefused(db, pricing, lines, fault, done)
    ensures !(InTurn(db, pricing, Batches(lines)) && NoFault(fault, |Batches(lines)|))
  {
    var full, next := Cutting(lines[..done]).full, NextBatch(lines, done);
    RefusedIsABatch(lines, done);
    AfterNext(db, pricing, full, next);
    if InTurn(db, pricing, Batches(lines)) {
      InTurnPrefix(db, pricing, Batches(lines), full + [next]);
    }
  }

  lemma RefusedIsABatch(lines: seq<Line>, done: nat)
    requires done <= |lines|
    requires done < |lines| ==> |Cutting(lines[..done]).full| < |Cutting(lines[..done + 1]).full|
    requires done == |lines| ==> Cutting(lines).rest != []
    ensures Cutting(lines[..done]).full + [NextBatch(lines, done)] <= Batches(lines)
  {
    if done < |lines| {
      CutNext(lines, done);
      FullIsPrefix(lines, done + 1);
    } else {
      assert lines[..done] == lines;
    }
  }

  // The lines read so far: their full batches are committed, the rest is waiting.
  ghost predicate Reading(start: Db, db: Db, pricing: Option<Pricing>, lines: seq<Line>, fault: Option<nat>) {
    var full := Cutting(lines).full;
    AllReadable(lines) && InTurn(start, pricing, full) && db == After(start, pricing, full) && NoFault(fault, |full|)
  }

  // What the loop carries along: the waiting batch with its size, and what has been counted.
  datatype Progress = Progress(batch: seq<Span>, batchBytes: nat, count: nat, flushes: nat)

  function ProgressOf(lines: seq<Line>): Progress {
    var cut := Cutting(lines);
    Progress(cut.rest, cut.bytes, |Concat(cut.full)|, |cut.full|)
  }

  lemma ReadNotFull(start: Db, db: Db, pricing: Option<Pricing>, lines: seq<Line>, fault: Option<nat>, i: nat)
    requires i < |lines| && Readable(lines[i]) && Reading(start, db, pricing, lines[..i], fault)
    requires Cutting(lines[..i + 1]).full == Cutting(lines[..i]).full
    ensures Reading(start, db, pricing, lines[..i + 1], fault)
  {
    CutNext(lines, i);
  }

  lemma ReadFull(start: Db, db: Db, pricing: Option<Pricing>, lines: seq<Line>, fault: Option<nat>, i: nat,
                 batch: seq<Span>)
    requires i < |lines| && Readable(lines[i]) && Reading(start, db, pricing, lines[..i], fault)
    requires Cutting(lines[..i + 1]).full == Cutting(lines[..i]).full + [batch]
    ensures NextBatch(lines, i) == batch
    ensures var flush := fault == Some(|Cutting(lines[..i]).full|);
      if Insertable(db, Priced(pricing, batch)) && !flush then
        Reading(start, Inserted(db, Priced(pricing, batch)), pricing, lines[..i + 1], fault)
      else FlushRefused(start, pricing, lines, fault, i)
  {
    CutNext(lines, i);
    AfterNext(start, pricing, Cutting(lines[..i]).full, batch);
  }

  // The loop body for a readable line: queue its span, and flush a full batch.
  method Take(store: Store, pricing: Option<Pricing>, lines: seq<Line>, i: nat, p: Progress, fault: Option<nat>,
              ghost start: Db)
    returns (ok: bool, p': Progress)
    requires store.Valid() && i < |lines| && Readable(lines[i])
    requires Reading(start, store.db, pricing, lines[..i], fault) && p == ProgressOf(lines[..i])
    modifies store`db
    ensures store.Valid()
    ensures ok ==> Reading(start, store.db, pricing, lines[..i + 1], fault) && p' == ProgressOf(lines[..i + 1])
    ensures !ok ==> FlushRefused(start, pricing, lines, fault, i) && store.db == old(store.db)
  {
    CutNext(lines, i);
    ok, p' := true, p;
    if lines[i].Blank? {
      ReadNotFull(start, store.db, pricing, lines, fault, i);
      return;
    }
    p' := p.(batch := p.batch + [lines[i].span], batchBytes := p.batchBytes + lines[i].bytes);
    if |p'.batch| == BATCH_SPANS || p'.batchBytes >= BATCH_BYTES {
      ReadFull(start, store.db, pricing, lines, fault, i, p'.batch);
      ConcatNext(Cutting(lines[..i]).full, p'.batch);
      ok := Flush(store, pricing, p'.batch, fault == Some(p.flushes));
      p' := Progress([], 0, p.count + |p'.batch|, p.flushes + 1);
    } else {
      ReadNotFull(start, store.db, pricing, lines, fault, i);
    }
  }

  ghost predicate AllCommitted(start: Db, db: Db, pricing: Option<Pricing>, lines: seq<Line>, fault: Option<nat>) {
    InTurn(start, pricing, Batches(lines)) && NoFault(fault, |Batches(lines)|)
      && db == After(start, pricing, Batches(lines))
  }

  lemma RestAccepted(start: Db, db: Db, pricing: Option<Pricing>, lines: seq<Line>, fault: Option<nat>)
    requires Reading(start, db, pricing, lines, fault) && Cutting(lines).rest != []
    requires Insertable(db, Priced(pricing, Cutting(lines).rest)) && fault != Some(|Cutting(lines).full|)
    ensures AllCommitted(start, Inserted(db, Priced(pricing, Cutting(lines).rest)), pricing, lines, fault)
  {
    OneMoreCommitted(start, db, pricing, Cutting(lines).full, Cutting(lines).rest, fault);
  }

  lemma OneMoreCommitted(start: Db, db: Db, pricing: Option<Pricing>, full: seq<seq<Span>>, batch: seq<Span>,
                         fault: Option<nat>)
    requires InTurn(start, pricing, full) && db == After(start, pricing, full) && NoFault(fault, |full|)
    requires Insertable(db, Priced(pricing, batch)) && fault != Some(|full|)
    ensures InTurn(start, pricing, full + [batch]) && NoFault(fault, |full| + 1)
    ensures After(start, pricing, full + [batch]) == Inserted(db, Priced(pricing, batch))
  {
    AfterNext(start, pricing, full, batch);
  }

  lemma RestRefused(start: Db, db: Db, pricing: Option<Pricing>, lines: seq<Line>, fault: Option<nat>)
    requires Reading(start, db, pricing, lines, fault) && Cutting(lines).rest != []
    requires !Insertable(db, Priced(pricing, Cutting(lines).rest)) || fault == Some(|Cutting(lines).full|)
    ensures FlushRefused(start, pricing, lines, fault, |lines|)
  {
    assert lines[..|lines|] == lines;
  }

  lemma RestFlushed(start: Db, before: Db, db: Db, pricing: Option<Pricing>, lines: seq<Line>, fault: Option<nat>,
                    ok: bool)
    requires Reading(start, before, pricing, lines, fault)
    requires var cut := Cutting(lines); var rest := Priced(pricing, cut.rest);
      && (ok <==> cut.rest == [] || (Insertable(before, rest) && fault != Some(|cut.full|)))
      && db == if ok && cut.rest != [] then Inserted(before, rest) else before
    ensures if ok then AllCommitted(start, db, pricing, lines, fault)
      else FlushRefused(start, pricing, lines, fault, |lines|)
  {
    if Cutting(lines).rest != [] {
      if ok {
        RestAccepted(start, before, pricing, lines, fault);
      } else {
        RestRefused(start, before, pricing, lines, fault);
      }
    }
  }

  // The flush after the last line.
  method FlushRest(store: Store, pricing: Option<Pricing>, lines: seq<Line>, p: Progress, fault: Option<nat>,
                   ghost start: Db)
    returns (answer: Answer)
    requires store.Valid() && Reading(start, store.db, pricing, lines, fault) && p == ProgressOf(lines)
    modifies store`db
    ensures store.Valid() && (answer == Failed || answer == Imported(|Records(lines)|))
    ensures answer.Imported? ==> AllCommitted(start, store.db, pricing, lines, fault)
    ensures answer.Failed? ==> FlushRefused(start, pricing, lines, fault, |lines|) && store.db == old(store.db)
  {
    CutKeepsAll(lines);
    ghost var before := store.db;
    var ok := Flush(store, pricing, p.batch, fault == Some(p.flushes));
    RestFlushed(start, before, store.db, pricing, lines, fault, ok);
    answer := if ok then Imported(p.count + |p.batch|) else Failed;
  }

  // The loop over lines. `fault` says which flush, by its number, the database refuses for reasons
  // of its own. The retention lock is held throughout and released on every way out.
  method ImportSpans(store: Store, pricing: Option<Pricing>, lines: seq<Line>, scanError: bool, fault: Option<nat>)
    returns (answer: Answer, ghost done: nat)
    requires store.Valid() && !store.retentionHeld
    modifies store
    ensures store.Valid() && !store.retentionHeld && done <= |lines|
    // it succeeds exactly when every line can be read and every batch is accepted at its turn
    ensures answer.Imported? <==>
      Imports(old(store.db), pricing, lines) && !scanError && NoFault(fault, |Batches(lines)|)
    ensures answer.Imported? ==>
      answer.count == |Records(lines)| && store.db == After(old(store.db), pricing, Batches(lines))
    // otherwise exactly the full batches before the stop are committed
    ensures !answer.Imported? ==> Reading(old(store.db), store.db, pricing, lines[..done], fault)
    ensures answer.Rejected? ==>
      answer.line == done + 1 && (if done < |lines| then !Readable(lines[done]) else scanError)
    ensures answer.Failed? ==> FlushRefused(old(store.db), pricing, lines, fault, done)
  {
    store.retentionHeld := true;
    ghost var start := store.db;
    var p := Progress([], 0, 0, 0);
    done := 0;
    for i := 0 to |lines|
      invariant store.Valid() && store.retentionHeld
      invariant Reading(start, store.db, pricing, lines[..i], fault) && p == ProgressOf(lines[..i])
    {
      done := i;
      if !Readable(lines[i]) {
        store.retentionHeld := false;
        return Rejected(i + 1), i;
      }
      var ok;
      ok, p := Take(store, pricing, lines, i, p, fault, start);
      if !ok {
        store.retentionHeld := false;
        RefusedIsNotInTurn(start, pricing, lines, fault, i);
        return Failed, i;
      }
    }
    assert lines[..|lines|] == lines;
    done := |lines|;
    if scanError {
      store.retentionHeld := false;
      return Rejected(|lines| + 1), done;
    }
    answer := FlushRest(store, pricing, lines, p, fault, start);
    store.retentionHeld := false;
    if answer == Failed {
      RefusedIsNotInTurn(start, pricing, lines, fault, done);
    }
  }
}

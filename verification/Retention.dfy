// The purge loop and its maintenance (internal/store/retention.go).
module Retention {
  import opened Prelude
  import opened TraceStore
  import opened TraceView
  import opened SpanStore

  const MERGE_BUDGET := 32

  datatype Ctx = Running | CtxCanceled | DeadlineExceeded

  datatype Err = Canceled | Deadline | Database(canceled: bool) | Cleanup | Paused | BadOptions

  // What the surroundings do during one turn of the loop: the context's state at its two checks,
  // a batch that ingest commits before the delete, and the outcome of each maintenance step. A
  // merge answers whether it worked, None is an error.
  datatype Round = Round(ctx: Ctx, arrivals: seq<Span>, batch: Option<Err>, merge: Option<bool>, mergeErr: Err,
                         checkpoint: Option<Err>, pause: Ctx)

  const QUIET := Round(Running, [], None, Some(false), Cleanup, None, Running)

  datatype Event = Batch(deleted: nat) | Merge(pages: int, worked: bool) | Vacuum

  // ----- What a log of events says -----

  function Total(log: seq<Event>): nat {
    if log == [] then 0
    else Total(log[..|log| - 1]) + if log[|log| - 1].Batch? then log[|log| - 1].deleted else 0
  }

  function Batches(log: seq<Event>): nat {
    if log == [] then 0
    else Batches(log[..|log| - 1]) + if log[|log| - 1].Batch? && log[|log| - 1].deleted > 0 then 1 else 0
  }

  // How many traces each committed delete took, in order.
  function Sizes(log: seq<Event>): seq<nat> {
    if log == [] then []
    else Sizes(log[..|log| - 1]) + if log[|log| - 1].Batch? then [log[|log| - 1].deleted] else []
  }

  function Merges(log: seq<Event>): nat {
    if log == [] then 0 else Merges(log[..|log| - 1]) + if log[|log| - 1].Merge? then 1 else 0
  }

  function Vacuums(log: seq<Event>): nat {
    if log == [] then 0 else Vacuums(log[..|log| - 1]) + if log[|log| - 1].Vacuum? then 1 else 0
  }

  // The budget of the next merge: negative, which starts a generation, at first and whenever the
  // last merge found no work.
  function NextPages(log: seq<Event>): int {
    if log == [] then -MERGE_BUDGET
    else if log[|log| - 1].Merge? then (if log[|log| - 1].worked then MERGE_BUDGET else -MERGE_BUDGET)
    else NextPages(log[..|log| - 1])
  }

  ghost predicate Disciplined(log: seq<Event>) {
    log != [] ==>
      && Disciplined(log[..|log| - 1])
      && (log[|log| - 1].Merge? ==> log[|log| - 1].pages == NextPages(log[..|log| - 1]))
  }

  // Event j is the last merge before event i.
  ghost predicate PreviousMerge(log: seq<Event>, i: int, j: int) {
    0 <= j < i <= |log| && log[j].Merge? && forall h :: j < h < i ==> !log[h].Merge?
  }

  // A merge starts a generation, with a negative budget, if it is the first or its predecessor found no
  // work, and otherwise continues one.
  lemma {:induction false} MergeBudgets(log: seq<Event>, i: nat)
    requires Disciplined(log) && i < |log| && log[i].Merge?
    ensures (forall j :: 0 <= j < i ==> !log[j].Merge?) ==> log[i].pages == -32
    ensures forall j :: PreviousMerge(log, i, j) ==> log[i].pages == if log[j].worked then 32 else -32
    decreases |log|
  {
    var init := log[..|log| - 1];
    if i < |init| {
      MergeBudgets(init, i);
      assert forall j :: 0 <= j < |init| ==> init[j] == log[j];
      forall j | PreviousMerge(log, i, j) ensures log[i].pages == if log[j].worked then 32 else -32 {
        assert PreviousMerge(init, i, j);
      }
    } else {
      NextPagesAre(init);
      forall j | PreviousMerge(log, i, j) ensures log[i].pages == if log[j].worked then 32 else -32 {
        assert forall h :: 0 <= h < |init| ==> init[h] == log[h];
        assert PreviousMerge(init, i, j);
      }
    }
  }

  lemma {:induction false} NextPagesAre(log: seq<Event>)
    ensures (forall j :: 0 <= j < |log| ==> !log[j].Merge?) ==> NextPages(log) == -32
    ensures forall j :: PreviousMerge(log, |log|, j) ==> NextPages(log) == if log[j].worked then 32 else -32
  {
    if log != [] && !log[|log| - 1].Merge? {
      var init := log[..|log| - 1];
      NextPagesAre(init);
      forall j | PreviousMerge(log, |log|, j) ensures NextPages(log) == if log[j].worked then 32 else -32 {
        assert PreviousMerge(init, |init|, j);
      }
    }
  }

  predicate IsCanceled(e: Err) {
    e == Canceled || e == Database(true)
  }

  function CtxErr(ctx: Ctx): Err {
    if ctx == CtxCanceled then Canceled else Deadline
  }

  // ----- Where the loop ends -----

  function RoundAt(rounds: seq<Round>, k: nat): Round {
    if k < |rounds| then rounds[k] else QUIET
  }

  // What ends a turn before anything is deleted.
  function Prevented(round: Round): Option<Err> {
    match round.ctx
    case Running => round.batch
    case CtxCanceled => Some(Canceled)
    case DeadlineExceeded => Some(Deadline)
  }

  // What ends turn k after its delete: a merge that is due, else the checkpoint, else the pause.
  function Broken(round: Round, k: nat, mergeEvery: nat): Option<Err>
    requires mergeEvery >= 1
  {
    if (k + 1) % mergeEvery == 0 && round.merge.None? then Some(round.mergeErr)
    else if round.checkpoint.Some? then round.checkpoint
    else
      match round.pause
      case Running => None
      case CtxCanceled => Some(Canceled)
      case DeadlineExceeded => Some(Deadline)
  }

  ghost predicate Passed(rounds: seq<Round>, mergeEvery: nat, sizes: seq<nat>)
    requires mergeEvery >= 1
  {
    forall k :: 0 <= k < |sizes| ==>
      sizes[k] > 0 && Prevented(RoundAt(rounds, k)).None? && Broken(RoundAt(rounds, k), k, mergeEvery).None?
  }

  // The deletes took `sizes`, and then the loop ended with this error, or without one. It ends at the
  // first turn that is prevented, finds nothing, or breaks after its delete, and at no other.
  ghost predicate Ends(rounds: seq<Round>, mergeEvery: nat, sizes: seq<nat>, err: Option<Err>)
    requires mergeEvery >= 1
  {
    || (err.Some? && Passed(rounds, mergeEvery, sizes) && err == Prevented(RoundAt(rounds, |sizes|)))
    || (sizes != [] && Passed(rounds, mergeEvery, sizes[..|sizes| - 1])
        && var last, round := |sizes| - 1, RoundAt(rounds, |sizes| - 1);
           && Prevented(round).None?
           && if sizes[last] == 0 then err.None? else err.Some? && err == Broken(round, last, mergeEvery))
  }

  // Read from the rounds: the first one that fails, if every batch before it found something, is the
  // last, and its failure is the error; nothing is deleted after it.
  lemma FirstFailureEnds(rounds: seq<Round>, mergeEvery: nat, sizes: seq<nat>, err: Option<Err>, k: nat)
    requires mergeEvery >= 1 && Ends(rounds, mergeEvery, sizes, err)
    requires forall j :: 0 <= j < k ==>
      Prevented(RoundAt(rounds, j)).None? && Broken(RoundAt(rounds, j), j, mergeEvery).None?
    requires forall j :: 0 <= j < k && j < |sizes| ==> sizes[j] > 0
    ensures Prevented(RoundAt(rounds, k)).Some? ==> err == Prevented(RoundAt(rounds, k)) && |sizes| == k
    ensures Prevented(RoundAt(rounds, k)).None? && Broken(RoundAt(rounds, k), k, mergeEvery).Some? ==>
      |sizes| == k + 1 && err == if sizes[k] == 0 then None else Broken(RoundAt(rounds, k), k, mergeEvery)
  {
    if |sizes| <= k && err.Some? && Passed(rounds, mergeEvery, sizes) && err == Prevented(RoundAt(rounds, |sizes|)) {
      assert |sizes| == k;
    } else if |sizes| > k + 1 {
      assert Passed(rounds, mergeEvery, sizes[..|sizes| - 1]);
      assert sizes[..|sizes| - 1][k] == sizes[k];
    }
  }

  // The loop ends without an error exactly if it came to a batch that found nothing.
  lemma FinishedIff(rounds: seq<Round>, mergeEvery: nat, sizes: seq<nat>, err: Option<Err>)
    requires mergeEvery >= 1 && Ends(rounds, mergeEvery, sizes, err)
    ensures err.None? <==> FoundNothing(sizes)
    ensures forall k :: 0 <= k < |sizes| - 1 ==> sizes[k] > 0
  {
    assert forall k :: 0 <= k < |sizes| - 1 ==> sizes[..|sizes| - 1][k] == sizes[k];
  }

  // One turn: from `sizes` to `sizes'`.
  ghost predicate Turned(round: Round, mergeEvery: nat, sizes: seq<nat>, sizes': seq<nat>, stop: bool, err: Option<Err>)
    requires mergeEvery >= 1
  {
    if Prevented(round).Some? then sizes' == sizes && stop && err == Prevented(round)
    else
      && |sizes'| == |sizes| + 1 && sizes' == sizes + [sizes'[|sizes|]]
      && if sizes'[|sizes|] == 0 then stop && err.None?
         else err == Broken(round, |sizes|, mergeEvery) && (stop <==> err.Some?)
  }

  lemma TurnEnds(rounds: seq<Round>, mergeEvery: nat, sizes: seq<nat>, sizes': seq<nat>, stop: bool, err: Option<Err>)
    requires mergeEvery >= 1 && Passed(rounds, mergeEvery, sizes)
    requires Turned(RoundAt(rounds, |sizes|), mergeEvery, sizes, sizes', stop, err)
    ensures if stop then Ends(rounds, mergeEvery, sizes', err) else err.None? && Passed(rounds, mergeEvery, sizes')
  {
    if Prevented(RoundAt(rounds, |sizes|)).None? {
      assert sizes'[..|sizes'| - 1] == sizes;
    }
  }

  ghost predicate NoArrivals(rounds: seq<Round>) {
    forall i :: 0 <= i < |rounds| ==> rounds[i].arrivals == []
  }

  // The purge so far has taken exactly `gone` out of `start`.
  ghost predicate Removed(start: Db, db: Db, gone: set<string>, cutoff: int) {
    db == Deleted(start, gone) && forall t :: t in gone ==> Expired(start.rows, t, cutoff)
  }

  lemma RemovedNext(start: Db, db: Db, gone: set<string>, del: set<string>, cutoff: int)
    requires Consistent(start) && Removed(start, db, gone, cutoff)
    requires forall t :: t in del ==> Expired(db.rows, t, cutoff)
    ensures Removed(start, Deleted(db, del), gone + del, cutoff) && |gone + del| == |gone| + |del|
  {
    PurgeTwice(start, gone, del);
    forall t | t in del ensures t !in gone && Expired(start.rows, t, cutoff) {
      ExpiredAfterPurge(start, gone, t, cutoff);
    }
    assert gone !! del;
  }

  lemma RemovedNothing(start: Db, cutoff: int)
    requires Consistent(start)
    ensures Removed(start, start, {}, cutoff)
  {
    PurgeKeepsView(start, {});
    RowsDetermineAll(Deleted(start, {}), start) by {
      Seqs.FilterAll(NotIn({}), start.rows);
    }
  }

  lemma TracesShrink(db: Db, del: set<string>, cutoff: int)
    requires Consistent(db) && del != {} && forall t :: t in del ==> Expired(db.rows, t, cutoff)
    ensures |Deleted(db, del).traces| < |db.traces|
  {
    var t :| t in del;
    assert TraceExact(db, t);
    var kept := Deleted(db, del).traces;
    assert kept.Keys < db.traces.Keys;
    SubsetSmaller(kept.Keys, db.traces.Keys);
  }

  lemma SubsetSmaller(a: set<string>, b: set<string>)
    requires a < b
    ensures |a| < |b|
  {
    var x :| x in b && x !in a;
    assert |b - a| > 0;
    assert b == a + (b - a);
  }

  // The optional merge of one turn.
  method MaybeMerge(round: Round, batches: nat, mergeEvery: nat, mergePages: int, log: seq<Event>)
    returns (err: Option<Err>, mergePages': int, log': seq<Event>)
    requires mergeEvery >= 1 && mergePages == NextPages(log) && Disciplined(log)
    ensures Disciplined(log') && Total(log') == Total(log) && Batches(log') == Batches(log)
      && Vacuums(log') == Vacuums(log) && Sizes(log') == Sizes(log)
    ensures Merges(log') == Merges(log) + if batches % mergeEvery == 0 then 1 else 0
    ensures err == if batches % mergeEvery == 0 && round.merge.None? then Some(round.mergeErr) else None
    ensures err.None? ==> mergePages' == NextPages(log')
  {
    err, mergePages', log' := None, mergePages, log;
    if batches % mergeEvery == 0 {
      log' := log + [Merge(mergePages, round.merge == Some(true))];
      assert log'[..|log|] == log;
      if round.merge.None? {
        err := Some(round.mergeErr);
        return;
      }
      mergePages' := MERGE_BUDGET;
      if !round.merge.value {
        mergePages' := -MERGE_BUDGET;
      }
    }
  }

  lemma OneMoreBatch(n: nat, k: nat)
    requires k >= 1
    ensures (n + 1) / k == n / k + if (n + 1) % k == 0 then 1 else 0
  {
    var q, r := n / k, n % k;
    assert n == q * k + r;
    if r + 1 == k {
      assert n + 1 == (q + 1) * k;
      Quotient(n + 1, k, q + 1, 0);
    } else {
      Quotient(n + 1, k, q, r + 1);
    }
  }

  lemma AtLeast(d: int, k: nat)
    ensures d >= 1 ==> d * k >= k
    ensures d <= -1 ==> d * k + k <= 0
  {
  }

  lemma Quotient(n: nat, k: nat, q: nat, r: nat)
    requires k >= 1 && r < k && n == q * k + r
    ensures n / k == q && n % k == r
  {
    var d := n / k - q;
    assert n == (n / k) * k + n % k;
    assert d * k == r - n % k;
    AtLeast(d, k);
  }

  // What one retention transaction did to the database.
  ghost predicate PurgedBatch(before: Db, after: Db, del: set<string>, cutoff: int, batchSize: nat) {
    && after == Deleted(before, del)
    && (forall t :: t in del ==> Expired(before.rows, t, cutoff))
    && (|del| < batchSize ==> forall t :: Expired(before.rows, t, cutoff) ==> t in del)
  }

  ghost predicate NothingExpired(db: Db, cutoff: int) {
    forall t :: !Expired(db.rows, t, cutoff)
  }

  lemma EmptyBatch(before: Db, after: Db, del: set<string>, cutoff: int, batchSize: nat)
    requires Consistent(before) && PurgedBatch(before, after, del, cutoff, batchSize) && |del| == 0 < batchSize
    ensures NothingExpired(after, cutoff)
  {
    assert del == {};
    forall t ensures !Expired(after.rows, t, cutoff) {
      ExpiredAfterPurge(before, del, t, cutoff);
    }
  }

  // ----- With ingest in between -----

  // What happens to the database during a purge.
  datatype Change = Arrival(spans: seq<Span>) | Deletion(gone: set<string>)

  // A batch that arrives is committed or refused.
  ghost function Arrive(db: Db, spans: seq<Span>): Db {
    if Insertable(db, spans) then Inserted(db, spans) else db
  }

  ghost function Replay(start: Db, changes: seq<Change>): Db {
    if changes == [] then start
    else
      var before, last := Replay(start, changes[..|changes| - 1]), changes[|changes| - 1];
      if last.Arrival? then Arrive(before, last.spans) else Deleted(before, last.gone)
  }

  function Deletions(changes: seq<Change>): seq<nat> {
    if changes == [] then []
    else
      var last := changes[|changes| - 1];
      Deletions(changes[..|changes| - 1]) + if last.Deletion? then [|last.gone|] else []
  }

  function GoneIn(changes: seq<Change>): nat {
    if changes == [] then 0
    else
      var last := changes[|changes| - 1];
      GoneIn(changes[..|changes| - 1]) + if last.Deletion? then |last.gone| else 0
  }

  // Each deletion took traces that were expired at that moment.
  ghost predicate OnlyExpired(start: Db, changes: seq<Change>, cutoff: int) {
    changes != [] ==>
      && OnlyExpired(start, changes[..|changes| - 1], cutoff)
      && var last := changes[|changes| - 1];
         last.Deletion? ==> forall t :: t in last.gone ==>
           Expired(Replay(start, changes[..|changes| - 1]).rows, t, cutoff)
  }

  // The database is what these changes made of `start`, and `total` counts the deletions.
  ghost predicate Honest(start: Db, changes: seq<Change>, db: Db, total: nat, cutoff: int) {
    db == Replay(start, changes) && total == GoneIn(changes) && OnlyExpired(start, changes, cutoff)
  }

  lemma HonestArrival(start: Db, changes: seq<Change>, db: Db, total: nat, cutoff: int, spans: seq<Span>)
    requires Honest(start, changes, db, total, cutoff)
    ensures Honest(start, changes + [Arrival(spans)], Arrive(db, spans), total, cutoff)
  {
    assert (changes + [Arrival(spans)])[..|changes|] == changes;
  }

  lemma HonestDeletion(start: Db, changes: seq<Change>, db: Db, total: nat, cutoff: int, gone: set<string>)
    requires Honest(start, changes, db, total, cutoff) && forall t :: t in gone ==> Expired(db.rows, t, cutoff)
    ensures Honest(start, changes + [Deletion(gone)], Deleted(db, gone), total + |gone|, cutoff)
  {
    assert (changes + [Deletion(gone)])[..|changes|] == changes;
  }

  // The ingest that slips in, and the delete.
  method PurgeStep(store: Store, cutoff: int, batchSize: nat, round: Round)
    returns (deleted: Option<nat>, ghost before: Db, ghost del: set<string>)
    requires store.Valid() && batchSize >= 1
    modifies store`db
    ensures store.Valid() && Consistent(before)
    ensures round.arrivals == [] ==> before == old(store.db)
    ensures before == Arrive(old(store.db), round.arrivals)
    ensures deleted.None? <==> round.batch.Some?
    ensures deleted.None? ==> store.db == before
    ensures deleted.Some? ==> PurgedBatch(before, store.db, del, cutoff, batchSize) && deleted.value == |del|
  {
    var arrived := store.InsertBatch(round.arrivals, false);
    InsertNothing(old(store.db));
    before := store.db;
    deleted, del := store.PurgeBatch(cutoff, batchSize, round.batch.Some?);
  }

  // What the loop carries along, with the record of what it did.
  datatype Progress = Progress(total: nat, batches: nat, mergePages: int, log: seq<Event>)

  // What the record says is so whenever the loop may stop.
  ghost predicate Kept(p: Progress, mergeEvery: nat)
    requires mergeEvery >= 1
  {
    && Disciplined(p.log) && Vacuums(p.log) == 0 && p.total == Total(p.log)
    && Merges(p.log) == Batches(p.log) / mergeEvery
  }

  // And whenever it goes on.
  ghost predicate InStep(p: Progress) {
    p.mergePages == NextPages(p.log) && p.batches == Batches(p.log)
  }

  // What follows a delete: its record, the merge, the checkpoint, the pause.
  method Maintain(round: Round, deleted: nat, mergeEvery: nat, p: Progress)
    returns (stop: bool, err: Option<Err>, p': Progress)
    requires mergeEvery >= 1 && Kept(p, mergeEvery) && InStep(p)
    ensures Kept(p', mergeEvery) && p'.total == p.total + deleted
    ensures !stop ==> InStep(p') && p'.batches == p.batches + 1
    ensures Sizes(p'.log) == Sizes(p.log) + [deleted]
    ensures if deleted == 0 then stop && err.None?
            else err == Broken(round, p.batches, mergeEvery) && (stop <==> err.Some?)
  {
    stop, err := true, None;
    p' := p.(total := p.total + deleted, log := p.log + [Batch(deleted)]);
    assert p'.log[..|p.log|] == p.log;
    if deleted == 0 {
      return;
    }
    OneMoreBatch(p.batches, mergeEvery);
    var mergePages, log;
    err, mergePages, log := MaybeMerge(round, p.batches + 1, mergeEvery, p.mergePages, p'.log);
    p' := Progress(p'.total, p.batches + 1, mergePages, log);
    if err.Some? {
      return;
    }
    if round.checkpoint.Some? {
      err := round.checkpoint;
      return;
    }
    if round.pause != Running {
      err := Some(CtxErr(round.pause));
      return;
    }
    stop := false;
  }

  // The purge so far: what is gone from `start`, as long as ingest stays away.
  ghost predicate Exact(quiet: bool, start: Db, db: Db, gone: set<string>, total: nat, cutoff: int) {
    quiet ==> Removed(start, db, gone, cutoff) && |gone| == total
  }

  lemma ExactNext(quiet: bool, start: Db, before: Db, after: Db, gone: set<string>, del: set<string>, total: nat,
                  cutoff: int, batchSize: nat)
    requires Consistent(start) && PurgedBatch(before, after, del, cutoff, batchSize)
      && Exact(quiet, start, before, gone, total, cutoff)
    ensures Exact(quiet, start, after, gone + del, total + |del|, cutoff)
  {
    if quiet {
      RemovedNext(start, before, gone, del, cutoff);
    }
  }

  // What a purge has done to the database: the traces gone, as long as ingest stays away, every change
  // if it does not, and how much each delete took.
  datatype Trail = Trail(gone: set<string>, changes: seq<Change>, sizes: seq<nat>)

  ghost predicate Recorded(quiet: bool, start: Db, db: Db, trail: Trail, total: nat, cutoff: int) {
    && Exact(quiet, start, db, trail.gone, total, cutoff) && Honest(start, trail.changes, db, total, cutoff)
    && trail.sizes == Deletions(trail.changes)
  }

  function AfterArrival(trail: Trail, spans: seq<Span>): Trail {
    trail.(changes := trail.changes + [Arrival(spans)])
  }

  function AfterDeletion(trail: Trail, del: set<string>): Trail {
    Trail(trail.gone + del, trail.changes + [Deletion(del)], trail.sizes + [|del|])
  }

  lemma RecordArrival(quiet: bool, start: Db, db: Db, before: Db, trail: Trail, total: nat, cutoff: int,
                      spans: seq<Span>)
    requires Recorded(quiet, start, db, trail, total, cutoff) && before == Arrive(db, spans)
    requires quiet ==> before == db
    ensures Recorded(quiet, start, before, AfterArrival(trail, spans), total, cutoff)
  {
    HonestArrival(start, trail.changes, db, total, cutoff, spans);
    ChangesNext(trail.changes, Arrival(spans));
  }

  lemma RecordDeletion(quiet: bool, start: Db, before: Db, after: Db, trail: Trail, total: nat, cutoff: int,
                       del: set<string>, batchSize: nat)
    requires Consistent(start) && Recorded(quiet, start, before, trail, total, cutoff)
    requires PurgedBatch(before, after, del, cutoff, batchSize)
    ensures Recorded(quiet, start, after, AfterDeletion(trail, del), total + |del|, cutoff)
  {
    ExactNext(quiet, start, before, after, trail.gone, del, total, cutoff, batchSize);
    HonestDeletion(start, trail.changes, before, total, cutoff, del);
    ChangesNext(trail.changes, Deletion(del));
  }

  // A batch that found nothing leaves nothing to find; another makes the table smaller.
  lemma DeletionEffect(before: Db, after: Db, del: set<string>, cutoff: int, batchSize: nat)
    requires Consistent(before) && PurgedBatch(before, after, del, cutoff, batchSize) && batchSize >= 1
    ensures |del| == 0 ==> NothingExpired(after, cutoff)
    ensures |del| > 0 ==> |after.traces| < |before.traces|
  {
    if |del| == 0 {
      EmptyBatch(before, after, del, cutoff, batchSize);
    } else {
      TracesShrink(before, del, cutoff);
    }
  }

  // The ingest that slips in and the delete, both recorded.
  method Delete(store: Store, cutoff: int, batchSize: nat, round: Round, ghost total: nat, ghost quiet: bool,
                ghost start: Db, ghost trail: Trail)
    returns (deleted: Option<nat>, ghost trail': Trail)
    requires store.Valid() && batchSize >= 1 && Consistent(start) && (quiet ==> round.arrivals == [])
    requires Recorded(quiet, start, store.db, trail, total, cutoff)
    modifies store`db
    ensures store.Valid() && (deleted.None? <==> round.batch.Some?)
    ensures var size := if deleted.Some? then deleted.value else 0;
      Recorded(quiet, start, store.db, trail', total + size, cutoff)
    ensures trail'.sizes == if deleted.Some? then trail.sizes + [deleted.value] else trail.sizes
    ensures deleted == Some(0) ==> NothingExpired(store.db, cutoff)
    ensures deleted.Some? && deleted.value > 0 && round.arrivals == [] ==>
      |store.db.traces| < |old(store.db).traces|
  {
    ghost var before, del;
    ghost var previous := store.db;
    deleted, before, del := PurgeStep(store, cutoff, batchSize, round);
    RecordArrival(quiet, start, previous, before, trail, total, cutoff, round.arrivals);
    ghost var arrived := AfterArrival(trail, round.arrivals);
    trail' := arrived;
    if deleted.Some? {
      RecordDeletion(quiet, start, before, store.db, arrived, total, cutoff, del, batchSize);
      DeletionEffect(before, store.db, del, cutoff, batchSize);
      trail' := AfterDeletion(arrived, del);
    }
  }

  lemma ChangesNext(changes: seq<Change>, last: Change)
    ensures Deletions(changes + [last]) ==
      if last.Deletion? then Deletions(changes) + [|last.gone|] else Deletions(changes)
  {
    assert (changes + [last])[..|changes|] == changes;
  }

  // One turn of the loop. It goes on unless `stop`: then it ends with `err`, or without one because
  // this turn found no eligible trace.
  method Turn(store: Store, cutoff: int, batchSize: nat, mergeEvery: nat, round: Round, p: Progress,
              ghost quiet: bool, ghost start: Db, ghost trail: Trail)
    returns (stop: bool, err: Option<Err>, p': Progress, ghost trail': Trail)
    requires store.Valid() && batchSize >= 1 && mergeEvery >= 1 && Kept(p, mergeEvery) && InStep(p)
    requires Consistent(start) && (quiet ==> round.arrivals == [])
    requires Sizes(p.log) == trail.sizes && |Sizes(p.log)| == p.batches
    requires Recorded(quiet, start, store.db, trail, p.total, cutoff)
    modifies store`db
    ensures store.Valid() && Kept(p', mergeEvery) && Sizes(p'.log) == trail'.sizes
    ensures !stop ==> InStep(p') && p'.batches == p.batches + 1
    ensures Turned(round, mergeEvery, Sizes(p.log), Sizes(p'.log), stop, err)
    ensures !stop && round.arrivals == [] ==> |store.db.traces| < |old(store.db).traces|
    ensures stop && err.None? ==> NothingExpired(store.db, cutoff)
    ensures Recorded(quiet, start, store.db, trail', p'.total, cutoff)
  {
    stop, err, p', trail' := true, None, p, trail;
    if round.ctx != Running {
      err := Some(CtxErr(round.ctx));
      return;
    }
    var deleted;
    deleted, trail' := Delete(store, cutoff, batchSize, round, p.total, quiet, start, trail);
    if deleted.None? {
      err := round.batch;
      return;
    }
    stop, err, p' := Maintain(round, deleted.value, mergeEvery, p);
  }

  lemma AllGone(start: Db, db: Db, gone: set<string>, cutoff: int)
    requires Consistent(start) && Removed(start, db, gone, cutoff) && NothingExpired(db, cutoff)
    ensures forall t :: t in gone <==> Expired(start.rows, t, cutoff)
  {
    forall t ensures t in gone <==> Expired(start.rows, t, cutoff) {
      ExpiredAfterPurge(start, gone, t, cutoff);
    }
  }

  // The loop of purge. `rounds` scripts the first turns; after them nothing interferes.
  method Loop(store: Store, cutoff: int, batchSize: nat, mergeEvery: nat, rounds: seq<Round>)
    returns (err: Option<Err>, p: Progress, ghost trail: Trail)
    requires store.Valid() && batchSize >= 1 && mergeEvery >= 1
    modifies store`db
    ensures store.Valid() && Kept(p, mergeEvery) && Sizes(p.log) == trail.sizes
    ensures Recorded(NoArrivals(rounds), old(store.db), store.db, trail, p.total, cutoff)
    ensures Ends(rounds, mergeEvery, Sizes(p.log), err)
    ensures err.None? ==> NothingExpired(store.db, cutoff)
  {
    p := Progress(0, 0, -MERGE_BUDGET, []);
    var i := 0;
    trail := Trail({}, [], []);
    RemovedNothing(store.db, cutoff);
    err := None;
    var stop := false;
    while !stop
      invariant store.Valid() && Kept(p, mergeEvery) && Sizes(p.log) == trail.sizes
      invariant !stop ==> InStep(p) && |Sizes(p.log)| == p.batches && i == Min(p.batches, |rounds|)
      invariant if stop then Ends(rounds, mergeEvery, Sizes(p.log), err) else Passed(rounds, mergeEvery, Sizes(p.log))
      invariant Recorded(NoArrivals(rounds), old(store.db), store.db, trail, p.total, cutoff)
      invariant stop && err.None? ==> NothingExpired(store.db, cutoff)
      decreases !stop, |rounds| - i, |store.db.traces|
    {
      var round := if i < |rounds| then rounds[i] else QUIET;
      i := if i < |rounds| then i + 1 else i;
      ghost var sizes := Sizes(p.log);
      ghost var quiet, start := NoArrivals(rounds), old(store.db);
      stop, err, p, trail := Turn(store, cutoff, batchSize, mergeEvery, round, p, quiet, start, trail);
      TurnEnds(rounds, mergeEvery, sizes, Sizes(p.log), stop, err);
    }
  }

  // The last delete took nothing.
  predicate FoundNothing(sizes: seq<nat>) {
    sizes != [] && sizes[|sizes| - 1] == 0
  }

  // How a purge that ran came out: the error that ended it, if any, and what the cleanup added.
  ghost predicate Outcome(rounds: seq<Round>, mergeEvery: nat, canceledAtEnd: bool, vacuumErr: Option<Err>,
                          sizes: seq<nat>, vacuums: nat, errs: seq<Err>)
    requires mergeEvery >= 1
  {
    var cleanup := if vacuumErr.Some? then [vacuumErr.value] else [];
    if FoundNothing(sizes) then Ends(rounds, mergeEvery, sizes, None) && vacuums == 1 && errs == cleanup
    else
      && errs != [] && Ends(rounds, mergeEvery, sizes, Some(errs[0]))
      && if errs[0] == Canceled || errs[0] == Database(true) || canceledAtEnd then vacuums == 0 && errs == [errs[0]]
         else vacuums == 1 && errs == [errs[0]] + cleanup
  }

  lemma Concluded(rounds: seq<Round>, mergeEvery: nat, canceledAtEnd: bool, vacuumErr: Option<Err>, sizes: seq<nat>,
                  vacuums: nat, err: Option<Err>, errs: seq<Err>)
    requires mergeEvery >= 1 && Ends(rounds, mergeEvery, sizes, err)
    requires vacuums ==
      if err.Some? && (err.value == Canceled || err.value == Database(true) || canceledAtEnd) then 0 else 1
    requires err.None? ==> errs == if vacuumErr.Some? then [vacuumErr.value] else []
    requires err.Some? ==> errs == [err.value] + if vacuums == 1 && vacuumErr.Some? then [vacuumErr.value] else []
    ensures Outcome(rounds, mergeEvery, canceledAtEnd, vacuumErr, sizes, vacuums, errs)
    ensures FoundNothing(sizes) <==> err.None?
  {
    FinishedIff(rounds, mergeEvery, sizes, err);
  }

  // The loop with its deferred cleanup. `canceledAtEnd` is the context's state when the cleanup looks
  // at it.
  method PurgeLoop(store: Store, cutoff: int, batchSize: nat, mergeEvery: nat, rounds: seq<Round>, canceledAtEnd: bool,
                   vacuumErr: Option<Err>)
    returns (total: nat, errs: seq<Err>, log: seq<Event>, ghost trail: Trail)
    requires store.Valid() && batchSize >= 1 && mergeEvery >= 1
    modifies store`db
    ensures store.Valid()
    // it ends at the first turn that fails or finds nothing, with that turn's error, and reclaims at
    // most once, and once unless cancellation skips it; the first error stays first
    ensures Outcome(rounds, mergeEvery, canceledAtEnd, vacuumErr, Sizes(log), Vacuums(log), errs)
    // the count reported is the count committed, on every way out
    ensures total == Total(log) && Sizes(log) == Deletions(trail.changes)
    // whatever ingest does in between, it only takes traces that are expired when it takes them
    ensures Honest(old(store.db), trail.changes, store.db, total, cutoff)
    // a batch that finds nothing leaves nothing eligible
    ensures FoundNothing(Sizes(log)) ==> NothingExpired(store.db, cutoff)
    // undisturbed by ingest, it removes exactly traces that were expired at the start, all of them if it finishes
    ensures NoArrivals(rounds) ==> Removed(old(store.db), store.db, trail.gone, cutoff) && |trail.gone| == total
    ensures NoArrivals(rounds) && NothingExpired(store.db, cutoff) ==>
      forall t :: t in trail.gone <==> Expired(old(store.db).rows, t, cutoff)
    // merges: one for every mergeEvery-th batch, each with the budget its predecessor calls for
    ensures Merges(log) == Batches(log) / mergeEvery && Disciplined(log)
  {
    var err, p;
    err, p, trail := Loop(store, cutoff, batchSize, mergeEvery, rounds);
    if NoArrivals(rounds) && NothingExpired(store.db, cutoff) {
      AllGone(old(store.db), store.db, trail.gone, cutoff);
    }
    total := p.total;
    errs, log := Finish(err, canceledAtEnd, vacuumErr, p.log);
    Concluded(rounds, mergeEvery, canceledAtEnd, vacuumErr, Sizes(log), Vacuums(log), err, errs);
  }

  lemma VacuumCounts(log: seq<Event>)
    requires Disciplined(log)
    ensures var log' := log + [Vacuum];
      && Disciplined(log') && Total(log') == Total(log) && Batches(log') == Batches(log) && Merges(log') == Merges(log)
      && Vacuums(log') == Vacuums(log) + 1 && Sizes(log') == Sizes(log)
  {
    assert (log + [Vacuum])[..|log|] == log;
  }

  // The deferred cleanup: the free pages are reclaimed unless the purge was cancelled.
  method Finish(err: Option<Err>, canceledAtEnd: bool, vacuumErr: Option<Err>, log: seq<Event>)
    returns (errs: seq<Err>, log': seq<Event>)
    requires Disciplined(log) && Vacuums(log) == 0
    ensures Disciplined(log') && Total(log') == Total(log) && Batches(log') == Batches(log)
      && Merges(log') == Merges(log) && Sizes(log') == Sizes(log)
    ensures Vacuums(log') ==
      if err.Some? && (err.value == Canceled || err.value == Database(true) || canceledAtEnd) then 0 else 1
    ensures err.None? ==> errs == if vacuumErr.Some? then [vacuumErr.value] else []
    ensures err.Some? ==> errs == [err.value] + if Vacuums(log') == 1 && vacuumErr.Some? then [vacuumErr.value] else []
  {
    if err.Some? && (IsCanceled(err.value) || canceledAtEnd) {
      return [err.value], log;
    }
    VacuumCounts(log);
    log' := log + [Vacuum];
    errs := (if err.Some? then [err.value] else []) + if vacuumErr.Some? then [vacuumErr.value] else [];
  }

  // Purge: refused without touching anything while an import, or another purge, holds the lock.
  method Purge(store: Store, cutoff: int, batchSize: int, mergeEvery: int, rounds: seq<Round>, canceledAtEnd: bool,
               vacuumErr: Option<Err>)
    returns (total: nat, errs: seq<Err>, ghost log: seq<Event>, ghost trail: Trail)
    requires store.Valid()
    modifies store
    ensures store.Valid() && store.retentionHeld == old(store.retentionHeld)
    ensures batchSize < 1 || mergeEvery < 1 ==> errs == [BadOptions]
    ensures batchSize >= 1 && mergeEvery >= 1 && old(store.retentionHeld) ==> errs == [Paused]
    ensures batchSize < 1 || mergeEvery < 1 || old(store.retentionHeld) ==> total == 0 && store.db == old(store.db)
    ensures batchSize >= 1 && mergeEvery >= 1 && !old(store.retentionHeld) ==>
      && Outcome(rounds, mergeEvery, canceledAtEnd, vacuumErr, Sizes(log), Vacuums(log), errs)
      && total == Total(log) && Sizes(log) == Deletions(trail.changes)
    ensures Honest(old(store.db), trail.changes, store.db, total, cutoff)
    ensures NoArrivals(rounds) ==> Removed(old(store.db), store.db, trail.gone, cutoff) && |trail.gone| == total
    ensures NoArrivals(rounds) && errs == [] ==> forall t :: t in trail.gone <==> Expired(old(store.db).rows, t, cutoff)
    ensures errs == [] ==> NothingExpired(store.db, cutoff)
  {
    RemovedNothing(store.db, cutoff);
    total, log, trail := 0, [], Trail({}, [], []);
    if batchSize < 1 || mergeEvery < 1 {
      errs := [BadOptions];
      return;
    }
    if store.retentionHeld {
      errs := [Paused];
      return;
    }
    store.retentionHeld := true;
    total, errs, log, trail := PurgeLoop(store, cutoff, batchSize, mergeEvery, rounds, canceledAtEnd, vacuumErr);
    store.retentionHeld := false;
  }
}

// The root span of an agent turn, merged from concurrent captures under the writer transaction
// (internal/store/proxy_turns.go).
module TurnRoots {
  import opened Prelude

  datatype Root = Root(ident: string, startNs: int, endNs: int, statusCode: int, statusMessage: string,
                       input: string, output: string, durationMs: real)

  const ERROR := 2

  function WithDuration(r: Root): Root {
    r.(durationMs := (r.endNs - r.startNs) as real / 1e6)
  }

  // One upsert over a stored root.
  function Merge(root: Root, turn: Root): Root {
    var failed := turn.statusCode == ERROR;
    WithDuration(root.(startNs := Min(root.startNs, turn.startNs),
                       endNs := Max(root.endNs, turn.endNs),
                       output := if turn.endNs >= root.endNs then turn.output else root.output,
                       statusCode := if failed then ERROR else root.statusCode,
                       statusMessage := if failed then turn.statusMessage else root.statusMessage))
  }

  function MergeAll(turns: seq<Root>): Root
    requires turns != []
  {
    if |turns| == 1 then WithDuration(turns[0])
    else Merge(MergeAll(turns[..|turns| - 1]), turns[|turns| - 1])
  }

  // ----- The table -----

  datatype Turn = Turn(key: string, root: Root)

  class ProxyTurns {
    var turns: map<string, Root>

    constructor ()
      ensures turns == map[]
    {
      turns := map[];
    }

    // Reads the row under the writer lock, changes the root field by field and writes it back.
    method Upsert(turn: Turn) returns (root: Root)
      modifies this
      ensures root == if turn.key in old(turns) then Merge(old(turns)[turn.key], turn.root) else WithDuration(turn.root)
      ensures turns == old(turns)[turn.key := root]
    {
      root := turn.root;
      if turn.key in turns {
        root := turns[turn.key];
        root := root.(startNs := Min(root.startNs, turn.root.startNs));
        if turn.root.endNs >= root.endNs {
          root := root.(output := turn.root.output);
        }
        root := root.(endNs := Max(root.endNs, turn.root.endNs));
        if turn.root.statusCode == ERROR {
          root := root.(statusCode := ERROR);
          root := root.(statusMessage := turn.root.statusMessage);
        }
      }
      root := root.(durationMs := (root.endNs - root.startNs) as real / 1e6);
      turns := turns[turn.key := root];
    }
  }

  // ----- What a sequence of merges leaves -----

  ghost predicate MaxEndAt(turns: seq<Root>, i: int) {
    0 <= i < |turns| && forall j :: 0 <= j < |turns| ==> turns[j].endNs <= turns[i].endNs
  }

  // The last of the updates that end latest.
  ghost predicate LastMaxEnd(turns: seq<Root>, i: int) {
    MaxEndAt(turns, i) && forall j :: i < j < |turns| ==> turns[j].endNs < turns[i].endNs
  }

  ghost predicate MinStartAt(turns: seq<Root>, i: int) {
    0 <= i < |turns| && forall j :: 0 <= j < |turns| ==> turns[i].startNs <= turns[j].startNs
  }

  ghost predicate SomeError(turns: seq<Root>) {
    exists i :: 0 <= i < |turns| && turns[i].statusCode == ERROR
  }

  // The update whose status message is shown: the last error, or the first update.
  ghost predicate LastError(turns: seq<Root>, i: int) {
    && 0 <= i < |turns|
    && (i == 0 || turns[i].statusCode == ERROR)
    && (forall j :: i < j < |turns| ==> turns[j].statusCode != ERROR)
  }

  lemma {:induction false} MergedStart(turns: seq<Root>)
    requires turns != []
    ensures exists i :: MinStartAt(turns, i) && MergeAll(turns).startNs == turns[i].startNs
  {
    if |turns| == 1 {
      assert MinStartAt(turns, 0);
    } else {
      var init, last := turns[..|turns| - 1], |turns| - 1;
      MergedStart(init);
      var i :| MinStartAt(init, i) && MergeAll(init).startNs == init[i].startNs;
      assert forall h :: 0 <= h < last ==> init[h] == turns[h];
      assert MinStartAt(turns, if turns[last].startNs < turns[i].startNs then last else i);
    }
  }

  lemma {:induction false} MergedEnd(turns: seq<Root>)
    requires turns != []
    ensures exists i ::
      LastMaxEnd(turns, i) && MergeAll(turns).endNs == turns[i].endNs && MergeAll(turns).output == turns[i].output
  {
    if |turns| == 1 {
      assert LastMaxEnd(turns, 0);
    } else {
      var init, last := turns[..|turns| - 1], |turns| - 1;
      MergedEnd(init);
      var i :| LastMaxEnd(init, i) && MergeAll(init).endNs == init[i].endNs && MergeAll(init).output == init[i].output;
      LastMaxEndNext(turns, i);
    }
  }

  lemma LastMaxEndNext(turns: seq<Root>, i: int)
    requires turns != [] && LastMaxEnd(turns[..|turns| - 1], i)
    ensures LastMaxEnd(turns, if turns[|turns| - 1].endNs >= turns[i].endNs then |turns| - 1 else i)
  {
    var init := turns[..|turns| - 1];
    assert forall h :: 0 <= h < |init| ==> init[h] == turns[h];
  }

  // The root spans the earliest start through the latest end, and shows the output of the last
  // applied among the updates that end latest.
  lemma MergedTimes(turns: seq<Root>)
    requires turns != []
    ensures exists i :: MinStartAt(turns, i) && MergeAll(turns).startNs == turns[i].startNs
    ensures exists i ::
      LastMaxEnd(turns, i) && MergeAll(turns).endNs == turns[i].endNs && MergeAll(turns).output == turns[i].output
    ensures MergeAll(turns).durationMs == (MergeAll(turns).endNs - MergeAll(turns).startNs) as real / 1e6
  {
    MergedStart(turns);
    MergedEnd(turns);
  }

  lemma {:induction false} MergedStatus(turns: seq<Root>)
    requires turns != []
    ensures MergeAll(turns).ident == turns[0].ident && MergeAll(turns).input == turns[0].input
    ensures MergeAll(turns).statusCode == if SomeError(turns) then ERROR else turns[0].statusCode
    ensures exists i :: LastError(turns, i) && MergeAll(turns).statusMessage == turns[i].statusMessage
  {
    if |turns| == 1 {
      assert LastError(turns, 0);
    } else {
      var init, n := turns[..|turns| - 1], |turns| - 1;
      MergedStatus(init);
      var i :| LastError(init, i) && MergeAll(init).statusMessage == init[i].statusMessage;
      assert LastError(turns, if turns[n].statusCode == ERROR then n else i);
      if SomeError(init) {
        var j :| 0 <= j < n && init[j].statusCode == ERROR;
        assert turns[j].statusCode == ERROR;
      }
      assert init[0] == turns[0];
    }
  }

  // ----- Order of arrival -----

  lemma SameElements(a: seq<Root>, b: seq<Root>, i: int)
    requires multiset(a) == multiset(b) && 0 <= i < |a|
    ensures exists j :: 0 <= j < |b| && b[j] == a[i]
  {
    assert a[i] in multiset(b);
  }

  // Start, end, duration and whether any call failed do not depend on the order of the captures.
  lemma OrderInsensitive(a: seq<Root>, b: seq<Root>)
    requires a != [] && multiset(a) == multiset(b)
    ensures b != []
    ensures MergeAll(a).startNs == MergeAll(b).startNs && MergeAll(a).endNs == MergeAll(b).endNs
    ensures MergeAll(a).durationMs == MergeAll(b).durationMs
    ensures MergeAll(a).statusCode == ERROR <==> MergeAll(b).statusCode == ERROR
  {
    SameElements(a, b, 0);
    MergedTimes(a);
    MergedTimes(b);
    MergedStatus(a);
    MergedStatus(b);
    forall i | 0 <= i < |a| ensures exists j :: 0 <= j < |b| && b[j] == a[i] { SameElements(a, b, i); }
    forall i | 0 <= i < |b| ensures exists j :: 0 <= j < |a| && a[j] == b[i] { SameElements(b, a, i); }
    SameBounds(a, b);
    if SomeError(a) { SameErrors(a, b); }
    if SomeError(b) { SameErrors(b, a); }
  }

  lemma SameBounds(a: seq<Root>, b: seq<Root>)
    requires a != [] && b != [] && multiset(a) == multiset(b)
    ensures MergeAll(a).startNs == MergeAll(b).startNs && MergeAll(a).endNs == MergeAll(b).endNs
  {
    MergedTimes(a);
    MergedTimes(b);
    var i :| MinStartAt(a, i) && MergeAll(a).startNs == a[i].startNs;
    var i' :| MinStartAt(b, i') && MergeAll(b).startNs == b[i'].startNs;
    SameElements(a, b, i);
    SameElements(b, a, i');
    var j :| LastMaxEnd(a, j) && MergeAll(a).endNs == a[j].endNs;
    var j' :| LastMaxEnd(b, j') && MergeAll(b).endNs == b[j'].endNs;
    SameElements(a, b, j);
    SameElements(b, a, j');
  }

  lemma SameErrors(a: seq<Root>, b: seq<Root>)
    requires multiset(a) == multiset(b) && SomeError(a)
    ensures SomeError(b)
  {
    var i :| 0 <= i < |a| && a[i].statusCode == ERROR;
    SameElements(a, b, i);
  }

  // The output shown is the same in every order of arrival.
  ghost predicate OutputSettled(turns: seq<Root>)
    requires turns != []
  {
    forall other :: multiset(other) == multiset(turns) && other != [] ==>
      MergeAll(other).output == MergeAll(turns).output
  }

  // The source's promise, exactly: the output is order-insensitive if and only if the updates that
  // end latest all carry the same output. Distinct ends are one way to meet that.
  lemma OutputSettledIff(turns: seq<Root>)
    requires turns != []
    ensures OutputSettled(turns) <==>
      forall i, j :: MaxEndAt(turns, i) && MaxEndAt(turns, j) ==> turns[i].output == turns[j].output
  {
    if OutputSettled(turns) {
      forall i, j | MaxEndAt(turns, i) && MaxEndAt(turns, j) ensures turns[i].output == turns[j].output {
        LastInWins(turns, i);
        LastInWins(turns, j);
      }
    }
    if forall i, j :: MaxEndAt(turns, i) && MaxEndAt(turns, j) ==> turns[i].output == turns[j].output {
      forall other | multiset(other) == multiset(turns)
        && other != [] ensures MergeAll(other).output == MergeAll(turns).output {
        SameOutput(turns, other);
      }
    }
  }

  lemma SameOutput(turns: seq<Root>, other: seq<Root>)
    requires turns != [] && other != [] && multiset(other) == multiset(turns)
    requires forall i, j :: MaxEndAt(turns, i) && MaxEndAt(turns, j) ==> turns[i].output == turns[j].output
    ensures MergeAll(other).output == MergeAll(turns).output
  {
    MergedTimes(turns);
    MergedTimes(other);
    SameBounds(turns, other);
    var i :| LastMaxEnd(turns, i) && MergeAll(turns).output == turns[i].output
      && MergeAll(turns).endNs == turns[i].endNs;
    var j :| LastMaxEnd(other, j) && MergeAll(other).output == other[j].output
      && MergeAll(other).endNs == other[j].endNs;
    SameElements(other, turns, j);
    var k :| 0 <= k < |turns| && turns[k] == other[j];
    assert MaxEndAt(turns, k) && MaxEndAt(turns, i);
  }

  function Moved(turns: seq<Root>, i: int): seq<Root>
    requires 0 <= i < |turns|
  {
    turns[..i] + turns[i + 1..] + [turns[i]]
  }

  lemma MovedLast(turns: seq<Root>, i: int)
    requires 0 <= i < |turns|
    ensures Moved(turns, i) != [] && multiset(Moved(turns, i)) == multiset(turns)
  {
    assert turns == turns[..i] + [turns[i]] + turns[i + 1..];
  }

  lemma OutputOfLast(init: seq<Root>, last: Root)
    requires forall j :: 0 <= j < |init| ==> init[j].endNs <= last.endNs
    ensures MergeAll(init + [last]).output == last.output
  {
    var all := init + [last];
    assert all[..|all| - 1] == init;
    if init != [] {
      MergedTimes(init);
    }
  }

  lemma OutputOfMoved(turns: seq<Root>, i: int)
    requires MaxEndAt(turns, i)
    ensures Moved(turns, i) != [] && multiset(Moved(turns, i)) == multiset(turns)
    ensures MergeAll(Moved(turns, i)).output == turns[i].output
  {
    MovedLast(turns, i);
    OutputOfLast(turns[..i] + turns[i + 1..], turns[i]);
  }

  // Any update that ends latest shows its output when it happens to be applied last.
  lemma LastInWins(turns: seq<Root>, i: int)
    requires turns != [] && OutputSettled(turns) && MaxEndAt(turns, i)
    ensures MergeAll(turns).output == turns[i].output
  {
    OutputOfMoved(turns, i);
    assert MergeAll(Moved(turns, i)).output == MergeAll(turns).output;
  }

  // ----- Many turns in one table -----

  function ForKey(updates: seq<Turn>, key: string): seq<Root> {
    if updates == [] then []
    else
      var init := ForKey(updates[..|updates| - 1], key);
      if updates[|updates| - 1].key == key then init + [updates[|updates| - 1].root] else init
  }

  function UpsertAll(updates: seq<Turn>): map<string, Root> {
    if updates == [] then map[]
    else
      var turns, u := UpsertAll(updates[..|updates| - 1]), updates[|updates| - 1];
      turns[u.key := if u.key in turns then Merge(turns[u.key], u.root) else WithDuration(u.root)]
  }

  // The stored root of each turn is the merge of that turn's updates alone.
  lemma {:induction false} TurnsDoNotMix(updates: seq<Turn>, key: string)
    ensures key in UpsertAll(updates) <==> ForKey(updates, key) != []
    ensures key in UpsertAll(updates) ==> UpsertAll(updates)[key] == MergeAll(ForKey(updates, key))
  {
    if updates != [] {
      var init := updates[..|updates| - 1];
      TurnsDoNotMix(init, key);
      if updates[|updates| - 1].key == key && ForKey(init, key) != [] {
        var all := ForKey(updates, key);
        assert all[..|all| - 1] == ForKey(init, key);
      }
    }
  }
}

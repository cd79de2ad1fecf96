// Which turn an exchange joins, and the table of turns beside the root spans it stands for
// (proxyTurn in internal/proxy/turns.go, GetProxyTurn and upsertProxyTurn in
// internal/store/proxy_turns.go).
module TurnTable {
  import opened Prelude
  import opened Json
  import opened TurnAnchor
  import opened TurnRoots
  import Order

  // The last prompt in a request's history and where it stands.
  datatype Anchor = Anchor(index: nat, item: Json)

  // A captured exchange that has a session. `root` is the turn's root as this exchange alone
  // would have it.
  datatype Capture = Capture(route: string, session: string, anchor: Option<Anchor>, spanId: string, root: Root)

  type Roots = map<TurnKey, Root>

  // Both places where a commit leaves the root: the turn record and the span.
  datatype Db = Db(turns: Roots, spans: Roots)

  const EMPTY := Db(map[], map[])

  predicate InScope(k: TurnKey, route: string, session: string) {
    k.route == route && k.session == session
  }

  // ORDER BY start_ns DESC, key DESC; `text` is the stored form of a key.
  ghost predicate IsLatest(turns: Roots, route: string, session: string, text: TurnKey -> string, k: TurnKey) {
    && k in turns && InScope(k, route, session)
    && forall other :: other in turns && InScope(other, route, session) ==>
         turns[other].startNs < turns[k].startNs
           || (turns[other].startNs == turns[k].startNs && Order.StrLeq(text(other), text(k)))
  }

  ghost predicate HasTurn(turns: Roots, route: string, session: string) {
    exists k :: k in turns && InScope(k, route, session)
  }

  lemma {:induction false} SomeLatest(turns: Roots, route: string, session: string, text: TurnKey -> string,
                                      among: set<TurnKey>) returns (k: TurnKey)
    requires among != {} && among <= turns.Keys && forall other :: other in among ==> InScope(other, route, session)
    ensures k in among
    ensures forall other :: other in among ==>
      turns[other].startNs < turns[k].startNs
        || (turns[other].startNs == turns[k].startNs && Order.StrLeq(text(other), text(k)))
    decreases |among|
  {
    var one :| one in among;
    k := one;
    Order.StrTotal(text(one), text(one));
    if among != {one} {
      assert among - {one} != {};
      var rest := SomeLatest(turns, route, session, text, among - {one});
      Order.StrTotal(text(one), text(rest));
      if turns[one].startNs < turns[rest].startNs
        || (turns[one].startNs == turns[rest].startNs && Order.StrLeq(text(one), text(rest))) {
        k := rest;
      } else {
        forall other | other in among - {one} && turns[other].startNs == turns[one].startNs
          ensures Order.StrLeq(text(other), text(one))
        {
          Order.StrTransitive(text(other), text(rest), text(one));
        }
      }
    }
  }

  lemma LatestExists(turns: Roots, route: string, session: string, text: TurnKey -> string)
    requires HasTurn(turns, route, session)
    ensures exists k :: IsLatest(turns, route, session, text, k)
  {
    var among := set k | k in turns && InScope(k, route, session);
    var one :| one in turns && InScope(one, route, session);
    assert one in among;
    var k := SomeLatest(turns, route, session, text, among);
    assert IsLatest(turns, route, session, text, k);
  }

  // GetProxyTurn without a key.
  ghost function Latest(turns: Roots, route: string, session: string, text: TurnKey -> string): (k: TurnKey)
    requires HasTurn(turns, route, session)
    ensures IsLatest(turns, route, session, text, k)
  {
    LatestExists(turns, route, session, text);
    var k :| IsLatest(turns, route, session, text, k); k
  }

  // An anchored exchange has its own key whatever is stored; another continues the scope's latest
  // turn, or else opens one under its span id.
  ghost function Resolve(turns: Roots, x: Capture, text: TurnKey -> string): TurnKey {
    if x.anchor.Some? then TurnKey(x.route, x.session, x.anchor.value.index, x.anchor.value.item)
    else if HasTurn(turns, x.route, x.session) then Latest(turns, x.route, x.session, text)
    else TurnKey(x.route, x.session, -1, Str(x.spanId))
  }

  // A capture commits, or retention deletes turn records; the spans of their traces may outlive
  // them. `swept` are records that retention deletes between a capture's lookup and its commit,
  // which toolMu does not exclude.
  datatype Event = Joins(x: Capture, swept: set<TurnKey>) | Expires(keys: set<TurnKey>)

  function Removed(e: Event): set<TurnKey> {
    if e.Joins? then e.swept else e.keys
  }

  // What a capture brings: without an anchor it shows the input of the turn it looked up.
  ghost function Own(turns: Roots, x: Capture, text: TurnKey -> string): Root {
    if x.anchor.Some? then x.root
    else
      var k := Resolve(turns, x, text);
      x.root.(input := if k in turns then turns[k].input else "")
  }

  // The upsert and the root span of the same transaction.
  ghost function Commit(db: Db, x: Capture, swept: set<TurnKey>, text: TurnKey -> string): Db {
    var k, turns, own := Resolve(db.turns, x, text), db.turns - swept, Own(db.turns, x, text);
    var root := if k in turns then Merge(turns[k], own) else WithDuration(own);
    Db(turns[k := root], db.spans[k := root])
  }

  ghost function Next(db: Db, e: Event, text: TurnKey -> string): Db {
    match e
    case Joins(x, swept) => Commit(db, x, swept, text)
    case Expires(keys) => Db(db.turns - keys, db.spans)
  }

  ghost function Run(events: seq<Event>, text: TurnKey -> string): Db {
    if events == [] then EMPTY else Next(Run(events[..|events| - 1], text), events[|events| - 1], text)
  }

  // The turn that the capture of event i joined when it was committed.
  ghost function Joined(events: seq<Event>, text: TurnKey -> string, i: nat): TurnKey
    requires i < |events| && events[i].Joins?
  {
    Resolve(Run(events[..i], text).turns, events[i].x, text)
  }

  lemma ResolvesInScope(turns: Roots, x: Capture, text: TurnKey -> string)
    ensures InScope(Resolve(turns, x, text), x.route, x.session)
  {
  }

  // ----- The stored root span is the merge of the turn's captures -----

  // What captures have brought to a turn since its record was last deleted.
  ghost function Updates(events: seq<Event>, text: TurnKey -> string, k: TurnKey): seq<Root> {
    if events == [] then []
    else
      var n := |events| - 1;
      var turns := Run(events[..n], text).turns;
      var before := if k in Removed(events[n]) then [] else Updates(events[..n], text, k);
      if events[n].Joins? && Resolve(turns, events[n].x, text) == k then before + [Own(turns, events[n].x, text)]
      else before
  }

  // After any run, a turn record is the merge of exactly the captures that joined the turn since
  // the record was made, in commit order, and the root span is the same.
  lemma {:induction false} RootIsMergeOfItsCaptures(events: seq<Event>, text: TurnKey -> string, k: TurnKey)
    ensures var db := Run(events, text); var updates := Updates(events, text, k);
      && (k in db.turns <==> updates != [])
      && (k in db.turns ==> db.turns[k] == MergeAll(updates))
      && (k in db.turns ==> k in db.spans && db.spans[k] == db.turns[k])
    decreases |events|
  {
    if events != [] {
      var init, last := events[..|events| - 1], events[|events| - 1];
      RootIsMergeOfItsCaptures(init, text, k);
      if last.Joins? {
        var own := Own(Run(init, text).turns, last.x, text);
        MergeOneMore(if k in last.swept then [] else Updates(init, text, k), own);
      }
    }
  }

  lemma MergeOneMore(updates: seq<Root>, root: Root)
    ensures MergeAll(updates + [root]) == if updates == [] then WithDuration(root) else Merge(MergeAll(updates), root)
  {
    assert (updates + [root])[..|updates|] == updates;
  }

  // ----- Continuations without an anchor -----

  predicate In(e: Event, route: string, session: string) {
    e.Joins? && e.x.route == route && e.x.session == session
  }

  ghost predicate Opens(events: seq<Event>, text: TurnKey -> string, i: nat)
    requires i < |events| && events[i].Joins?
  {
    Joined(events, text, i) !in Run(events[..i], text).turns - events[i].swept
  }

  // In this scope calls start one after the other, and a call that opens a turn starts after all
  // calls before it.
  ghost predicate Sequential(events: seq<Event>, text: TurnKey -> string, route: string, session: string) {
    forall i, j | 0 <= i < j < |events| && In(events[i], route, session) && In(events[j], route, session) ::
      && events[i].x.root.startNs <= events[j].x.root.startNs
      && (Opens(events, text, j) ==> events[i].x.root.startNs < events[j].x.root.startNs)
  }

  // Event i is the last to have opened a turn in this scope, and that turn has not expired.
  ghost predicate LastOpened(events: seq<Event>, text: TurnKey -> string, route: string, session: string, i: nat) {
    && i < |events| && In(events[i], route, session) && Opens(events, text, i)
    && (forall j | i < j < |events| && In(events[j], route, session) :: !Opens(events, text, j))
    && (forall j | i < j < |events| :: Joined(events, text, i) !in Removed(events[j]))
  }

  // The turn that `opener` opened started with it, and every other turn of the scope before it.
  ghost predicate StartedLast(events: seq<Event>, text: TurnKey -> string, route: string, session: string,
                              opener: nat) {
    var turns := Run(events, text).turns;
    && opener < |events| && events[opener].Joins?
    && Joined(events, text, opener) in turns
    && turns[Joined(events, text, opener)].startNs == events[opener].x.root.startNs
    && forall k :: k in turns && InScope(k, route, session) && k != Joined(events, text, opener) ==>
         turns[k].startNs < events[opener].x.root.startNs
  }

  lemma JoinedPrefix(events: seq<Event>, text: TurnKey -> string, n: nat, i: nat)
    requires i < n <= |events| && events[i].Joins?
    ensures Joined(events[..n], text, i) == Joined(events, text, i)
    ensures Opens(events[..n], text, i) == Opens(events, text, i)
  {
    assert events[..n][..i] == events[..i];
  }

  lemma SequentialPrefix(events: seq<Event>, text: TurnKey -> string, route: string, session: string, n: nat)
    requires Sequential(events, text, route, session) && n <= |events|
    ensures Sequential(events[..n], text, route, session)
  {
    forall i, j | 0 <= i < j < n && In(events[i], route, session) && In(events[j], route, session)
      ensures events[..n][i].x.root.startNs <= events[..n][j].x.root.startNs
      ensures Opens(events[..n], text, j) ==> events[..n][i].x.root.startNs < events[..n][j].x.root.startNs
    {
      JoinedPrefix(events, text, n, j);
    }
  }

  ghost predicate StartsBy(events: seq<Event>, route: string, session: string, start: int) {
    exists i :: 0 <= i < |events| && In(events[i], route, session) && start <= events[i].x.root.startNs
  }

  // No turn of the scope starts later than every capture so far.
  lemma {:induction false} StartsBound(events: seq<Event>, text: TurnKey -> string, route: string, session: string,
                                       k: TurnKey)
    requires k in Run(events, text).turns && InScope(k, route, session)
    ensures StartsBy(events, route, session, Run(events, text).turns[k].startNs)
    decreases |events|
  {
    var n := |events| - 1;
    var init, e := events[..n], events[n];
    if e.Joins? && Resolve(Run(init, text).turns, e.x, text) == k {
      ResolvesInScope(Run(init, text).turns, e.x, text);
      assert In(events[n], route, session);
    } else {
      StartsBound(init, text, route, session, k);
      var i :| 0 <= i < |init| && In(init[i], route, session)
        && Run(init, text).turns[k].startNs <= init[i].x.root.startNs;
      assert events[i] == init[i];
    }
  }

  lemma LastOpenedPrefix(events: seq<Event>, text: TurnKey -> string, route: string, session: string, opener: nat,
                         n: nat)
    requires LastOpened(events, text, route, session, opener) && opener < n <= |events|
    ensures LastOpened(events[..n], text, route, session, opener)
      && Joined(events[..n], text, opener) == Joined(events, text, opener)
  {
    JoinedPrefix(events, text, n, opener);
    forall j | opener < j < n && In(events[..n][j], route, session) ensures !Opens(events[..n], text, j) {
      JoinedPrefix(events, text, n, j);
    }
  }

  lemma {:induction false} LastOpenedIsLatest(events: seq<Event>, text: TurnKey -> string, route: string,
                                              session: string, opener: nat)
    requires Sequential(events, text, route, session) && LastOpened(events, text, route, session, opener)
    ensures StartedLast(events, text, route, session, opener)
    decreases |events|
  {
    var n := |events| - 1;
    if opener == n {
      OpenedNow(events, text, route, session);
    } else {
      SequentialPrefix(events, text, route, session, n);
      LastOpenedPrefix(events, text, route, session, opener, n);
      LastOpenedIsLatest(events[..n], text, route, session, opener);
      StaysLatest(events, text, route, session, opener);
    }
  }

  // One more event that opens no turn of the scope.
  lemma StaysLatest(events: seq<Event>, text: TurnKey -> string, route: string, session: string, opener: nat)
    requires Sequential(events, text, route, session) && LastOpened(events, text, route, session, opener)
    requires opener < |events| - 1 && StartedLast(events[..|events| - 1], text, route, session, opener)
    requires Joined(events[..|events| - 1], text, opener) == Joined(events, text, opener)
    ensures StartedLast(events, text, route, session, opener)
  {
    var n := |events| - 1;
    var e := events[n];
    if e.Joins? {
      ResolvesInScope(Run(events[..n], text).turns, e.x, text);
      if In(e, route, session) {
        assert !Opens(events, text, n);
      }
    }
  }

  lemma OpenedNow(events: seq<Event>, text: TurnKey -> string, route: string, session: string)
    requires events != [] && Sequential(events, text, route, session)
    requires LastOpened(events, text, route, session, |events| - 1)
    ensures StartedLast(events, text, route, session, |events| - 1)
  {
    var n := |events| - 1;
    var init, x := events[..n], events[n].x;
    ResolvesInScope(Run(init, text).turns, x, text);
    forall k | k in Run(init, text).turns && InScope(k, route, session)
      ensures Run(init, text).turns[k].startNs < x.root.startNs
    {
      StartsBound(init, text, route, session, k);
      var i :| 0 <= i < |init| && In(init[i], route, session)
        && Run(init, text).turns[k].startNs <= init[i].x.root.startNs;
      assert events[i] == init[i];
    }
  }

  // When calls come one after the other, a continuation that carries no prompt joins the turn
  // opened last in its scope.
  lemma ContinuationJoinsOpenTurn(events: seq<Event>, text: TurnKey -> string, opener: nat, x: Capture)
    requires Sequential(events, text, x.route, x.session) && LastOpened(events, text, x.route, x.session, opener)
    requires x.anchor.None?
    ensures Resolve(Run(events, text).turns, x, text) == Joined(events, text, opener)
  {
    LastOpenedIsLatest(events, text, x.route, x.session, opener);
    ResolvesInScope(Run(events[..opener], text).turns, events[opener].x, text);
    var turns := Run(events, text).turns;
    assert HasTurn(turns, x.route, x.session);
    assert IsLatest(turns, x.route, x.session, text, Latest(turns, x.route, x.session, text));
  }

  // A continuation whose scope has no turn opens one, which the next such continuation joins.
  lemma OrphanOpensTurn(turns: Roots, x: Capture, y: Capture, text: TurnKey -> string)
    requires x.anchor.None? && y.anchor.None? && x.route == y.route && x.session == y.session
    requires !HasTurn(turns, x.route, x.session)
    ensures var k := Resolve(turns, x, text);
      k !in turns && Resolve(Commit(Db(turns, map[]), x, {}, text).turns, y, text) == k
  {
    var k := Resolve(turns, x, text);
    var next := Commit(Db(turns, map[]), x, {}, text).turns;
    assert InScope(k, x.route, x.session) && k in next;
    assert HasTurn(next, y.route, y.session);
  }

  // Whatever a continuation shows as its own input, the turn keeps the input it had, even if retention
  // deletes the record between lookup and commit; a turn opened by one has none.
  lemma ContinuationKeepsInput(db: Db, x: Capture, swept: set<TurnKey>, text: TurnKey -> string)
    requires x.anchor.None?
    ensures var k, after := Resolve(db.turns, x, text), Commit(db, x, swept, text);
      && k in after.turns && after.spans[k] == after.turns[k]
      && after.turns[k].input == if HasTurn(db.turns, x.route, x.session) then db.turns[k].input
                                 else if k in db.turns - swept then db.turns[k].input else ""
  {
  }

  // The growing conversation: whatever has been stored meanwhile, two requests that both carry
  // their history join the same turn exactly when no prompt was added.
  lemma AnchoredTurnIsStable(isPrompt: Json -> bool, items: seq<Json>, more: seq<Json>, x: Capture, y: Capture,
                             turns: Roots, later: Roots, text: TurnKey -> string)
    requires LastIndex(isPrompt, items) >= 0 && x.route == y.route && x.session == y.session
    requires x.anchor == Some(Anchor(LastIndex(isPrompt, items), items[LastIndex(isPrompt, items)]))
    requires LastIndex(isPrompt, items + more) >= 0
    requires y.anchor == Some(Anchor(LastIndex(isPrompt, items + more),
      (items + more)[LastIndex(isPrompt, items + more)]))
    ensures Resolve(turns, x, text) == Resolve(later, y, text) <==> Absent(isPrompt, more)
  {
    SameTurnIffNoNewPrompt(x.route, x.session, isPrompt, items, more);
  }
}

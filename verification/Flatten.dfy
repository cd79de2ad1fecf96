// Rebuilding a tree from dotted attribute paths (internal/normalize/flatten.go).
module Flatten {
  import opened Prelude
  import opened Seqs
  import opened Order

  const MAX_INDEX := 10000

  datatype Node = Nil | Leaf(value: string) | Arr(items: seq<Node>) | Obj(fields: map<string, Node>)

  type Path = seq<string>

  datatype Entry = Entry(path: Path, value: string)

  // ----- Path components -----

  predicate Numeric(s: string) {
    s != "" && forall i :: 0 <= i < |s| ==> '0' <= s[i] <= '9'
  }

  function Number(s: string): nat
    requires forall i :: 0 <= i < |s| ==> '0' <= s[i] <= '9'
  {
    if s == "" then 0 else 10 * Number(s[..|s| - 1]) + (s[|s| - 1] as int - '0' as int)
  }

  // Both address the same child: "01" and "1" are one index.
  predicate SameChild(a: string, b: string) {
    if Numeric(a) && Numeric(b) then Number(a) == Number(b) else a == b
  }

  predicate IndexOk(c: string) {
    Numeric(c) ==> Number(c) <= MAX_INDEX
  }

  ghost predicate PathOk(path: Path) {
    forall i :: 0 <= i < |path| ==> IndexOk(path[i])
  }

  // ----- setPath -----

  function Pad(items: seq<Node>, n: nat): seq<Node> {
    if n <= |items| then items else items + seq(n - |items|, _ => Nil)
  }

  function Write(items: seq<Node>, n: nat, child: Node): seq<Node> {
    Pad(items, n + 1)[n := child]
  }

  function ItemsOf(node: Node): seq<Node> {
    if node.Arr? then node.items else []
  }

  function FieldsOf(node: Node): map<string, Node> {
    if node.Obj? then node.fields else map[]
  }

  function Child(node: Node, c: string): Node {
    if Numeric(c) then
      if Number(c) < |ItemsOf(node)| then ItemsOf(node)[Number(c)] else Nil
    else if c in FieldsOf(node) then FieldsOf(node)[c] else Nil
  }

  function WithChild(node: Node, c: string, child: Node): Node {
    if Numeric(c) then Arr(Write(ItemsOf(node), Number(c), child)) else Obj(FieldsOf(node)[c := child])
  }

  // The source's recursion; None is its error.
  function SetPath(node: Node, path: Path, value: string): Option<Node>
    decreases |path|
  {
    if path == [] then Some(Leaf(value))
    else if !IndexOk(path[0]) then None
    else
      var child := SetPath(Child(node, path[0]), path[1..], value);
      if child.None? then None else Some(WithChild(node, path[0], child.value))
  }

  // The same without the limit check.
  function Put(node: Node, path: Path, value: string): Node
    decreases |path|
  {
    if path == [] then Leaf(value) else WithChild(node, path[0], Put(Child(node, path[0]), path[1..], value))
  }

  lemma {:induction false} SetPathIsPut(node: Node, path: Path, value: string)
    ensures SetPath(node, path, value) == if PathOk(path) then Some(Put(node, path, value)) else None
    decreases |path|
  {
    if path != [] {
      SetPathIsPut(Child(node, path[0]), path[1..], value);
      assert PathOk(path) <==> IndexOk(path[0]) && PathOk(path[1..]) by {
        if PathOk(path[1..]) {
          forall i | 1 <= i < |path| ensures IndexOk(path[i]) { assert path[1..][i - 1] == path[i]; }
        }
      }
    }
  }

  // ----- Writes that do not conflict commute -----

  // Two paths that part at children of one node, an array for both or an object for both.
  ghost predicate Compatible(p: Path, q: Path)
    decreases |p|
  {
    p != [] && q != [] && (Numeric(p[0]) <==> Numeric(q[0])) && (SameChild(p[0], q[0]) ==> Compatible(p[1..], q[1..]))
  }

  lemma {:induction false} CompatibleSymmetric(p: Path, q: Path)
    requires Compatible(p, q)
    ensures Compatible(q, p)
    decreases |p|
  {
    if SameChild(p[0], q[0]) {
      CompatibleSymmetric(p[1..], q[1..]);
    }
  }

  lemma ChildOfWith(node: Node, c: string, d: string, child: Node)
    requires Numeric(c) <==> Numeric(d)
    ensures Child(WithChild(node, c, child), d) == if SameChild(c, d) then child else Child(node, d)
  {
  }

  lemma WriteTwice(items: seq<Node>, i: nat, j: nat, a: Node, b: Node)
    ensures i == j ==> Write(Write(items, i, a), j, b) == Write(items, j, b)
    ensures i != j ==> Write(Write(items, i, a), j, b) == Write(Write(items, j, b), i, a)
  {
    var ab, ba := Write(Write(items, i, a), j, b), Write(Write(items, j, b), i, a);
    if i != j {
      assert |ab| == |ba|;
      assert forall k :: 0 <= k < |ab| ==> ab[k] == ba[k];
    }
  }

  lemma WithTwice(node: Node, c: string, d: string, a: Node, b: Node)
    requires Numeric(c) <==> Numeric(d)
    ensures SameChild(c, d) ==> WithChild(WithChild(node, c, a), d, b) == WithChild(node, d, b)
    ensures !SameChild(c, d) ==> WithChild(WithChild(node, c, a), d, b) == WithChild(WithChild(node, d, b), c, a)
  {
    if Numeric(c) {
      WriteTwice(ItemsOf(node), Number(c), Number(d), a, b);
    } else if c != d {
      assert FieldsOf(node)[c := a][d := b] == FieldsOf(node)[d := b][c := a];
    } else {
      assert FieldsOf(node)[c := a][d := b] == FieldsOf(node)[d := b];
    }
  }

  lemma {:induction false} Commute(node: Node, p: Path, v: string, q: Path, w: string)
    requires Compatible(p, q)
    ensures Put(Put(node, p, v), q, w) == Put(Put(node, q, w), p, v)
    decreases |p|
  {
    var c, d := p[0], q[0];
    var a, b := Put(Child(node, c), p[1..], v), Put(Child(node, d), q[1..], w);
    ChildOfWith(node, c, d, a);
    ChildOfWith(node, d, c, b);
    if SameChild(c, d) {
      assert Child(node, c) == Child(node, d);
      Commute(Child(node, c), p[1..], v, q[1..], w);
      var both := Put(a, q[1..], w);
      WithTwice(node, c, d, a, both);
      WithTwice(node, d, c, b, both);
      assert WithChild(node, c, both) == WithChild(node, d, both);
    } else {
      WithTwice(node, c, d, a, b);
    }
  }

  // Both address the same place.
  predicate SamePlace(p: Path, q: Path)
    decreases |p|
  {
    if p == [] || q == [] then p == q else SameChild(p[0], q[0]) && SamePlace(p[1..], q[1..])
  }

  // On any node the order of two writes is irrelevant if and only if their paths are compatible, or
  // they write the same value to the same place.
  lemma {:induction false} CommuteIff(node: Node, p: Path, v: string, q: Path, w: string)
    ensures Put(Put(node, p, v), q, w) == Put(Put(node, q, w), p, v) <==>
      Compatible(p, q) || (SamePlace(p, q) && v == w)
    decreases |p|
  {
    if p != [] && q != [] && (Numeric(p[0]) <==> Numeric(q[0])) {
      if SameChild(p[0], q[0]) {
        CommuteIff(Child(node, p[0]), p[1..], v, q[1..], w);
        SameChildTwice(node, p, v, q, w);
      } else {
        Commute(node, p, v, q, w);
      }
    }
  }

  // Below one child both orders come to writing what both orders make of that child.
  lemma SameChildTwice(node: Node, p: Path, v: string, q: Path, w: string)
    requires p != [] && q != [] && (Numeric(p[0]) <==> Numeric(q[0])) && SameChild(p[0], q[0])
    ensures var child := Child(node, p[0]);
      Put(Put(node, p, v), q, w) == Put(Put(node, q, w), p, v) <==>
        Put(Put(child, p[1..], v), q[1..], w) == Put(Put(child, q[1..], w), p[1..], v)
  {
    var c, d, child := p[0], q[0], Child(node, p[0]);
    assert Child(node, d) == child;
    var a, b := Put(child, p[1..], v), Put(child, q[1..], w);
    var ab, ba := Put(a, q[1..], w), Put(b, p[1..], v);
    ChildOfWith(node, c, d, a);
    ChildOfWith(node, d, c, b);
    WithTwice(node, c, d, a, ab);
    WithTwice(node, d, c, b, ba);
    ChildOfWith(node, d, c, ab);
    ChildOfWith(node, c, c, ba);
    assert WithChild(node, d, ab) == WithChild(node, c, ab);
  }

  // ----- Any order of writes that agree -----

  function PutAll(node: Node, entries: seq<Entry>): Node {
    if entries == [] then node
    else Put(PutAll(node, entries[..|entries| - 1]), entries[|entries| - 1].path, entries[|entries| - 1].value)
  }

  ghost predicate ConflictFree(entries: seq<Entry>) {
    forall i, j :: 0 <= i < j < |entries| ==> Compatible(entries[i].path, entries[j].path)
  }

  // The writes do not get in each other's way, or do the same.
  ghost predicate Agreeing(a: Entry, b: Entry) {
    Compatible(a.path, b.path) || (SamePlace(a.path, b.path) && a.value == b.value)
  }

  ghost predicate AllAgree(entries: seq<Entry>) {
    forall i, j :: 0 <= i < j < |entries| ==> Agreeing(entries[i], entries[j])
  }

  lemma ConflictFreeAgrees(entries: seq<Entry>)
    requires ConflictFree(entries)
    ensures AllAgree(entries)
  {
  }

  lemma {:induction false} PutAllAppend(node: Node, a: seq<Entry>, b: seq<Entry>)
    ensures PutAll(node, a + b) == PutAll(PutAll(node, a), b)
    decreases |b|
  {
    if b == [] {
      assert a + b == a;
    } else {
      PutAllAppend(node, a, b[..|b| - 1]);
      assert (a + b)[..|a + b| - 1] == a + b[..|b| - 1];
    }
  }

  // A write may be put off until after all later ones it agrees with.
  lemma {:induction false} PutLast(node: Node, e: Entry, rest: seq<Entry>)
    requires forall i :: 0 <= i < |rest| ==> Agreeing(e, rest[i])
    ensures PutAll(Put(node, e.path, e.value), rest) == Put(PutAll(node, rest), e.path, e.value)
    decreases |rest|
  {
    if rest != [] {
      var init, last := rest[..|rest| - 1], rest[|rest| - 1];
      PutLast(node, e, init);
      CommuteIff(PutAll(node, init), e.path, e.value, last.path, last.value);
    }
  }

  ghost predicate SameEntries(a: seq<Entry>, b: seq<Entry>) {
    forall e :: Times(a, e) == Times(b, e)
  }

  lemma MoveLast(node: Node, entries: seq<Entry>, i: nat)
    requires i < |entries| && AllAgree(entries)
    ensures PutAll(node, entries) == Put(PutAll(node, Without(entries, i)), entries[i].path, entries[i].value)
  {
    var a, e, b := entries[..i], entries[i], entries[i + 1..];
    assert entries == a + ([e] + b);
    PutAllAppend(node, a, [e] + b);
    PutAllAppend(PutAll(node, a), [e], b);
    PutOne(PutAll(node, a), e);
    PutLast(PutAll(node, a), e, b);
    PutAllAppend(node, a, b);
  }

  function Without(entries: seq<Entry>, i: nat): seq<Entry>
    requires i < |entries|
  {
    entries[..i] + entries[i + 1..]
  }

  lemma PutOne(node: Node, e: Entry)
    ensures PutAll(node, [e]) == Put(node, e.path, e.value)
  {
    assert [e][..0] == [];
  }

  lemma RemoveTimes(entries: seq<Entry>, i: nat, e: Entry)
    requires i < |entries|
    ensures Times(entries, e) == Times(Without(entries, i), e) + if entries[i] == e then 1 else 0
  {
    assert entries == entries[..i] + ([entries[i]] + entries[i + 1..]);
    TimesAppend(entries[..i], [entries[i]] + entries[i + 1..], e);
    TimesAppend([entries[i]], entries[i + 1..], e);
    TimesAppend(entries[..i], entries[i + 1..], e);
  }

  lemma RemoveAgrees(entries: seq<Entry>, i: nat)
    requires i < |entries| && AllAgree(entries)
    ensures AllAgree(Without(entries, i))
  {
  }

  // Writes that agree build one tree in every order.
  lemma {:induction false} OrderDoesNotMatter(node: Node, a: seq<Entry>, b: seq<Entry>)
    requires AllAgree(a) && SameEntries(a, b)
    ensures PutAll(node, a) == PutAll(node, b)
    decreases |b|
  {
    if b == [] {
      if a != [] {
        TimesIn(a, a[0]);
        assert false;
      }
    } else {
      var n := |b| - 1;
      TimesIn(b, b[n]);
      TimesIn(a, b[n]);
      var i :| 0 <= i < |a| && a[i] == b[n];
      var rest := Without(a, i);
      forall e ensures Times(rest, e) == Times(b[..n], e) {
        RemoveTimes(a, i, e);
        RemoveTimes(b, n, e);
        assert Without(b, n) == b[..n];
      }
      RemoveAgrees(a, i);
      OrderDoesNotMatter(node, rest, b[..n]);
      MoveLast(node, a, i);
    }
  }

  ghost predicate OrderSettled(node: Node, entries: seq<Entry>) {
    forall other {:trigger SameEntries(entries, other)} ::
      SameEntries(entries, other) ==> PutAll(node, other) == PutAll(node, entries)
  }

  lemma TwoMore(rest: seq<Entry>, x: Entry, y: Entry, e: Entry)
    ensures Times(rest + [x] + [y], e) == Times(rest, e) + (if x == e then 1 else 0) + (if y == e then 1 else 0)
  {
    TimesAppend(rest + [x], [y], e);
    TimesAppend(rest, [x], e);
  }

  // All but two of the writes.
  function Others(entries: seq<Entry>, i: nat, j: nat): seq<Entry>
    requires i < j < |entries|
  {
    Without(Without(entries, j), i)
  }

  lemma OthersTimes(entries: seq<Entry>, i: nat, j: nat, e: Entry)
    requires i < j < |entries|
    ensures Times(entries, e) ==
      Times(Others(entries, i, j), e) + (if entries[i] == e then 1 else 0) + (if entries[j] == e then 1 else 0)
  {
    RemoveTimes(entries, j, e);
    RemoveTimes(Without(entries, j), i, e);
  }

  // Two of the writes put last, in either order.
  lemma PairLast(entries: seq<Entry>, i: nat, j: nat)
    requires i < j < |entries|
    ensures SameEntries(entries, Others(entries, i, j) + [entries[i]] + [entries[j]])
    ensures SameEntries(entries, Others(entries, i, j) + [entries[j]] + [entries[i]])
  {
    var x, y, rest := entries[i], entries[j], Others(entries, i, j);
    forall e ensures Times(entries, e) == Times(rest + [x] + [y], e) == Times(rest + [y] + [x], e) {
      OthersTimes(entries, i, j, e);
      TwoMore(rest, x, y, e);
      TwoMore(rest, y, x, e);
    }
  }

  lemma SettledPairCommutes(node: Node, entries: seq<Entry>, i: nat, j: nat)
    requires i < j < |entries| && OrderSettled(node, entries)
    ensures Agreeing(entries[i], entries[j])
  {
    PairLast(entries, i, j);
    SwapAgrees(node, Others(entries, i, j), entries[i], entries[j]);
  }

  lemma SwapAgrees(node: Node, rest: seq<Entry>, x: Entry, y: Entry)
    requires PutAll(node, rest + [x] + [y]) == PutAll(node, rest + [y] + [x])
    ensures Agreeing(x, y)
  {
    PutTwo(node, rest, x, y);
    PutTwo(node, rest, y, x);
    CommuteIff(PutAll(node, rest), x.path, x.value, y.path, y.value);
  }

  lemma PutTwo(node: Node, rest: seq<Entry>, x: Entry, y: Entry)
    ensures PutAll(node, rest + [x] + [y]) == Put(Put(PutAll(node, rest), x.path, x.value), y.path, y.value)
  {
    PutAllAppend(node, rest + [x], [y]);
    PutAllAppend(node, rest, [x]);
    PutOne(PutAll(node, rest), x);
    PutOne(Put(PutAll(node, rest), x.path, x.value), y);
  }

  // All orders of the writes build one tree if and only if every two of them agree.
  lemma OrderSettledIff(node: Node, entries: seq<Entry>)
    ensures OrderSettled(node, entries) <==> AllAgree(entries)
  {
    if AllAgree(entries) {
      forall other | SameEntries(entries, other) ensures PutAll(node, other) == PutAll(node, entries) {
        OrderDoesNotMatter(node, entries, other);
      }
    }
    if OrderSettled(node, entries) {
      forall i, j | 0 <= i < j < |entries| ensures Agreeing(entries[i], entries[j]) {
        SettledPairCommutes(node, entries, i, j);
      }
    }
  }

  // Conflicting paths do depend on it: an index and a name under one node.
  lemma ConflictsDependOnOrder(v: string, w: string)
    ensures !Compatible(["0"], ["a"])
    ensures Put(Put(Nil, ["0"], v), ["a"], w) == Obj(map["a" := Leaf(w)])
    ensures Put(Put(Nil, ["a"], w), ["0"], v) == Arr([Leaf(v)])
  {
    assert Numeric("0") && "a"[0] == 'a' && !Numeric("a");
    assert "0"[..0] == "" && Number("0") == 0;
    assert ["0"][1..] == [] && ["a"][1..] == [];
  }
}

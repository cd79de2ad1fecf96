// Rebuilding is the inverse of flattening: the loop over sorted attribute keys, and the round trip.
module FlattenRoundTrip {
  import opened Prelude
  import opened Seqs
  import opened Order
  import opened Flatten

  // ----- Dotted keys -----

  function Split(s: string): (path: Path)
    ensures path != []
  {
    if s == "" then [""]
    else if s[0] == '.' then [""] + Split(s[1..])
    else
      var rest := Split(s[1..]);
      [[s[0]] + rest[0]] + rest[1..]
  }

  function Join(path: Path): string
    requires path != []
  {
    if |path| == 1 then path[0] else path[0] + "." + Join(path[1..])
  }

  predicate DotFree(c: string) {
    '.' !in c
  }

  lemma {:induction false} SplitWord(c: string)
    requires DotFree(c)
    ensures Split(c) == [c]
  {
    if c != "" {
      assert c == [c[0]] + c[1..];
      SplitWord(c[1..]);
    }
  }

  lemma {:induction false} SplitAtDot(c: string, rest: string)
    requires DotFree(c)
    ensures Split(c + "." + rest) == [c] + Split(rest)
  {
    var s := c + "." + rest;
    if c == "" {
      assert s[0] == '.' && s[1..] == rest;
    } else {
      assert c == [c[0]] + c[1..];
      assert s[1..] == c[1..] + "." + rest;
      SplitAtDot(c[1..], rest);
    }
  }

  lemma {:induction false} SplitUndoesJoin(path: Path)
    requires path != [] && forall i :: 0 <= i < |path| ==> DotFree(path[i])
    ensures Split(Join(path)) == path
    decreases |path|
  {
    if |path| == 1 {
      SplitWord(path[0]);
    } else {
      SplitUndoesJoin(path[1..]);
      SplitAtDot(path[0], Join(path[1..]));
    }
  }

  lemma JoinCons(c: char, path: Path)
    requires path != []
    ensures Join([[c] + path[0]] + path[1..]) == [c] + Join(path)
  {
    JoinHead(path[0], path);
    JoinHead([c] + path[0], path);
    assert [path[0]] + path[1..] == path;
    Associates([c], path[0], Tail(path));
  }

  lemma Associates(a: string, b: string, c: string)
    ensures (a + b) + c == a + (b + c)
  {
  }

  // What follows the first component.
  function Tail(path: Path): string
    requires path != []
  {
    if |path| == 1 then "" else "." + Join(path[1..])
  }

  lemma JoinHead(w: string, path: Path)
    requires path != []
    ensures Join([w] + path[1..]) == w + Tail(path)
  {
    assert ([w] + path[1..])[1..] == path[1..];
    if |path| > 1 {
      assert w + "." + Join(path[1..]) == w + ("." + Join(path[1..]));
    }
  }

  lemma JoinEmpty(path: Path)
    requires path != []
    ensures Join([""] + path) == "." + Join(path)
  {
    assert ([""] + path)[1..] == path;
    assert "" + "." + Join(path) == "." + Join(path);
  }

  lemma {:induction false} JoinUndoesSplit(s: string)
    ensures Join(Split(s)) == s
  {
    if s != "" {
      JoinUndoesSplit(s[1..]);
      JoinCons(s[0], Split(s[1..]));
      JoinEmpty(Split(s[1..]));
      assert s == [s[0]] + s[1..];
    }
  }

  // ----- rebuildIndexed -----

  datatype Rebuilt = Absent | Rejected | Built(node: Node)

  type Attrs = map<string, string>

  predicate Matches(prefix: string, key: string) {
    |key| > |prefix| + 1 && key[..|prefix| + 1] == prefix + "."
  }

  function Matching(attrs: Attrs, prefix: string): set<string> {
    set key | key in attrs && Matches(prefix, key)
  }

  function EntryOf(attrs: Attrs, prefix: string, key: string): Entry
    requires key in attrs && Matches(prefix, key)
  {
    Entry(Split(key[|prefix| + 1..]), attrs[key])
  }

  function EntriesOf(attrs: Attrs, prefix: string, keys: seq<string>): seq<Entry>
    requires forall key :: key in keys ==> key in attrs && Matches(prefix, key)
  {
    seq(|keys|, i requires 0 <= i < |keys| => EntryOf(attrs, prefix, keys[i]))
  }

  ghost predicate AllOk(entries: seq<Entry>) {
    forall i :: 0 <= i < |entries| ==> PathOk(entries[i].path)
  }

  // What writing the entries in this order gives.
  ghost function RebuildFrom(entries: seq<Entry>): Rebuilt {
    if entries == [] then Absent else if AllOk(entries) then Built(PutAll(Nil, entries)) else Rejected
  }

  // One key of the loop.
  method SetOne(node: Node, e: Entry, ghost start: Node, ghost entries: seq<Entry>) returns (result: Option<Node>)
    requires AllOk(entries) && node == PutAll(start, entries)
    ensures result.Some? <==> PathOk(e.path)
    ensures result.Some? ==> AllOk(entries + [e]) && result.value == PutAll(start, entries + [e])
  {
    result := SetPath(node, e.path, e.value);
    SetPathIsPut(node, e.path, e.value);
    assert (entries + [e])[..|entries|] == entries;
  }

  // The matching keys in the order that sorting gives them.
  ghost predicate InKeyOrder(attrs: Attrs, prefix: string, order: seq<string>) {
    && (forall key :: key in order ==> key in attrs && Matches(prefix, key))
    && Enumerates(order, Matching(attrs, prefix)) && Sorted(StrLeq, order)
  }

  // Collects the matching keys, sorts them and writes them one by one.
  method RebuildIndexed(attrs: Attrs, prefix: string) returns (result: Rebuilt)
    ensures exists order :: InKeyOrder(attrs, prefix, order) && result == RebuildFrom(EntriesOf(attrs, prefix, order))
  {
    var keys := CollectKeys(attrs, prefix);
    keys := SortKeys(keys, Matching(attrs, prefix));
    result := Assemble(attrs, prefix, keys);
    assert InKeyOrder(attrs, prefix, keys);
  }

  // The writing loop.
  method Assemble(attrs: Attrs, prefix: string, keys: seq<string>) returns (result: Rebuilt)
    requires forall key :: key in keys ==> key in attrs && Matches(prefix, key)
    ensures result == RebuildFrom(EntriesOf(attrs, prefix, keys))
  {
    if keys == [] {
      return Absent;
    }
    var node := Nil;
    ghost var entries := EntriesOf(attrs, prefix, keys);
    for i := 0 to |keys|
      invariant AllOk(entries[..i]) && node == PutAll(Nil, entries[..i])
    {
      assert entries[..i + 1] == entries[..i] + [entries[i]];
      var written := SetOne(node, EntryOf(attrs, prefix, keys[i]), Nil, entries[..i]);
      if written.None? {
        assert !PathOk(entries[i].path);
        return Rejected;
      }
      node := written.value;
    }
    assert entries[..|keys|] == entries;
    result := Built(node);
  }

  method CollectKeys(attrs: Attrs, prefix: string) returns (keys: seq<string>)
    ensures Enumerates(keys, Matching(attrs, prefix))
  {
    keys := [];
    var remaining := attrs.Keys;
    ghost var done: set<string> := {};
    while remaining != {}
      invariant done !! remaining && done + remaining == attrs.Keys
      invariant Enumerates(keys, Matching(attrs, prefix) * done)
      decreases remaining
    {
      var key :| key in remaining;
      if Matches(prefix, key) {
        DistinctAppend(keys, Matching(attrs, prefix) * done, key);
        assert Matching(attrs, prefix) * (done + {key}) == Matching(attrs, prefix) * done + {key};
        keys := keys + [key];
      } else {
        assert Matching(attrs, prefix) * (done + {key}) == Matching(attrs, prefix) * done;
      }
      remaining, done := remaining - {key}, done + {key};
    }
    assert Matching(attrs, prefix) * done == Matching(attrs, prefix);
  }

  lemma StrPreorder()
    ensures Preorder(StrLeq)
  {
    forall a, b ensures StrLeq(a, b) || StrLeq(b, a) { StrTotal(a, b); }
    forall a, b, c | StrLeq(a, b) && StrLeq(b, c) ensures StrLeq(a, c) { StrTransitive(a, b, c); }
  }

  lemma {:induction false} DistinctTimes<T>(xs: seq<T>, x: T)
    requires Distinct(xs)
    ensures Times(xs, x) == if x in xs then 1 else 0
  {
    if xs != [] {
      DistinctTimes(xs[1..], x);
      TimesIn(xs[1..], xs[0]);
      assert xs == [xs[0]] + xs[1..];
    }
  }

  lemma {:induction false} OnceIsDistinct<T>(xs: seq<T>)
    requires forall x :: Times(xs, x) <= 1
    ensures Distinct(xs)
  {
    if xs != [] {
      forall x ensures Times(xs[1..], x) <= 1 {
        assert Times(xs, x) <= 1;
      }
      OnceIsDistinct(xs[1..]);
      assert Times(xs, xs[0]) <= 1;
      TimesIn(xs[1..], xs[0]);
    }
  }

  // sort.Strings.
  method SortKeys(keys: seq<string>, ghost all: set<string>) returns (sorted: seq<string>)
    requires Enumerates(keys, all)
    ensures Enumerates(sorted, all) && Sorted(StrLeq, sorted)
  {
    sorted := Sort(StrLeq, keys);
    StrPreorder();
    SortSorts(StrLeq, keys);
    SortMembers(StrLeq, keys);
    forall key ensures Times(sorted, key) <= 1 {
      SortTimes(StrLeq, keys, key);
      DistinctTimes(keys, key);
    }
    OnceIsDistinct(sorted);
  }

  // ----- Conflict-free attributes: the order of the keys is irrelevant -----

  lemma EntriesDistinct(attrs: Attrs, prefix: string, keys: seq<string>)
    requires Enumerates(keys, Matching(attrs, prefix))
    ensures Distinct(EntriesOf(attrs, prefix, keys))
  {
    var entries, n := EntriesOf(attrs, prefix, keys), |prefix| + 1;
    forall i, j | 0 <= i < j < |keys| ensures entries[i] != entries[j] {
      assert keys[i] in Matching(attrs, prefix) && keys[j] in Matching(attrs, prefix);
      JoinUndoesSplit(keys[i][n..]);
      JoinUndoesSplit(keys[j][n..]);
      assert keys[i] == keys[i][..n] + keys[i][n..] && keys[j] == keys[j][..n] + keys[j][n..];
    }
  }

  lemma EntriesMembers(attrs: Attrs, prefix: string, keys: seq<string>, e: Entry)
    requires Enumerates(keys, Matching(attrs, prefix))
    ensures e in EntriesOf(attrs, prefix, keys) <==>
      exists key :: key in Matching(attrs, prefix) && e == EntryOf(attrs, prefix, key)
  {
    var entries := EntriesOf(attrs, prefix, keys);
    if e in entries {
      var i :| 0 <= i < |entries| && entries[i] == e;
      assert keys[i] in Matching(attrs, prefix) && e == EntryOf(attrs, prefix, keys[i]);
    }
    if key :| key in Matching(attrs, prefix) && e == EntryOf(attrs, prefix, key) {
      var i :| 0 <= i < |keys| && keys[i] == key;
      assert entries[i] == e;
    }
  }

  lemma SameKeysSameEntries(attrs: Attrs, prefix: string, a: seq<string>, b: seq<string>)
    requires Enumerates(a, Matching(attrs, prefix)) && Enumerates(b, Matching(attrs, prefix))
    ensures SameEntries(EntriesOf(attrs, prefix, a), EntriesOf(attrs, prefix, b))
  {
    EntriesDistinct(attrs, prefix, a);
    EntriesDistinct(attrs, prefix, b);
    forall e ensures Times(EntriesOf(attrs, prefix, a), e) == Times(EntriesOf(attrs, prefix, b), e) {
      EntriesMembers(attrs, prefix, a, e);
      EntriesMembers(attrs, prefix, b, e);
      DistinctTimes(EntriesOf(attrs, prefix, a), e);
      DistinctTimes(EntriesOf(attrs, prefix, b), e);
    }
  }

  lemma RebuildSame(a: seq<Entry>, b: seq<Entry>)
    requires AllAgree(a) && SameEntries(a, b)
    ensures RebuildFrom(a) == RebuildFrom(b)
  {
    forall e ensures e in a <==> e in b {
      TimesIn(a, e);
      TimesIn(b, e);
    }
    if a != [] {
      assert a[0] in b;
    }
    if b != [] {
      assert b[0] in a;
    }
    if AllOk(a) {
      forall i | 0 <= i < |b| ensures PathOk(b[i].path) {
        assert b[i] in a;
      }
    }
    if AllOk(b) {
      forall i | 0 <= i < |a| ensures PathOk(a[i].path) {
        assert a[i] in b;
      }
    }
    OrderDoesNotMatter(Nil, a, b);
  }

  // Sorting puts "10" before "2", but when the attributes agree, any visiting order rebuilds the same
  // tree, or fails alike.
  lemma KeyOrderDoesNotMatter(attrs: Attrs, prefix: string, a: seq<string>, b: seq<string>)
    requires Enumerates(a, Matching(attrs, prefix)) && Enumerates(b, Matching(attrs, prefix))
    requires AllAgree(EntriesOf(attrs, prefix, a))
    ensures RebuildFrom(EntriesOf(attrs, prefix, a)) == RebuildFrom(EntriesOf(attrs, prefix, b))
  {
    SameKeysSameEntries(attrs, prefix, a, b);
    RebuildSame(EntriesOf(attrs, prefix, a), EntriesOf(attrs, prefix, b));
  }

  // ----- Flattening -----

  function Digits(n: nat): string {
    (if n < 10 then "" else Digits(n / 10)) + [('0' as int + n % 10) as char]
  }

  lemma {:induction false} DigitsAreNumeric(n: nat)
    ensures Numeric(Digits(n)) && Number(Digits(n)) == n && DotFree(Digits(n))
  {
    var last := ('0' as int + n % 10) as char;
    var init := if n < 10 then "" else Digits(n / 10);
    if n >= 10 {
      DigitsAreNumeric(n / 10);
    }
    assert Digits(n)[..|Digits(n)| - 1] == init;
  }

  predicate GoodKey(key: string) {
    key != "" && DotFree(key) && !Numeric(key)
  }

  // Trees of non-empty arrays within the index limit and of non-empty objects with plain keys.
  ghost predicate Proper(t: Node) {
    match t
    case Nil => false
    case Leaf(_) => true
    case Arr(items) => 0 < |items| <= MAX_INDEX + 1 && forall i :: 0 <= i < |items| ==> Proper(items[i])
    case Obj(fields) => fields != map[] && forall key :: key in fields ==> GoodKey(key) && Proper(fields[key])
  }

  function Under(c: string, entries: seq<Entry>): seq<Entry> {
    seq(|entries|, i requires 0 <= i < |entries| => Entry([c] + entries[i].path, entries[i].value))
  }

  ghost function Pick(keys: set<string>): string
    requires keys != {}
    ensures Pick(keys) in keys
  {
    var key :| key in keys; key
  }

  // The dotted paths of a tree: one for each leaf.
  ghost function Leaves(t: Node): seq<Entry>
    decreases t, 1, 0
  {
    match t
    case Nil => []
    case Leaf(v) => [Entry([], v)]
    case Arr(items) => ItemLeaves(t, |items|)
    case Obj(fields) => FieldLeaves(t, fields.Keys)
  }

  ghost function ItemLeaves(t: Node, n: nat): seq<Entry>
    requires t.Arr? && n <= |t.items|
    decreases t, 0, n
  {
    if n == 0 then [] else ItemLeaves(t, n - 1) + Under(Digits(n - 1), Leaves(t.items[n - 1]))
  }

  ghost function FieldLeaves(t: Node, keys: set<string>): seq<Entry>
    requires t.Obj? && keys <= t.fields.Keys
    decreases t, 0, |keys|
  {
    if keys == {} then []
    else FieldLeaves(t, keys - {Pick(keys)}) + Under(Pick(keys), Leaves(t.fields[Pick(keys)]))
  }

  // Writing below one child only changes that child.
  lemma {:induction false} Descend(node: Node, c: string, entries: seq<Entry>)
    requires entries != []
    ensures PutAll(node, Under(c, entries)) == WithChild(node, c, PutAll(Child(node, c), entries))
    decreases |entries|
  {
    var init, last := entries[..|entries| - 1], entries[|entries| - 1];
    var under := Under(c, entries);
    assert under[..|under| - 1] == Under(c, init);
    assert ([c] + last.path)[0] == c && ([c] + last.path)[1..] == last.path;
    if init == [] {
      assert PutAll(node, Under(c, init)) == node;
    } else {
      Descend(node, c, init);
      var child := PutAll(Child(node, c), init);
      ChildOfWith(node, c, c, child);
      WithTwice(node, c, c, child, Put(child, last.path, last.value));
    }
  }

  // The tree that paths build.
  function Grown(entries: seq<Entry>): Node {
    PutAll(Nil, entries)
  }

  // Writing all paths of a tree, in their natural order, rebuilds it.
  lemma {:induction false} Build(t: Node)
    requires Proper(t)
    ensures Grown(Leaves(t)) == t
    decreases t, 1, 0
  {
    assert PutAll(Nil, []) == Nil;
    match t
    case Leaf(v) =>
      assert [Entry([], v)][..0] == [];
    case Arr(items) =>
      forall i | 0 <= i < |items| ensures items[i] != Nil && Grown(Leaves(items[i])) == items[i] {
        Build(items[i]);
      }
      BuildItems(t);
      assert items[..|items|] == items;
    case Obj(fields) =>
      assert fields.Keys != {} by { assert exists key :: key in fields; }
      BuildFields(t, fields.Keys);
      assert (map key | key in fields.Keys :: fields[key]) == fields;
  }

  // The first n items of an array, as far as they have been written.
  function FirstItems(t: Node, n: nat): Node
    requires t.Arr? && n <= |t.items|
  {
    if n == 0 then Nil else Arr(t.items[..n])
  }

  lemma NextItem(t: Node, n: nat, c: string)
    requires t.Arr? && n < |t.items| && Numeric(c) && Number(c) == n
    ensures Child(FirstItems(t, n), c) == Nil
    ensures WithChild(FirstItems(t, n), c, t.items[n]) == FirstItems(t, n + 1)
  {
    assert Write(ItemsOf(FirstItems(t, n)), n, t.items[n]) == t.items[..n + 1];
  }

  // A part's paths build the item that its name says.
  ghost predicate IsItem(t: Node, n: nat, name: string, part: seq<Entry>)
    requires t.Arr? && n < |t.items|
  {
    Numeric(name) && Number(name) == n && part != [] && Grown(part) == t.items[n]
  }

  lemma AttachItem(t: Node, n: nat, c: string, entries: seq<Entry>, sub: seq<Entry>)
    requires t.Arr? && n < |t.items| && IsItem(t, n, c, sub)
    requires Grown(entries) == FirstItems(t, n)
    ensures Grown(entries + Under(c, sub)) == FirstItems(t, n + 1)
  {
    PutAllAppend(Nil, entries, Under(c, sub));
    NextItem(t, n, c);
    Descend(FirstItems(t, n), c, sub);
  }

  // The paths of the first items, as they grow by one item after another.
  ghost predicate Grows(t: Node, names: seq<string>, parts: seq<seq<Entry>>, paths: seq<seq<Entry>>)
    requires t.Arr? && |names| == |parts| == |t.items| == |paths| - 1
  {
    && paths[0] == []
    && (forall i :: 0 <= i < |t.items| ==> IsItem(t, i, names[i], parts[i]))
    && (forall i :: 0 <= i < |t.items| ==> paths[i + 1] == paths[i] + Under(names[i], parts[i]))
  }

  lemma {:induction false} BuildFirst(t: Node, names: seq<string>, parts: seq<seq<Entry>>, paths: seq<seq<Entry>>,
                                      n: nat)
    requires t.Arr? && |names| == |parts| == |t.items| == |paths| - 1 && n <= |t.items|
    requires Grows(t, names, parts, paths)
    ensures Grown(paths[n]) == FirstItems(t, n)
  {
    if n > 0 {
      BuildFirst(t, names, parts, paths, n - 1);
      AttachItem(t, n - 1, names[n - 1], paths[n - 1], parts[n - 1]);
    }
  }

  lemma BuildItems(t: Node)
    requires t.Arr?
    requires forall i :: 0 <= i < |t.items| ==> t.items[i] != Nil && Grown(Leaves(t.items[i])) == t.items[i]
    ensures Grown(Leaves(t)) == FirstItems(t, |t.items|)
  {
    var n := |t.items|;
    var names := seq(n, i requires 0 <= i < n => Digits(i));
    var parts := seq(n, i requires 0 <= i < n => Leaves(t.items[i]));
    var paths := seq(n + 1, i requires 0 <= i <= n => ItemLeaves(t, i));
    forall i | 0 <= i < n ensures IsItem(t, i, names[i], parts[i]) {
      DigitsAreNumeric(i);
    }
    BuildFirst(t, names, parts, paths, n);
  }

  // The fields with these keys, as far as they have been written.
  function SomeFields(t: Node, keys: set<string>): Node
    requires t.Obj? && keys <= t.fields.Keys
  {
    if keys == {} then Nil else Obj(map key | key in keys :: t.fields[key])
  }

  lemma NextField(t: Node, keys: set<string>, key: string)
    requires t.Obj? && keys <= t.fields.Keys && key in t.fields && key !in keys && !Numeric(key)
    ensures Child(SomeFields(t, keys), key) == Nil
    ensures WithChild(SomeFields(t, keys), key, t.fields[key]) == SomeFields(t, keys + {key})
  {
    var want := map k | k in keys + {key} :: t.fields[k];
    var got := FieldsOf(SomeFields(t, keys))[key := t.fields[key]];
    assert got.Keys == want.Keys;
    assert got == want;
  }

  lemma {:induction false} BuildFields(t: Node, keys: set<string>)
    requires t.Obj? && Proper(t) && keys <= t.fields.Keys
    ensures PutAll(Nil, FieldLeaves(t, keys)) == SomeFields(t, keys)
    decreases t, 0, |keys|
  {
    if keys != {} {
      var key := Pick(keys);
      var rest, value := keys - {key}, t.fields[key];
      BuildFields(t, rest);
      Build(value);
      PutAllAppend(Nil, FieldLeaves(t, rest), Under(key, Leaves(value)));
      NextField(t, rest, key);
      Descend(SomeFields(t, rest), key, Leaves(value));
      assert rest + {key} == keys;
    }
  }

  // ----- The paths of a tree never conflict -----

  // Every path starts with a child of the node, and is within limits and dot-free.
  ghost predicate CleanPath(path: Path) {
    PathOk(path) && forall i :: 0 <= i < |path| ==> DotFree(path[i])
  }

  ghost predicate Clean(entries: seq<Entry>) {
    ConflictFree(entries) && forall i :: 0 <= i < |entries| ==> CleanPath(entries[i].path)
  }

  lemma UnderClean(c: string, entries: seq<Entry>)
    requires Clean(entries) && IndexOk(c) && DotFree(c)
    ensures Clean(Under(c, entries))
  {
    var under := Under(c, entries);
    forall i, j | 0 <= i < j < |under| ensures Compatible(under[i].path, under[j].path) {
      assert under[i].path[1..] == entries[i].path && under[j].path[1..] == entries[j].path;
    }
    forall i | 0 <= i < |under| ensures CleanPath(under[i].path) {
      var path := under[i].path;
      forall k | 0 <= k < |path| ensures IndexOk(path[k]) && DotFree(path[k]) {
        assert k > 0 ==> path[k] == entries[i].path[k - 1];
      }
    }
  }

  // All paths start with a component of the same kind as c that names another child.
  ghost predicate Beside(c: string, entries: seq<Entry>) {
    forall i :: 0 <= i < |entries| ==>
      entries[i].path != [] && (Numeric(entries[i].path[0]) <==> Numeric(c)) && !SameChild(entries[i].path[0], c)
  }

  lemma CleanTogether(c: string, a: seq<Entry>, b: seq<Entry>)
    requires Clean(a) && Clean(b) && IndexOk(c) && DotFree(c) && Beside(c, a)
    ensures Clean(a + Under(c, b))
  {
    UnderClean(c, b);
    var all := a + Under(c, b);
    forall i, j | 0 <= i < j < |all| ensures Compatible(all[i].path, all[j].path) {
      if i < |a| && |a| <= j {
        assert all[i] == a[i] && all[j] == Under(c, b)[j - |a|];
      } else if j < |a| {
        assert all[i] == a[i] && all[j] == a[j];
      } else {
        assert all[i] == Under(c, b)[i - |a|] && all[j] == Under(c, b)[j - |a|];
      }
    }
  }

  lemma BesideTogether(c: string, a: seq<Entry>, b: seq<Entry>)
    requires Beside(c, a) && Beside(c, b)
    ensures Beside(c, a + b)
  {
  }

  lemma OtherIndexBeside(c: string, d: string, entries: seq<Entry>)
    requires Numeric(c) && Numeric(d) && Number(c) != Number(d)
    ensures Beside(c, Under(d, entries))
  {
    assert !SameChild(d, c);
  }

  lemma ItemBeside(m: nat, k: nat, entries: seq<Entry>)
    requires k < m
    ensures Beside(Digits(m), Under(Digits(k), entries))
  {
    DigitsAreNumeric(m);
    DigitsAreNumeric(k);
    OtherIndexBeside(Digits(m), Digits(k), entries);
  }

  lemma {:induction false} ItemsBeside(t: Node, n: nat, m: nat)
    requires t.Arr? && n <= |t.items| && n <= m
    ensures Beside(Digits(m), ItemLeaves(t, n))
    decreases n
  {
    if n > 0 {
      ItemsBeside(t, n - 1, m);
      ItemBeside(m, n - 1, Leaves(t.items[n - 1]));
      BesideTogether(Digits(m), ItemLeaves(t, n - 1), Under(Digits(n - 1), Leaves(t.items[n - 1])));
    }
  }

  lemma {:induction false} FieldsBeside(t: Node, keys: set<string>, key: string)
    requires t.Obj? && keys <= t.fields.Keys && key !in keys && !Numeric(key)
    requires forall k :: k in keys ==> !Numeric(k)
    ensures Beside(key, FieldLeaves(t, keys))
    decreases |keys|
  {
    if keys != {} {
      FieldsBeside(t, keys - {Pick(keys)}, key);
    }
  }

  lemma {:induction false} LeavesClean(t: Node)
    requires Proper(t)
    ensures Clean(Leaves(t))
    decreases t, 1, 0
  {
    match t
    case Leaf(_) =>
    case Arr(items) => ItemsClean(t, |items|);
    case Obj(fields) => FieldsClean(t, fields.Keys);
  }

  lemma {:induction false} ItemsClean(t: Node, n: nat)
    requires t.Arr? && Proper(t) && n <= |t.items|
    ensures Clean(ItemLeaves(t, n))
    decreases t, 0, n
  {
    if n > 0 {
      ItemsClean(t, n - 1);
      LeavesClean(t.items[n - 1]);
      DigitsAreNumeric(n - 1);
      ItemsBeside(t, n - 1, n - 1);
      CleanTogether(Digits(n - 1), ItemLeaves(t, n - 1), Leaves(t.items[n - 1]));
    }
  }

  lemma {:induction false} FieldsClean(t: Node, keys: set<string>)
    requires t.Obj? && Proper(t) && keys <= t.fields.Keys
    ensures Clean(FieldLeaves(t, keys))
    decreases t, 0, |keys|
  {
    if keys != {} {
      var key := Pick(keys);
      FieldsClean(t, keys - {key});
      LeavesClean(t.fields[key]);
      FieldsBeside(t, keys - {key}, key);
      CleanTogether(key, FieldLeaves(t, keys - {key}), Leaves(t.fields[key]));
    }
  }

  // ----- The round trip -----

  function Key(prefix: string, path: Path): string
    requires path != []
  {
    prefix + "." + Join(path)
  }

  // Below the prefix, the attributes are the flattened tree and nothing else.
  ghost predicate Flattens(attrs: Attrs, prefix: string, t: Node) {
    && (forall e :: e in Leaves(t) ==>
      e.path != [] && Key(prefix, e.path) in attrs && attrs[Key(prefix, e.path)] == e.value)
    && (forall key :: key in Matching(attrs, prefix) ==>
      exists e :: e in Leaves(t) && e.path != [] && key == Key(prefix, e.path))
  }

  lemma {:induction false} NeverBesideItself(path: Path)
    ensures !Compatible(path, path)
    decreases |path|
  {
    if path != [] {
      NeverBesideItself(path[1..]);
    }
  }

  lemma ConflictFreeDistinct(entries: seq<Entry>)
    requires ConflictFree(entries)
    ensures Distinct(entries)
  {
    forall i, j | 0 <= i < j < |entries| ensures entries[i] != entries[j] {
      NeverBesideItself(entries[i].path);
    }
  }

  // A leaf's key is matched, and splits back into its path.
  lemma KeyReadsBack(attrs: Attrs, prefix: string, e: Entry)
    requires CleanPath(e.path) && e.path != [] && e.path[0] != ""
    requires Key(prefix, e.path) in attrs && attrs[Key(prefix, e.path)] == e.value
    ensures Key(prefix, e.path) in Matching(attrs, prefix) && EntryOf(attrs, prefix, Key(prefix, e.path)) == e
  {
    var key := Key(prefix, e.path);
    SplitUndoesJoin(e.path);
    assert |Join(e.path)| > 0;
    assert key[..|prefix| + 1] == prefix + "." && key[|prefix| + 1..] == Join(e.path);
  }

  ghost predicate Headed(entries: seq<Entry>) {
    forall i :: 0 <= i < |entries| ==> entries[i].path != [] && entries[i].path[0] != ""
  }

  lemma HeadedUnder(before: seq<Entry>, c: string, below: seq<Entry>)
    requires Headed(before) && c != ""
    ensures Headed(before + Under(c, below))
  {
    assert forall i :: 0 <= i < |below| ==> Under(c, below)[i].path[0] == c;
  }

  lemma {:induction false} ItemsHeaded(t: Node, n: nat)
    requires t.Arr? && n <= |t.items|
    ensures Headed(ItemLeaves(t, n))
    decreases n
  {
    if n > 0 {
      ItemsHeaded(t, n - 1);
      HeadedUnder(ItemLeaves(t, n - 1), Digits(n - 1), Leaves(t.items[n - 1]));
    }
  }

  lemma {:induction false} FieldsHeaded(t: Node, keys: set<string>)
    requires t.Obj? && keys <= t.fields.Keys && "" !in keys
    ensures Headed(FieldLeaves(t, keys))
    decreases |keys|
  {
    if keys != {} {
      FieldsHeaded(t, keys - {Pick(keys)});
      HeadedUnder(FieldLeaves(t, keys - {Pick(keys)}), Pick(keys), Leaves(t.fields[Pick(keys)]));
    }
  }

  lemma LeafRead(attrs: Attrs, prefix: string, t: Node, e: Entry)
    requires Proper(t) && !t.Leaf? && Flattens(attrs, prefix, t) && e in Leaves(t)
    ensures e.path != [] && Key(prefix, e.path) in Matching(attrs, prefix)
      && EntryOf(attrs, prefix, Key(prefix, e.path)) == e
  {
    LeavesClean(t);
    if t.Arr? {
      ItemsHeaded(t, |t.items|);
    } else {
      FieldsHeaded(t, t.fields.Keys);
    }
    var i :| 0 <= i < |Leaves(t)| && Leaves(t)[i] == e;
    KeyReadsBack(attrs, prefix, e);
  }

  lemma EntriesAreLeaves(attrs: Attrs, prefix: string, t: Node, keys: seq<string>, e: Entry)
    requires Proper(t) && !t.Leaf? && Flattens(attrs, prefix, t) && Enumerates(keys, Matching(attrs, prefix))
    ensures e in Leaves(t) <==> e in EntriesOf(attrs, prefix, keys)
  {
    EntriesMembers(attrs, prefix, keys, e);
    if e in Leaves(t) {
      LeafRead(attrs, prefix, t, e);
    }
    if key :| key in Matching(attrs, prefix) && e == EntryOf(attrs, prefix, key) {
      var e' :| e' in Leaves(t) && e'.path != [] && key == Key(prefix, e'.path);
      LeafRead(attrs, prefix, t, e');
    }
  }

  // Rebuilding the dotted paths of a tree, in any order of the keys and so in sorted order, returns
  // the tree.
  lemma RoundTrip(attrs: Attrs, prefix: string, t: Node, keys: seq<string>)
    requires Proper(t) && !t.Leaf? && Flattens(attrs, prefix, t) && Enumerates(keys, Matching(attrs, prefix))
    ensures RebuildFrom(EntriesOf(attrs, prefix, keys)) == Built(t)
  {
    var entries := EntriesOf(attrs, prefix, keys);
    Build(t);
    LeavesClean(t);
    ConflictFreeDistinct(Leaves(t));
    ConflictFreeAgrees(Leaves(t));
    EntriesDistinct(attrs, prefix, keys);
    forall e ensures Times(Leaves(t), e) == Times(entries, e) {
      EntriesAreLeaves(attrs, prefix, t, keys, e);
      DistinctTimes(Leaves(t), e);
      DistinctTimes(entries, e);
    }
    RebuildSame(Leaves(t), entries);
  }

  lemma SortedOrderIsNotIndexOrder()
    ensures StrLeq("10", "2") && Number("10") > Number("2")
  {
    assert "10"[..1] == "1" && "1"[..0] == "" && "2"[..0] == "";
    assert Number("1") == 1;
  }
}

// Orders on strings and stable sorting by a total preorder.
module Order {
  import opened Prelude
  import opened Seqs

  // Byte order of SQLite's BINARY collation and of Go's string comparison.
  predicate StrLeq(a: string, b: string) {
    if a == "" then true
    else if b == "" then false
    else a[0] < b[0] || (a[0] == b[0] && StrLeq(a[1..], b[1..]))
  }

  lemma {:induction false} StrTotal(a: string, b: string)
    ensures StrLeq(a, b) || StrLeq(b, a)
    ensures StrLeq(a, b) && StrLeq(b, a) ==> a == b
  {
    if a != "" && b != "" && a[0] == b[0] {
      StrTotal(a[1..], b[1..]);
      assert a == [a[0]] + a[1..] && b == [b[0]] + b[1..];
    }
  }

  lemma {:induction false} StrTransitive(a: string, b: string, c: string)
    requires StrLeq(a, b) && StrLeq(b, c)
    ensures StrLeq(a, c)
  {
    if a != "" && b != "" && c != "" && a[0] == b[0] == c[0] {
      StrTransitive(a[1..], b[1..], c[1..]);
    }
  }

  ghost predicate Preorder<T(!new)>(leq: (T, T) -> bool) {
    && (forall a, b :: leq(a, b) || leq(b, a))
    && (forall a, b, c :: leq(a, b) && leq(b, c) ==> leq(a, c))
  }

  ghost predicate Sorted<T>(leq: (T, T) -> bool, xs: seq<T>) {
    forall i, j :: 0 <= i < j < |xs| ==> leq(xs[i], xs[j])
  }

  function Insert<T>(leq: (T, T) -> bool, x: T, xs: seq<T>): seq<T> {
    if xs == [] || leq(x, xs[0]) then [x] + xs else [xs[0]] + Insert(leq, x, xs[1..])
  }

  // ORDER BY.
  function Sort<T>(leq: (T, T) -> bool, xs: seq<T>): seq<T> {
    if xs == [] then [] else Insert(leq, xs[0], Sort(leq, xs[1..]))
  }

  lemma {:induction false} InsertMembers<T>(leq: (T, T) -> bool, x: T, xs: seq<T>)
    ensures |Insert(leq, x, xs)| == |xs| + 1
    ensures forall y :: y in Insert(leq, x, xs) <==> y == x || y in xs
  {
    if xs != [] && !leq(x, xs[0]) {
      InsertMembers(leq, x, xs[1..]);
      assert xs == [xs[0]] + xs[1..];
    }
  }

  lemma {:induction false} InsertSorted<T(!new)>(leq: (T, T) -> bool, x: T, xs: seq<T>)
    requires Preorder(leq) && Sorted(leq, xs)
    ensures Sorted(leq, Insert(leq, x, xs))
  {
    if xs != [] {
      if leq(x, xs[0]) {
        forall j | 0 <= j < |xs| ensures leq(x, xs[j]) {
          assert j > 0 ==> leq(xs[0], xs[j]);
        }
      } else {
        var rest := Insert(leq, x, xs[1..]);
        InsertSorted(leq, x, xs[1..]);
        InsertMembers(leq, x, xs[1..]);
        forall j | 0 <= j < |rest| ensures leq(xs[0], rest[j]) {
          assert rest[j] in rest;
        }
      }
    }
  }

  lemma {:induction false} SortMembers<T>(leq: (T, T) -> bool, xs: seq<T>)
    ensures |Sort(leq, xs)| == |xs|
    ensures forall y :: y in Sort(leq, xs) <==> y in xs
  {
    if xs != [] {
      SortMembers(leq, xs[1..]);
      InsertMembers(leq, xs[0], Sort(leq, xs[1..]));
      assert xs == [xs[0]] + xs[1..];
    }
  }

  lemma {:induction false} SortSorts<T(!new)>(leq: (T, T) -> bool, xs: seq<T>)
    requires Preorder(leq)
    ensures Sorted(leq, Sort(leq, xs))
  {
    if xs != [] {
      SortSorts(leq, xs[1..]);
      InsertSorted(leq, xs[0], Sort(leq, xs[1..]));
    }
  }

  lemma {:induction false} InsertMultiset<T>(leq: (T, T) -> bool, x: T, xs: seq<T>)
    ensures multiset(Insert(leq, x, xs)) == multiset(xs) + multiset{x}
  {
    if xs != [] && !leq(x, xs[0]) {
      InsertMultiset(leq, x, xs[1..]);
      assert xs == [xs[0]] + xs[1..];
    }
  }

  lemma {:induction false} SortMultiset<T>(leq: (T, T) -> bool, xs: seq<T>)
    ensures multiset(Sort(leq, xs)) == multiset(xs)
  {
    if xs != [] {
      SortMultiset(leq, xs[1..]);
      InsertMultiset(leq, xs[0], Sort(leq, xs[1..]));
      assert xs == [xs[0]] + xs[1..];
    }
  }

  // No two different elements are equal for the order.
  ghost predicate Strict<T(!new)>(leq: (T, T) -> bool, xs: seq<T>) {
    forall a, b :: a in xs && b in xs && leq(a, b) && leq(b, a) ==> a == b
  }

  lemma {:induction false} SortedUnique<T(!new)>(leq: (T, T) -> bool, xs: seq<T>, ys: seq<T>)
    requires Sorted(leq, xs) && Sorted(leq, ys) && multiset(xs) == multiset(ys) && Strict(leq, xs)
    ensures xs == ys
  {
    if xs == [] {
      assert |multiset(ys)| == 0;
    } else {
      SameHead(leq, xs, ys);
      assert xs == [xs[0]] + xs[1..] && ys == [ys[0]] + ys[1..];
      assert multiset(xs[1..]) == multiset(xs) - multiset{xs[0]} == multiset(ys[1..]);
      SortedUnique(leq, xs[1..], ys[1..]);
    }
  }

  lemma SameHead<T(!new)>(leq: (T, T) -> bool, xs: seq<T>, ys: seq<T>)
    requires xs != [] && Sorted(leq, xs) && Sorted(leq, ys) && multiset(xs) == multiset(ys) && Strict(leq, xs)
    ensures ys != [] && xs[0] == ys[0]
  {
    assert xs[0] in multiset(ys);
    var i :| 0 <= i < |ys| && ys[i] == xs[0];
    assert ys[0] in multiset(xs);
    var j :| 0 <= j < |xs| && xs[j] == ys[0];
    assert i > 0 ==> leq(ys[0], ys[i]);
    assert j > 0 ==> leq(xs[0], xs[j]);
  }

  // Sorting by an order that is strict on the elements does not depend on how they were listed.
  lemma SortIsCanonical<T(!new)>(leq: (T, T) -> bool, xs: seq<T>, ys: seq<T>)
    requires Preorder(leq) && Strict(leq, xs) && multiset(xs) == multiset(ys)
    ensures Sort(leq, xs) == Sort(leq, ys)
  {
    SortMultiset(leq, xs);
    SortMultiset(leq, ys);
    SortSorts(leq, xs);
    SortSorts(leq, ys);
    SortMembers(leq, xs);
    SortedUnique(leq, Sort(leq, xs), Sort(leq, ys));
  }

  lemma {:induction false} InsertTimes<T>(leq: (T, T) -> bool, x: T, xs: seq<T>, y: T)
    ensures Times(Insert(leq, x, xs), y) == Times(xs, y) + if x == y then 1 else 0
  {
    if xs == [] || leq(x, xs[0]) {
      assert ([x] + xs)[1..] == xs;
    } else {
      InsertTimes(leq, x, xs[1..], y);
      assert ([xs[0]] + Insert(leq, x, xs[1..]))[1..] == Insert(leq, x, xs[1..]);
    }
  }

  lemma {:induction false} SortTimes<T>(leq: (T, T) -> bool, xs: seq<T>, y: T)
    ensures Times(Sort(leq, xs), y) == Times(xs, y)
  {
    if xs != [] {
      SortTimes(leq, xs[1..], y);
      InsertTimes(leq, xs[0], Sort(leq, xs[1..]), y);
    }
  }

  lemma {:induction false} InsertDistinct<T>(leq: (T, T) -> bool, x: T, xs: seq<T>)
    requires Distinct(xs) && x !in xs
    ensures Distinct(Insert(leq, x, xs))
  {
    if xs != [] && !leq(x, xs[0]) {
      InsertDistinct(leq, x, xs[1..]);
      InsertMembers(leq, x, xs[1..]);
      assert xs == [xs[0]] + xs[1..];
      var rest := Insert(leq, x, xs[1..]);
      forall j | 0 <= j < |rest| ensures rest[j] != xs[0] {
        assert rest[j] in rest;
      }
    }
  }

  lemma {:induction false} SortDistinct<T>(leq: (T, T) -> bool, xs: seq<T>)
    requires Distinct(xs)
    ensures Distinct(Sort(leq, xs))
  {
    if xs != [] {
      SortDistinct(leq, xs[1..]);
      SortMembers(leq, xs[1..]);
      InsertDistinct(leq, xs[0], Sort(leq, xs[1..]));
    }
  }
}

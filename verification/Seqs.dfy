// Filtering sequences and removing first matches.
module Seqs {
  import opened Prelude

  function Filter<T>(p: T -> bool, xs: seq<T>): seq<T> {
    if xs == [] then [] else (if p(xs[0]) then [xs[0]] else []) + Filter(p, xs[1..])
  }

  // The first element that satisfies p.
  function First<T>(p: T -> bool, xs: seq<T>): Option<T> {
    if xs == [] then None else if p(xs[0]) then Some(xs[0]) else First(p, xs[1..])
  }

  function RemoveFirst<T>(p: T -> bool, xs: seq<T>): seq<T> {
    if xs == [] then [] else if p(xs[0]) then xs[1..] else [xs[0]] + RemoveFirst(p, xs[1..])
  }

  lemma {:induction false} FilterAppend<T>(p: T -> bool, xs: seq<T>, ys: seq<T>)
    ensures Filter(p, xs + ys) == Filter(p, xs) + Filter(p, ys)
  {
    if xs == [] {
      assert xs + ys == ys;
    } else {
      FilterAppend(p, xs[1..], ys);
      FilterFirst(p, xs[0], xs[1..] + ys);
      assert xs + ys == [xs[0]] + (xs[1..] + ys);
      var head, a, b := if p(xs[0]) then [xs[0]] else [], Filter(p, xs[1..]), Filter(p, ys);
      assert head + (a + b) == (head + a) + b;
    }
  }

  lemma FilterFirst<T>(p: T -> bool, x: T, xs: seq<T>)
    ensures Filter(p, [x] + xs) == (if p(x) then [x] else []) + Filter(p, xs)
  {
    assert ([x] + xs)[1..] == xs;
  }

  lemma {:induction false} FilterAll<T>(p: T -> bool, xs: seq<T>)
    requires forall i :: 0 <= i < |xs| ==> p(xs[i])
    ensures Filter(p, xs) == xs
  {
    if xs != [] {
      FilterAll(p, xs[1..]);
    }
  }

  lemma {:induction false} FilterNone<T>(p: T -> bool, xs: seq<T>)
    requires forall i :: 0 <= i < |xs| ==> !p(xs[i])
    ensures Filter(p, xs) == []
  {
    if xs != [] {
      FilterNone(p, xs[1..]);
    }
  }

  lemma {:induction false} FilterSuffix<T>(p: T -> bool, xs: seq<T>, first: nat)
    requires first <= |xs|
    requires forall i :: 0 <= i < |xs| ==> (p(xs[i]) <==> first <= i)
    ensures Filter(p, xs) == xs[first..]
  {
    if first == 0 {
      FilterAll(p, xs);
    } else {
      FilterSuffix(p, xs[1..], first - 1);
      assert Filter(p, xs) == Filter(p, xs[1..]);
    }
  }

  lemma {:induction false} FilterMembers<T>(p: T -> bool, xs: seq<T>)
    ensures forall x :: x in Filter(p, xs) <==> x in xs && p(x)
    ensures |Filter(p, xs)| <= |xs|
  {
    if xs != [] {
      FilterMembers(p, xs[1..]);
      assert xs == [xs[0]] + xs[1..];
    }
  }

  // Filtering twice, with the two predicates in either order, is filtering once by both.
  lemma {:induction false} FilterFilter<T>(p: T -> bool, q: T -> bool, both: T -> bool, xs: seq<T>)
    requires forall x :: both(x) <==> p(x) && q(x)
    ensures Filter(p, Filter(q, xs)) == Filter(both, xs)
  {
    if xs != [] {
      FilterFilter(p, q, both, xs[1..]);
      var rest := Filter(q, xs[1..]);
      if q(xs[0]) {
        assert ([xs[0]] + rest)[1..] == rest;
      } else {
        assert [] + rest == rest;
      }
    }
  }

  lemma {:induction false} FilterSame<T>(p: T -> bool, q: T -> bool, xs: seq<T>)
    requires forall i :: 0 <= i < |xs| ==> (p(xs[i]) <==> q(xs[i]))
    ensures Filter(p, xs) == Filter(q, xs)
  {
    if xs != [] {
      FilterSame(p, q, xs[1..]);
    }
  }

  // Keeping p-elements commutes with removing the first m-element, when every m-element is a p.
  lemma {:induction false} FilterRemoveFirst<T>(p: T -> bool, m: T -> bool, xs: seq<T>)
    requires forall x :: m(x) ==> p(x)
    ensures Filter(p, RemoveFirst(m, xs)) == RemoveFirst(m, Filter(p, xs))
    ensures First(m, xs) == First(m, Filter(p, xs))
  {
    if xs != [] {
      FilterRemoveFirst(p, m, xs[1..]);
      var rest := Filter(p, xs[1..]);
      if p(xs[0]) {
        assert ([xs[0]] + rest)[1..] == rest;
        assert ([xs[0]] + RemoveFirst(m, xs[1..]))[1..] == RemoveFirst(m, xs[1..]);
      } else {
        assert [] + rest == rest;
        assert ([xs[0]] + RemoveFirst(m, xs[1..]))[1..] == RemoveFirst(m, xs[1..]);
      }
    }
  }

  lemma {:induction false} FilterRemoveOther<T>(p: T -> bool, m: T -> bool, xs: seq<T>)
    requires forall x :: m(x) ==> !p(x)
    ensures Filter(p, RemoveFirst(m, xs)) == Filter(p, xs)
  {
    if xs != [] {
      FilterRemoveOther(p, m, xs[1..]);
      if !m(xs[0]) {
        assert ([xs[0]] + RemoveFirst(m, xs[1..]))[1..] == RemoveFirst(m, xs[1..]);
      }
    }
  }

  // Removing the first match at a known position.
  lemma {:induction false} RemoveFirstAt<T>(m: T -> bool, xs: seq<T>, i: nat)
    requires i < |xs| && m(xs[i]) && forall j :: 0 <= j < i ==> !m(xs[j])
    ensures RemoveFirst(m, xs) == xs[..i] + xs[i + 1..]
    ensures First(m, xs) == Some(xs[i])
  {
    if i > 0 {
      RemoveFirstAt(m, xs[1..], i - 1);
    }
  }

  lemma {:induction false} NoMatch<T>(m: T -> bool, xs: seq<T>)
    requires forall i :: 0 <= i < |xs| ==> !m(xs[i])
    ensures RemoveFirst(m, xs) == xs && First(m, xs) == None
  {
    if xs != [] {
      NoMatch(m, xs[1..]);
    }
  }

  // ----- Counting occurrences -----

  function Times<T(==)>(xs: seq<T>, x: T): nat {
    if xs == [] then 0 else (if xs[0] == x then 1 else 0) + Times(xs[1..], x)
  }

  lemma {:induction false} TimesAppend<T>(xs: seq<T>, ys: seq<T>, x: T)
    ensures Times(xs + ys, x) == Times(xs, x) + Times(ys, x)
  {
    if xs == [] {
      assert xs + ys == ys;
    } else {
      assert (xs + ys)[1..] == xs[1..] + ys;
      TimesAppend(xs[1..], ys, x);
    }
  }

  lemma {:induction false} TimesIn<T>(xs: seq<T>, x: T)
    ensures Times(xs, x) > 0 <==> x in xs
  {
    if xs != [] {
      TimesIn(xs[1..], x);
      assert xs == [xs[0]] + xs[1..];
    }
  }

  function Singleton<T>(x: Option<T>): seq<T> {
    if x.Some? then [x.value] else []
  }

  // What is removed, and that nothing else is.
  lemma {:induction false} RemoveFirstSplits<T>(m: T -> bool, xs: seq<T>)
    ensures First(m, xs).None? ==> RemoveFirst(m, xs) == xs && forall x :: x in xs ==> !m(x)
    ensures First(m, xs).Some? ==> m(First(m, xs).value) && First(m, xs).value in xs
    ensures |xs| == |RemoveFirst(m, xs)| + |Singleton(First(m, xs))|
    ensures forall x :: x in RemoveFirst(m, xs) ==> x in xs
  {
    if xs != [] {
      RemoveFirstSplits(m, xs[1..]);
      assert xs == [xs[0]] + xs[1..];
    }
  }

  lemma {:induction false} RemoveFirstTimes<T>(m: T -> bool, xs: seq<T>, x: T)
    ensures Times(xs, x) == Times(RemoveFirst(m, xs), x) + Times(Singleton(First(m, xs)), x)
  {
    if xs != [] && !m(xs[0]) {
      RemoveFirstTimes(m, xs[1..], x);
      assert ([xs[0]] + RemoveFirst(m, xs[1..]))[1..] == RemoveFirst(m, xs[1..]);
    }
  }

  lemma {:induction false} FilterSplits<T>(p: T -> bool, q: T -> bool, xs: seq<T>, x: T)
    requires forall y :: q(y) <==> !p(y)
    ensures Times(xs, x) == Times(Filter(p, xs), x) + Times(Filter(q, xs), x)
    ensures |xs| == |Filter(p, xs)| + |Filter(q, xs)|
  {
    if xs != [] {
      FilterSplits(p, q, xs[1..], x);
      var a, b := Filter(p, xs[1..]), Filter(q, xs[1..]);
      assert ([xs[0]] + a)[1..] == a && ([xs[0]] + b)[1..] == b && [] + a == a && [] + b == b;
    }
  }

  // ----- Left folds -----

  function Fold<S, T>(f: (S, T) -> S, s: S, xs: seq<T>): S {
    if xs == [] then s else f(Fold(f, s, xs[..|xs| - 1]), xs[|xs| - 1])
  }

  lemma {:induction false} FoldSplit<S, T>(f: (S, T) -> S, s: S, a: seq<T>, b: seq<T>)
    ensures Fold(f, s, a + b) == Fold(f, Fold(f, s, a), b)
    decreases |b|
  {
    if b == [] {
      assert a + b == a;
    } else {
      FoldSplit(f, s, a, b[..|b| - 1]);
      assert (a + b)[..|a + b| - 1] == a + b[..|b| - 1];
    }
  }
}

// Shared building blocks: options, and the few facts about sequences that several modules use.
module Prelude {

  datatype Option<+T> = None | Some(value: T)

  function Min(a: int, b: int): int {
    if a <= b then a else b
  }

  function Max(a: int, b: int): int {
    if a >= b then a else b
  }

  // `visit` lists every element of `s` exactly once: the order in which a Go `range` over a map
  // with key set `s` happens to go.
  ghost predicate Enumerates<T(!new)>(visit: seq<T>, s: set<T>) {
    && (forall x :: x in visit <==> x in s)
    && Distinct(visit)
  }

  ghost predicate Distinct<T>(xs: seq<T>) {
    forall i, j :: 0 <= i < j < |xs| ==> xs[i] != xs[j]
  }

  lemma DistinctAppend<T(!new)>(visit: seq<T>, s: set<T>, x: T)
    requires Enumerates(visit, s) && x !in s
    ensures Enumerates(visit + [x], s + {x})
  {
  }

  lemma SplitLast<T>(xs: seq<T>)
    requires xs != []
    ensures xs == xs[..|xs| - 1] + [xs[|xs| - 1]]
  {
  }

  // Where two maps both have a key, they agree.
  ghost predicate Agree<K, V>(a: map<K, V>, b: map<K, V>) {
    forall k :: k in a && k in b ==> a[k] == b[k]
  }

  // ----- The last element with a property -----

  ghost predicate Absent<T>(p: T -> bool, xs: seq<T>) {
    forall i :: 0 <= i < |xs| ==> !p(xs[i])
  }

  // Position of the last element that satisfies p, -1 when there is none.
  function LastIndex<T>(p: T -> bool, xs: seq<T>): (index: int)
    ensures -1 <= index < |xs|
    ensures index >= 0 ==> p(xs[index])
    ensures forall i :: index < i < |xs| ==> !p(xs[i])
  {
    if xs == [] then -1
    else if p(xs[|xs| - 1]) then |xs| - 1
    else LastIndex(p, xs[..|xs| - 1])
  }

  lemma LastIndexAppend<T>(p: T -> bool, xs: seq<T>, ys: seq<T>)
    ensures LastIndex(p, xs + ys) == if Absent(p, ys) then LastIndex(p, xs) else |xs| + LastIndex(p, ys)
  {
    var last := LastIndex(p, xs + ys);
    if last >= 0 {
      assert p((xs + ys)[last]);
    }
    if Absent(p, ys) && LastIndex(p, xs) >= 0 {
      assert p((xs + ys)[LastIndex(p, xs)]);
    } else if !Absent(p, ys) {
      assert p((xs + ys)[|xs| + LastIndex(p, ys)]);
    }
  }
}

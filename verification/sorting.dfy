/**
 Sorting a todo list by one column in one direction. The reducer relies on
 `Array.prototype.sort`; what it may assume of the result is that it is a
 permutation of the input ordered by the key. `SortTodos` is one such sort
 (an insertion sort); nothing outside this module depends on its tie order.
 */
module Sorting {
  import opened TodoModel
  import opened Ordering

  /** Every earlier todo may precede every later one. */
  predicate SortedBy(p: SortProperty, d: Order, xs: seq<Todo>)
  {
    forall i, j | 0 <= i < j < |xs| :: Precedes(p, d, xs[i], xs[j])
  }

  function Insert(p: SortProperty, d: Order, x: Todo, xs: seq<Todo>): (r: seq<Todo>)
    ensures multiset(r) == multiset(xs) + multiset{x}
  {
    if xs == [] then [x]
    else if Precedes(p, d, x, xs[0]) then [x] + xs
    else
      assert xs == [xs[0]] + xs[1..];
      [xs[0]] + Insert(p, d, x, xs[1..])
  }

  lemma {:induction false} InsertSorted(p: SortProperty, d: Order, x: Todo, xs: seq<Todo>)
    requires SortedBy(p, d, xs)
    ensures SortedBy(p, d, Insert(p, d, x, xs))
  {
    if xs == [] {
    } else if Precedes(p, d, x, xs[0]) {
      var r := [x] + xs;
      forall j | 0 < j < |r| ensures Precedes(p, d, x, r[j]) {
        PrecedesIsTotalPreorder(p, d, x, xs[0], r[j]);
      }
    } else {
      var rest := Insert(p, d, x, xs[1..]);
      InsertSorted(p, d, x, xs[1..]);
      PrecedesIsTotalPreorder(p, d, x, xs[0], x);
      var r := [xs[0]] + rest;
      forall j | 0 < j < |r| ensures Precedes(p, d, xs[0], r[j]) {
        assert r[j] in multiset(rest);
        if r[j] != x {
          assert r[j] in xs[1..];
        }
      }
    }
  }

  /** A permutation of `xs` sorted by column `p` in direction `d`. */
  function SortTodos(p: SortProperty, d: Order, xs: seq<Todo>): (r: seq<Todo>)
    ensures multiset(r) == multiset(xs)
    ensures SortedBy(p, d, r)
  {
    if xs == [] then []
    else
      var rest := SortTodos(p, d, xs[1..]);
      InsertSorted(p, d, xs[0], rest);
      assert xs == [xs[0]] + xs[1..];
      Insert(p, d, xs[0], rest)
  }

  /** Two sorted permutations of one another start with the same todo. */
  lemma SortedPermutationHeads(p: SortProperty, d: Order, a: seq<Todo>, b: seq<Todo>)
    requires SortedBy(p, d, a) && SortedBy(p, d, b)
    requires multiset(a) == multiset(b)
    requires DistinctKeys(p, a)
    requires a != [] && b != []
    ensures a[0] == b[0]
  {
    assert a[0] in multiset(b) && b[0] in multiset(a);
    PrecedesIsTotalPreorder(p, d, a[0], b[0], a[0]);
  }

  lemma SortedTail(p: SortProperty, d: Order, xs: seq<Todo>)
    requires SortedBy(p, d, xs) && xs != []
    ensures SortedBy(p, d, xs[1..])
  {
    forall i, j | 0 <= i < j < |xs| - 1
      ensures Precedes(p, d, xs[1..][i], xs[1..][j])
    {
      assert xs[1..][i] == xs[i + 1] && xs[1..][j] == xs[j + 1];
    }
  }

  /** The tails of two sorted permutations with equal heads are again sorted
      permutations, with distinct keys. */
  lemma SortedPermutationTails(p: SortProperty, d: Order, a: seq<Todo>, b: seq<Todo>)
    requires SortedBy(p, d, a) && SortedBy(p, d, b)
    requires multiset(a) == multiset(b)
    requires DistinctKeys(p, a)
    requires a != [] && b != [] && a[0] == b[0]
    ensures SortedBy(p, d, a[1..]) && SortedBy(p, d, b[1..])
    ensures multiset(a[1..]) == multiset(b[1..])
    ensures DistinctKeys(p, a[1..])
  {
    SortedTail(p, d, a);
    SortedTail(p, d, b);
    assert a == [a[0]] + a[1..] && b == [b[0]] + b[1..];
    assert multiset(a[1..]) == multiset(a) - multiset{a[0]};
    assert multiset(b[1..]) == multiset(b) - multiset{b[0]};
    assert forall x | x in a[1..] :: x in a;
  }

  /** With pairwise distinct keys a sorted permutation is determined: any two
      coincide, whatever the sort algorithm does with ties. */
  lemma {:induction false} SortedPermutationUnique(p: SortProperty, d: Order, a: seq<Todo>, b: seq<Todo>)
    requires SortedBy(p, d, a) && SortedBy(p, d, b)
    requires multiset(a) == multiset(b)
    requires DistinctKeys(p, a)
    ensures a == b
  {
    assert |a| == |multiset(a)| == |multiset(b)| == |b|;
    if a != [] {
      SortedPermutationHeads(p, d, a, b);
      SortedPermutationTails(p, d, a, b);
      SortedPermutationUnique(p, d, a[1..], b[1..]);
      assert a == [a[0]] + a[1..] && b == [b[0]] + b[1..];
    }
  }

  function Reverse(xs: seq<Todo>): (r: seq<Todo>)
    ensures |r| == |xs|
    ensures forall i | 0 <= i < |xs| :: r[i] == xs[|xs| - 1 - i]
  {
    if xs == [] then [] else Reverse(xs[1..]) + [xs[0]]
  }

  lemma {:induction false} ReverseIsPermutation(xs: seq<Todo>)
    ensures multiset(Reverse(xs)) == multiset(xs)
  {
    if xs != [] {
      ReverseIsPermutation(xs[1..]);
      assert xs == [xs[0]] + xs[1..];
    }
  }

  /** Read backwards, a list sorted in one direction is sorted in the other. */
  lemma ReverseSorted(p: SortProperty, d: Order, xs: seq<Todo>)
    requires SortedBy(p, d, xs)
    ensures SortedBy(p, Opposite(d), Reverse(xs))
  {
  }
}

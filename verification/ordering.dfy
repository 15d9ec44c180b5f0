/**
 How the sort comparator of the reducer orders two todos. A column's values
 are compared with JavaScript's relational operators: numbers numerically,
 strings lexicographically by character, booleans with false below true.
 */
module Ordering {
  import opened TodoModel

  /** JavaScript's `a < b` on two strings: the first differing character
      decides, and a proper prefix is smaller. */
  predicate StrLess(a: string, b: string)
    decreases |a|
  {
    if a == [] then b != []
    else if b == [] then false
    else if a[0] != b[0] then a[0] < b[0]
    else StrLess(a[1..], b[1..])
  }

  lemma {:induction false} StrLessIrreflexive(a: string)
    ensures !StrLess(a, a)
    decreases |a|
  {
    if a != [] {
      StrLessIrreflexive(a[1..]);
    }
  }

  lemma {:induction false} StrLessAsymmetric(a: string, b: string)
    ensures StrLess(a, b) ==> !StrLess(b, a)
    decreases |a|
  {
    if a != [] && b != [] && a[0] == b[0] {
      StrLessAsymmetric(a[1..], b[1..]);
    }
  }

  lemma {:induction false} StrLessTrichotomy(a: string, b: string)
    ensures a == b || StrLess(a, b) || StrLess(b, a)
    decreases |a|
  {
    if a != [] && b != [] && a[0] == b[0] {
      StrLessTrichotomy(a[1..], b[1..]);
      if a[1..] == b[1..] {
        assert a == [a[0]] + a[1..] && b == [b[0]] + b[1..];
      }
    }
  }

  lemma {:induction false} StrLessTransitive(a: string, b: string, c: string)
    requires StrLess(a, b) && StrLess(b, c)
    ensures StrLess(a, c)
    decreases |a|
  {
    if a != [] && a[0] == b[0] && b[0] == c[0] {
      StrLessTransitive(a[1..], b[1..], c[1..]);
    }
  }

  /** `a[p] < b[p]` in the source's terms. */
  predicate KeyLess(p: SortProperty, a: Todo, b: Todo)
  {
    match p
    case Id => a.id < b.id
    case Title => StrLess(a.title, b.title)
    case Completed => !a.completed && b.completed
  }

  /** In every column `<` is a strict total order on the column's values. */
  lemma KeyLessIsStrictTotalOrder(p: SortProperty, a: Todo, b: Todo, c: Todo)
    ensures KeyLess(p, a, b) ==> !KeyLess(p, b, a)
    ensures KeyLess(p, a, b) || KeyLess(p, b, a) || KeyOf(p, a) == KeyOf(p, b)
    ensures KeyOf(p, a) == KeyOf(p, b) ==> !KeyLess(p, a, b)
    ensures KeyLess(p, a, b) && KeyLess(p, b, c) ==> KeyLess(p, a, c)
  {
    if p == Title {
      StrLessAsymmetric(a.title, b.title);
      StrLessTrichotomy(a.title, b.title);
      StrLessIrreflexive(a.title);
      if StrLess(a.title, b.title) && StrLess(b.title, c.title) {
        StrLessTransitive(a.title, b.title, c.title);
      }
    }
  }

  /** The comparator the reducer hands to `Array.prototype.sort`, as written:
      `d` when the first key is the greater, `-d` otherwise. It never reports
      a tie, and a positive result puts `a` after `b`. */
  function SourceComparator(p: SortProperty, d: Order, a: Todo, b: Todo): (c: int)
    ensures c == 1 || c == -1
    ensures d == 1 ==> (c > 0 <==> KeyLess(p, b, a))
    ensures d == -1 ==> (c > 0 <==> !KeyLess(p, b, a))
  {
    d * (if KeyLess(p, b, a) then 1 else -1)
  }

  /** The consistent three-way comparator the source evidently means: a
      positive result puts `a` after `b`, zero is a tie. */
  function Compare(p: SortProperty, d: Order, a: Todo, b: Todo): (c: int)
    ensures c == 0 <==> KeyOf(p, a) == KeyOf(p, b)
    ensures d == 1 ==> (c > 0 <==> KeyLess(p, b, a))
    ensures d == -1 ==> (c > 0 <==> KeyLess(p, a, b))
  {
    KeyLessIsStrictTotalOrder(p, a, b, a);
    if KeyLess(p, b, a) then d else if KeyLess(p, a, b) then -(d as int) else 0
  }

  /** The source's comparator is inconsistent on ties: both argument orders
      report "first argument first", so the engine may order them either way
      (a comparator must give opposite signs when its arguments are swapped). */
  lemma SourceComparatorInconsistent(p: SortProperty, d: Order, a: Todo, b: Todo)
    requires KeyOf(p, a) == KeyOf(p, b)
    ensures SourceComparator(p, d, a, b) == SourceComparator(p, d, b, a) == -(d as int)
  {
    KeyLessIsStrictTotalOrder(p, a, b, a);
  }

  /** A concrete pair that shows it: two todos titled alike, sorted by title. */
  lemma SourceComparatorTieExample()
    ensures var a := Todo(1, "Todo", false);
            var b := Todo(2, "Todo", false);
            SourceComparator(Title, 1, a, b) < 0 && SourceComparator(Title, 1, b, a) < 0
  {
  }

  /** Away from ties, the consistent comparator and the source's agree in sign. */
  lemma CompareAgreesOffTies(p: SortProperty, d: Order, a: Todo, b: Todo)
    requires KeyOf(p, a) != KeyOf(p, b)
    ensures Compare(p, d, a, b) == SourceComparator(p, d, a, b)
  {
  }

  lemma CompareAntisymmetric(p: SortProperty, d: Order, a: Todo, b: Todo)
    ensures Compare(p, d, a, b) == -Compare(p, d, b, a)
    ensures Compare(p, Opposite(d), a, b) == -Compare(p, d, a, b)
  {
    KeyLessIsStrictTotalOrder(p, a, b, a);
  }

  /** `a` may stand before `b` in a list sorted in direction `d`. */
  predicate Precedes(p: SortProperty, d: Order, a: Todo, b: Todo)
  {
    Compare(p, d, a, b) <= 0
  }

  /** Precedes is a total preorder whose ties are exactly equal keys, and the
      opposite direction is its converse. */
  lemma PrecedesIsTotalPreorder(p: SortProperty, d: Order, a: Todo, b: Todo, c: Todo)
    ensures Precedes(p, d, a, b) || Precedes(p, d, b, a)
    ensures Precedes(p, d, a, b) && Precedes(p, d, b, a) ==> KeyOf(p, a) == KeyOf(p, b)
    ensures Precedes(p, d, a, b) && Precedes(p, d, b, c) ==> Precedes(p, d, a, c)
    ensures Precedes(p, Opposite(d), a, b) <==> Precedes(p, d, b, a)
  {
    CompareAntisymmetric(p, d, a, b);
    KeyLessIsStrictTotalOrder(p, a, b, c);
    KeyLessIsStrictTotalOrder(p, c, a, b);
    KeyLessIsStrictTotalOrder(p, b, c, a);
    KeyLessIsStrictTotalOrder(p, b, a, c);
  }
}

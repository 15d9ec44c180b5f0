/**
 The records held by the todo store: todos, the sort configuration and the
 fetch status, together with the per-column key of a todo.
 */
module TodoModel {

  /** A todo as the store keeps it. Ids are JavaScript numbers; the model
      treats them as unbounded integers. */
  datatype Todo = Todo(id: int, title: string, completed: bool)

  /** A column the list can be sorted by: one of the keys of a todo. */
  datatype SortProperty = Id | Title | Completed

  /** A sort direction in the store's sign encoding. */
  type Order = o: int | o == 1 || o == -1 witness 1

  /** The other direction. */
  function Opposite(d: Order): Order
  {
    -(d as int)
  }

  /** The remembered sort configuration. */
  datatype Sort = Sort(order: Order, property: SortProperty)

  /** The fetch lifecycle flag. */
  datatype Status = Idle | Loading | Error | Success

  datatype State = State(status: Status, todos: seq<Todo>, sort: Sort)

  /** The value a todo holds in one column. */
  datatype Key = IdKey(int) | TitleKey(string) | CompletedKey(bool)

  function KeyOf(p: SortProperty, t: Todo): Key
  {
    match p
    case Id => IdKey(t.id)
    case Title => TitleKey(t.title)
    case Completed => CompletedKey(t.completed)
  }

  /** No two positions of `xs` hold the same value in column `p`. */
  predicate UniqueBy(p: SortProperty, xs: seq<Todo>)
  {
    forall i, j | 0 <= i < j < |xs| :: KeyOf(p, xs[i]) != KeyOf(p, xs[j])
  }

  /** The store's identity invariant: ids are pairwise distinct. */
  predicate UniqueIds(xs: seq<Todo>)
  {
    UniqueBy(Id, xs)
  }

  /** Todos that share a key in column `p` are the same todo (duplicates of
      one record are allowed). This is what a sort needs to be determined. */
  predicate DistinctKeys(p: SortProperty, xs: seq<Todo>)
  {
    forall x, y | x in xs && y in xs && KeyOf(p, x) == KeyOf(p, y) :: x == y
  }

  lemma UniqueByCons(p: SortProperty, h: Todo, t: seq<Todo>)
    ensures UniqueBy(p, [h] + t) <==>
            UniqueBy(p, t) && forall y | y in t :: KeyOf(p, y) != KeyOf(p, h)
  {
    var xs := [h] + t;
    assert forall j | 0 <= j < |t| :: xs[j + 1] == t[j];
    if UniqueBy(p, xs) {
      forall y | y in t ensures KeyOf(p, y) != KeyOf(p, h) {
        var j :| 0 <= j < |t| && t[j] == y;
        assert xs[0] == h && xs[j + 1] == y;
      }
    }
  }

  /** Pairwise distinct keys means every todo occurs once and a key names one todo. */
  lemma {:induction false} UniqueByMembers(p: SortProperty, xs: seq<Todo>)
    requires UniqueBy(p, xs)
    ensures DistinctKeys(p, xs)
    ensures forall x | x in multiset(xs) :: multiset(xs)[x] == 1
  {
    if xs != [] {
      var h, t := xs[0], xs[1..];
      assert xs == [h] + t;
      UniqueByCons(p, h, t);
      UniqueByMembers(p, t);
      assert h !in t;
      assert multiset(xs) == multiset{h} + multiset(t);
    }
  }

  lemma UniqueByImpliesDistinctKeys(p: SortProperty, xs: seq<Todo>)
    requires UniqueBy(p, xs)
    ensures DistinctKeys(p, xs)
  {
  }

  /** Reordering a list keeps its keys pairwise distinct. */
  lemma {:induction false} UniqueByPermutation(p: SortProperty, a: seq<Todo>, b: seq<Todo>)
    requires multiset(a) == multiset(b)
    requires UniqueBy(p, a)
    ensures UniqueBy(p, b)
  {
    UniqueByMembers(p, a);
    forall i, j | 0 <= i < j < |b| ensures KeyOf(p, b[i]) != KeyOf(p, b[j]) {
      assert b == b[..j] + b[j..];
      assert b[i] in multiset(b[..j]) by { assert b[..j][i] == b[i]; }
      assert b[j] in multiset(b[j..]) by { assert b[j..][0] == b[j]; }
      assert multiset(b) == multiset(b[..j]) + multiset(b[j..]);
      assert b[i] in a && b[j] in a by { assert b[i] in multiset(b) && b[j] in multiset(b); }
    }
  }
}

/**
 The list operations behind the `completeTodo`, `deleteTodo` and `addTodo`
 reducers: a map, a filter and a running maximum over the todo sequence.
 Both versions of the slice use the same code for the first two.
 */
module TodoList {
  import opened TodoModel

  /** The list with every todo carrying `id` marked completed, in place; the
      other todos are unchanged. */
  function MarkCompleted(xs: seq<Todo>, id: int): (r: seq<Todo>)
    ensures |r| == |xs|
    ensures forall i | 0 <= i < |xs| :: r[i].id == xs[i].id && r[i].title == xs[i].title
    ensures forall i | 0 <= i < |xs| :: r[i].completed == (xs[i].completed || xs[i].id == id)
  {
    if xs == [] then []
    else [if xs[0].id == id then xs[0].(completed := true) else xs[0]] + MarkCompleted(xs[1..], id)
  }

  /** Only todos carrying the id change, and a todo with another id is kept as it was. */
  lemma MarkCompletedFrame(xs: seq<Todo>, id: int)
    ensures forall i | 0 <= i < |xs| && xs[i].id != id :: MarkCompleted(xs, id)[i] == xs[i]
    ensures forall i | 0 <= i < |xs| && xs[i].id == id :: MarkCompleted(xs, id)[i] == xs[i].(completed := true)
  {
  }

  /** Completing an id nobody carries changes nothing. */
  lemma MarkCompletedUnknownId(xs: seq<Todo>, id: int)
    requires forall t | t in xs :: t.id != id
    ensures MarkCompleted(xs, id) == xs
  {
  }

  /** Completing the same id twice is completing it once. */
  lemma MarkCompletedIdempotent(xs: seq<Todo>, id: int)
    ensures MarkCompleted(MarkCompleted(xs, id), id) == MarkCompleted(xs, id)
  {
  }

  /** The list without the todos carrying `id`, the rest in their order. */
  function RemoveById(xs: seq<Todo>, id: int): (r: seq<Todo>)
    ensures forall t :: t in r <==> t in xs && t.id != id
    ensures |r| <= |xs|
  {
    if xs == [] then []
    else if xs[0].id != id then [xs[0]] + RemoveById(xs[1..], id)
    else RemoveById(xs[1..], id)
  }

  /** Filtering keeps relative order: it distributes over concatenation. */
  lemma {:induction false} RemoveByIdConcat(xs: seq<Todo>, ys: seq<Todo>, id: int)
    ensures RemoveById(xs + ys, id) == RemoveById(xs, id) + RemoveById(ys, id)
  {
    if xs != [] {
      assert (xs + ys)[0] == xs[0] && (xs + ys)[1..] == xs[1..] + ys;
      RemoveByIdConcat(xs[1..], ys, id);
      if xs[0].id != id {
        calc {
          RemoveById(xs + ys, id);
          [xs[0]] + RemoveById(xs[1..] + ys, id);
          [xs[0]] + (RemoveById(xs[1..], id) + RemoveById(ys, id));
          ([xs[0]] + RemoveById(xs[1..], id)) + RemoveById(ys, id);
        }
      }
    } else {
      assert xs + ys == ys;
    }
  }

  /** Deleting an id nobody carries changes nothing. */
  lemma {:induction false} RemoveByIdUnknownId(xs: seq<Todo>, id: int)
    requires forall t | t in xs :: t.id != id
    ensures RemoveById(xs, id) == xs
  {
    if xs != [] {
      assert xs == [xs[0]] + xs[1..];
      RemoveByIdUnknownId(xs[1..], id);
    }
  }

  /** With unique ids, deleting the id at position k removes exactly that
      todo, so the list is one shorter and otherwise in its old order. */
  lemma RemoveByIdUnique(xs: seq<Todo>, k: nat, id: int)
    requires UniqueIds(xs)
    requires k < |xs| && xs[k].id == id
    ensures RemoveById(xs, id) == xs[..k] + xs[k + 1..]
    ensures |RemoveById(xs, id)| == |xs| - 1
  {
    var pre, post := xs[..k], xs[k + 1..];
    assert xs == pre + ([xs[k]] + post);
    forall t | t in pre ensures t.id != id {
      var i :| 0 <= i < k && pre[i] == t;
      assert xs[i] == t;
    }
    forall t | t in post ensures t.id != id {
      var i :| 0 <= i < |post| && post[i] == t;
      assert xs[k + 1 + i] == t;
    }
    RemoveByIdUnknownId(pre, id);
    RemoveByIdUnknownId(post, id);
    RemoveByIdConcat([xs[k]], post, id);
    RemoveByIdConcat(pre, [xs[k]] + post, id);
  }

  /** The two cases of deleting: an unknown id, and an id held once. */
  lemma {:induction false} RemoveByIdCases(xs: seq<Todo>, id: int)
    ensures (forall t | t in xs :: t.id != id) ==> RemoveById(xs, id) == xs
    ensures forall k | 0 <= k < |xs| && xs[k].id == id && UniqueIds(xs) ::
              RemoveById(xs, id) == xs[..k] + xs[k + 1..]
  {
    if forall t | t in xs :: t.id != id {
      RemoveByIdUnknownId(xs, id);
    }
    forall k | 0 <= k < |xs| && xs[k].id == id && UniqueIds(xs)
      ensures RemoveById(xs, id) == xs[..k] + xs[k + 1..]
    {
      RemoveByIdUnique(xs, k, id);
    }
  }

  /** Deleting keeps ids unique. */
  lemma {:induction false} RemoveByIdKeepsUniqueIds(xs: seq<Todo>, id: int)
    requires UniqueIds(xs)
    ensures UniqueIds(RemoveById(xs, id))
  {
    if xs != [] {
      assert xs == [xs[0]] + xs[1..];
      UniqueByCons(Id, xs[0], xs[1..]);
      RemoveByIdKeepsUniqueIds(xs[1..], id);
      UniqueByCons(Id, xs[0], RemoveById(xs[1..], id));
    }
  }

  /** The largest of `acc` and the ids in the list, scanned left to right. */
  function HighestIdFrom(acc: int, xs: seq<Todo>): (m: int)
    decreases |xs|
    ensures m >= acc
    ensures forall t | t in xs :: t.id <= m
    ensures m == acc || exists t | t in xs :: t.id == m
  {
    if xs == [] then acc
    else
      assert forall t | t in xs[1..] :: t in xs;
      HighestIdFrom(if xs[0].id > acc then xs[0].id else acc, xs[1..])
  }

  /** The id `addTodo` gives a new todo: one more than the largest id, or 1
      when no id is positive. */
  function NextId(xs: seq<Todo>): (n: int)
    ensures n >= 1
    ensures forall t | t in xs :: t.id < n
    ensures n == 1 || exists t | t in xs :: t.id == n - 1
  {
    HighestIdFrom(0, xs) + 1
  }

  /** The next id depends only on which todos are held, not on their order. */
  lemma NextIdIgnoresOrder(a: seq<Todo>, b: seq<Todo>)
    requires multiset(a) == multiset(b)
    ensures NextId(a) == NextId(b)
  {
    assert forall t :: t in a <==> t in b by {
      forall t ensures t in a <==> t in b {
        assert t in a <==> t in multiset(a);
        assert t in b <==> t in multiset(b);
      }
    }
  }
}

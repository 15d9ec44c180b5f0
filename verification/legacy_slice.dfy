/**
 The earlier version of the todo slice. Its toggle takes only a column, and
 it has no `addTodo`; otherwise it reduces like the current slice.
 */
module LegacySlice {
  import opened Wrappers
  import opened TodoModel
  import opened Sorting
  import opened TodoList
  import StoreSlice

  datatype Action =
    | ToggleSortOrder(property: SortProperty)
    | CompleteTodo(todoId: int)
    | DeleteTodo(todoId: int)
    | Pending
    | Fulfilled(payload: seq<Todo>)
    | Rejected

  const Initial: State := State(Idle, [], Sort(-1, Id))

  /** `toggleSortOrder`: sort in the stored direction on the current column
      and ascending on a new one, then remember the opposite direction. */
  function Toggle(s: State, property: SortProperty): (r: State)
    ensures r.status == s.status
    ensures multiset(r.todos) == multiset(s.todos)
    ensures r.sort.property == property
    ensures property == s.sort.property ==>
              SortedBy(property, s.sort.order, r.todos) && r.sort.order == Opposite(s.sort.order)
    ensures property != s.sort.property ==>
              SortedBy(property, 1, r.todos) && r.sort.order == -1
  {
    var sortOrder: Order := if s.sort.property == property then s.sort.order else 1;
    State(s.status, SortTodos(property, sortOrder, s.todos), Sort(if sortOrder == 1 then -1 else 1, property))
  }

  function Reduce(s: State, a: Action): (r: State)
    ensures !a.ToggleSortOrder? ==> r.sort == s.sort
    ensures !(a.Pending? || a.Fulfilled? || a.Rejected?) ==> r.status == s.status
    ensures a.Pending? ==> r.status == Loading && r.todos == s.todos
    ensures a.Fulfilled? ==> r.status == Success && r.todos == a.payload
    ensures a.Rejected? ==> r.status == Error && r.todos == s.todos
  {
    match a
    case ToggleSortOrder(property) => Toggle(s, property)
    case CompleteTodo(id) => State(s.status, MarkCompleted(s.todos, id), s.sort)
    case DeleteTodo(id) => State(s.status, RemoveById(s.todos, id), s.sort)
    case Pending => s.(status := Loading)
    case Fulfilled(payload) => s.(status := Success, todos := payload)
    case Rejected => s.(status := Error)
  }

  /** The current slice's action for an earlier one: a toggle without an explicit order. */
  function Lift(a: Action): StoreSlice.Action
  {
    match a
    case ToggleSortOrder(property) => StoreSlice.ToggleSortOrder(property, None)
    case CompleteTodo(id) => StoreSlice.CompleteTodo(id)
    case DeleteTodo(id) => StoreSlice.DeleteTodo(id)
    case Pending => StoreSlice.Pending
    case Fulfilled(payload) => StoreSlice.Fulfilled(payload)
    case Rejected => StoreSlice.Rejected
  }

  /** The earlier slice is the current one restricted to toggles without an
      explicit order, and without `addTodo`. */
  lemma ReduceIsCurrentWithoutOrder(s: State, a: Action)
    ensures Reduce(s, a) == StoreSlice.Reduce(s, Lift(a))
  {
  }

  /** Both slices start from the same state, and from it the first id click
      sorts descending while the first click on another column sorts ascending. */
  lemma InitialFirstToggle(todos: seq<Todo>, p: SortProperty)
    ensures Initial == StoreSlice.Initial
    ensures var r := Toggle(Initial.(todos := todos), p);
            && (p == Id ==> SortedBy(Id, -1, r.todos) && r.sort == Sort(1, Id))
            && (p != Id ==> SortedBy(p, 1, r.todos) && r.sort == Sort(-1, p))
  {
  }

  /** The first id scenario of the earlier slice's tests: with {-1, id}
      stored, toggling id on ids 1, 2 gives [2, 1] and stores {1, id}. */
  lemma ToggleByIdDescendingScenario()
    ensures var t1 := Todo(1, "title 1", false);
            var t2 := Todo(2, "title 2", true);
            var r := Toggle(State(Idle, [t1, t2], Sort(-1, Id)), Id);
            r.todos == [t2, t1] && r.sort == Sort(1, Id)
  {
    var t1 := Todo(1, "title 1", false);
    var t2 := Todo(2, "title 2", true);
    var s := State(Idle, [t1, t2], Sort(-1, Id));
    assert multiset([t2, t1]) == multiset(s.todos);
    UniqueByImpliesDistinctKeys(Id, [t2, t1]);
    SortedPermutationUnique(Id, -1, [t2, t1], Toggle(s, Id).todos);
  }

  /** The second: with {1, id} stored, toggling id gives [1, 2] and stores {-1, id}. */
  lemma ToggleByIdAscendingScenario()
    ensures var t1 := Todo(1, "title 1", false);
            var t2 := Todo(2, "title 2", true);
            var r := Toggle(State(Idle, [t1, t2], Sort(1, Id)), Id);
            r.todos == [t1, t2] && r.sort == Sort(-1, Id)
  {
    var t1 := Todo(1, "title 1", false);
    var t2 := Todo(2, "title 2", true);
    var s := State(Idle, [t1, t2], Sort(1, Id));
    UniqueByImpliesDistinctKeys(Id, [t1, t2]);
    SortedPermutationUnique(Id, 1, [t1, t2], Toggle(s, Id).todos);
  }

  /** The completed-column scenario: a new column sorts ascending, so an
      incomplete todo comes before a completed one and {-1, completed} is stored. */
  lemma ToggleByCompletedScenario()
    ensures var t1 := Todo(1, "title 1", false);
            var t2 := Todo(2, "title 2", true);
            var r := Toggle(State(Idle, [t1, t2], Sort(-1, Id)), Completed);
            r.todos == [t1, t2] && r.sort == Sort(-1, Completed)
  {
    var t1 := Todo(1, "title 1", false);
    var t2 := Todo(2, "title 2", true);
    var s := State(Idle, [t1, t2], Sort(-1, Id));
    UniqueByImpliesDistinctKeys(Completed, [t1, t2]);
    SortedPermutationUnique(Completed, 1, [t1, t2], Toggle(s, Completed).todos);
  }
}

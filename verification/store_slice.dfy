/**
 The todo slice of the store: its initial state, the four synchronous
 reducers, the three cases for the lifecycle of the `getTodos` fetch, and the
 projection the fetch applies to what the endpoint returns.
 */
module StoreSlice {
  import opened Wrappers
  import opened TodoModel
  import opened Sorting
  import opened TodoList

  /** The actions the slice reduces. `ToggleSortOrder` carries the optional
      explicit order of its payload; the last three are the fetch outcomes. */
  datatype Action =
    | ToggleSortOrder(property: SortProperty, order: Option<Order>)
    | CompleteTodo(todoId: int)
    | DeleteTodo(todoId: int)
    | AddTodo(title: string)
    | Pending
    | Fulfilled(payload: seq<Todo>)
    | Rejected

  const Initial: State := State(Idle, [], Sort(-1, Id))

  /** `toggleSortOrder`. The direction applied now is the stored order on the
      current column and 1 on a new one, or the negation of an explicit order;
      the stored order becomes the negation of the applied direction. */
  function Toggle(s: State, property: SortProperty, order: Option<Order>): (r: State)
    ensures r.status == s.status
    ensures multiset(r.todos) == multiset(s.todos)
    ensures r.sort.property == property
    ensures SortedBy(property, Opposite(r.sort.order), r.todos)
    ensures order.None? && property == s.sort.property ==>
              SortedBy(property, s.sort.order, r.todos) && r.sort.order == Opposite(s.sort.order)
    ensures order.None? && property != s.sort.property ==>
              SortedBy(property, 1, r.todos) && r.sort.order == -1
    ensures order.Some? ==>
              SortedBy(property, Opposite(order.value), r.todos) && r.sort.order == order.value
  {
    var current: Order := if s.sort.property == property then s.sort.order else 1;
    var applied: Order := if order.Some? then (if order.value == 1 then -1 else 1) else current;
    State(s.status, SortTodos(property, applied, s.todos), Sort(if applied == 1 then -1 else 1, property))
  }

  /** `completeTodo`: mark every todo carrying the id as completed. */
  function Complete(s: State, id: int): (r: State)
    ensures r.status == s.status && r.sort == s.sort
    ensures |r.todos| == |s.todos|
    ensures forall i | 0 <= i < |s.todos| ::
              r.todos[i] == if s.todos[i].id == id then s.todos[i].(completed := true) else s.todos[i]
  {
    MarkCompletedFrame(s.todos, id);
    State(s.status, MarkCompleted(s.todos, id), s.sort)
  }

  /** `deleteTodo`: drop every todo carrying the id. */
  function Delete(s: State, id: int): (r: State)
    ensures r.status == s.status && r.sort == s.sort
    ensures forall t :: t in r.todos <==> t in s.todos && t.id != id
    ensures (forall t | t in s.todos :: t.id != id) ==> r.todos == s.todos
    ensures forall k | 0 <= k < |s.todos| && s.todos[k].id == id && UniqueIds(s.todos) ::
              r.todos == s.todos[..k] + s.todos[k + 1..]
  {
    RemoveByIdCases(s.todos, id);
    State(s.status, RemoveById(s.todos, id), s.sort)
  }

  /** `addTodo`: append a todo whose id exceeds every id held. */
  function Add(s: State, title: string): (r: State)
    ensures r.status == s.status && r.sort == s.sort
    ensures |r.todos| == |s.todos| + 1
    ensures r.todos[..|s.todos|] == s.todos
    ensures var t := r.todos[|s.todos|];
            t.title == title && !t.completed &&
            (forall u | u in s.todos :: u.id < t.id) &&
            (t.id == 1 || exists u | u in s.todos :: u.id == t.id - 1)
  {
    var highestId := HighestIdFrom(0, s.todos);
    State(s.status, s.todos + [Todo(highestId + 1, title, false)], s.sort)
  }

  /** The slice reducer. */
  function Reduce(s: State, a: Action): (r: State)
    ensures !a.ToggleSortOrder? ==> r.sort == s.sort
    ensures !(a.Pending? || a.Fulfilled? || a.Rejected?) ==> r.status == s.status
    ensures a.Pending? ==> r.status == Loading && r.todos == s.todos
    ensures a.Fulfilled? ==> r.status == Success && r.todos == a.payload
    ensures a.Rejected? ==> r.status == Error && r.todos == s.todos
  {
    match a
    case ToggleSortOrder(property, order) => Toggle(s, property, order)
    case CompleteTodo(id) => Complete(s, id)
    case DeleteTodo(id) => Delete(s, id)
    case AddTodo(title) => Add(s, title)
    case Pending => s.(status := Loading)
    case Fulfilled(payload) => s.(status := Success, todos := payload)
    case Rejected => s.(status := Error)
  }

  /** A record as the endpoint returns it: a todo plus its owner's id. */
  datatype ApiTodo = ApiTodo(id: int, title: string, completed: bool, userId: int)

  /** The fetched records as todos: each keeps its id, title and completed
      flag and loses its owner's id, in the order received. */
  function Project(data: seq<ApiTodo>): (r: seq<Todo>)
    ensures |r| == |data|
    ensures forall i | 0 <= i < |data| ::
              r[i].id == data[i].id && r[i].title == data[i].title && r[i].completed == data[i].completed
  {
    if data == [] then [] else [Todo(data[0].id, data[0].title, data[0].completed)] + Project(data[1..])
  }

  /** Attaching any owner to todos and projecting it away gives them back. */
  lemma ProjectDropsOnlyUserId(todos: seq<Todo>, owners: seq<int>)
    requires |owners| == |todos|
    ensures Project(seq(|todos|, i requires 0 <= i < |todos| =>
                      ApiTodo(todos[i].id, todos[i].title, todos[i].completed, owners[i]))) == todos
  {
  }

  /** What the endpoint call produced: the decoded body, or a failure of any kind. */
  datatype Response = Received(data: seq<ApiTodo>) | Failed

  /** The action `getTodos` settles with: the projected body, or a rejection. */
  function Settle(response: Response): (a: Action)
    ensures a == Rejected <==> response.Failed?
    ensures response.Received? ==>
              && a.Fulfilled? && |a.payload| == |response.data|
              && forall i | 0 <= i < |response.data| ::
                   a.payload[i] == Todo(response.data[i].id, response.data[i].title, response.data[i].completed)
  {
    match response
    case Received(data) => Fulfilled(Project(data))
    case Failed => Rejected
  }

  /** One fetch from start to finish: loading while in flight, then either the
      projected records with status success, or the old todos with status error;
      the sort configuration survives both. */
  lemma LoadLifecycle(s: State, response: Response)
    ensures Reduce(s, Pending).status == Loading
    ensures var r := Reduce(Reduce(s, Pending), Settle(response));
            && r.sort == s.sort
            && (response.Received? ==> r.status == Success && r.todos == Project(response.data))
            && (response.Failed? ==> r.status == Error && r.todos == s.todos)
  {
  }

  /** Every reducer keeps ids unique, provided a fetched payload has unique ids. */
  lemma ReduceKeepsUniqueIds(s: State, a: Action)
    requires UniqueIds(s.todos)
    requires a.Fulfilled? ==> UniqueIds(a.payload)
    ensures UniqueIds(Reduce(s, a).todos)
  {
    match a
    case ToggleSortOrder(property, order) =>
      UniqueByPermutation(Id, s.todos, Reduce(s, a).todos);
    case CompleteTodo(id) =>
    case DeleteTodo(id) =>
      RemoveByIdKeepsUniqueIds(s.todos, id);
    case AddTodo(title) =>
      var r := Reduce(s, a).todos;
      assert r == s.todos + [r[|s.todos|]];
      UniqueByCons(Id, r[|s.todos|], []);
      AppendKeepsUnique(Id, s.todos, r[|s.todos|]);
    case Pending =>
    case Fulfilled(payload) =>
    case Rejected =>
  }

  /** Appending a todo whose key no held todo has keeps keys unique. */
  lemma AppendKeepsUnique(p: SortProperty, xs: seq<Todo>, t: Todo)
    requires UniqueBy(p, xs)
    requires forall u | u in xs :: KeyOf(p, u) != KeyOf(p, t)
    ensures UniqueBy(p, xs + [t])
  {
  }

  /** Toggling one column twice with no explicit order reverses the list when
      its keys in that column are distinct, and the second toggle remembers the
      opposite direction of the first. */
  lemma ToggleTwiceReverses(s: State, p: SortProperty)
    requires UniqueBy(p, s.todos)
    ensures var once := Toggle(s, p, None);
            var twice := Toggle(once, p, None);
            twice.todos == Reverse(once.todos) && twice.sort == Sort(Opposite(once.sort.order), p)
  {
    var once := Toggle(s, p, None);
    var twice := Toggle(once, p, None);
    var d := Opposite(once.sort.order);
    assert once.sort.order == Opposite(d);
    ReverseSorted(p, d, once.todos);
    ReverseIsPermutation(once.todos);
    UniqueByPermutation(p, s.todos, twice.todos);
    UniqueByImpliesDistinctKeys(p, twice.todos);
    SortedPermutationUnique(p, Opposite(d), twice.todos, Reverse(once.todos));
  }

  /** On the column it already sorts by, two toggles restore the sort configuration. */
  lemma ToggleTwiceRestoresSort(s: State)
    ensures Toggle(Toggle(s, s.sort.property, None), s.sort.property, None).sort == s.sort
  {
  }

  /** An explicit order re-applies the previous sort: the list comes out as the
      previous toggle left it ordered, and the sort configuration is unchanged. */
  lemma ExplicitOrderKeepsSort(s: State)
    ensures var r := Toggle(s, s.sort.property, Some(s.sort.order));
            r.sort == s.sort && SortedBy(s.sort.property, Opposite(s.sort.order), r.todos)
  {
  }

  /** From the initial configuration the first click on the id column sorts
      descending, and the first click on any other column sorts ascending. */
  lemma InitialFirstToggle(todos: seq<Todo>, p: SortProperty)
    ensures var r := Toggle(Initial.(todos := todos), p, None);
            && (p == Id ==> SortedBy(Id, -1, r.todos) && r.sort == Sort(1, Id))
            && (p != Id ==> SortedBy(p, 1, r.todos) && r.sort == Sort(-1, p))
  {
  }

  /** The scenario of the slice's tests: two todos, ids 1 and 2, sorted by id
      descending remembered; toggling id gives [2, 1], toggling again [1, 2]. */
  lemma ToggleByIdScenario()
    ensures var t1 := Todo(1, "Todo 1", false);
            var t2 := Todo(2, "Todo 2", true);
            var s := State(Idle, [t1, t2], Sort(-1, Id));
            var once := Toggle(s, Id, None);
            var twice := Toggle(once, Id, None);
            && once.todos == [t2, t1] && once.sort == Sort(1, Id)
            && twice.todos == [t1, t2] && twice.sort == Sort(-1, Id)
  {
    var t1 := Todo(1, "Todo 1", false);
    var t2 := Todo(2, "Todo 2", true);
    var s := State(Idle, [t1, t2], Sort(-1, Id));
    ToggleByIdFirst(s, t1, t2);
    ToggleTwiceReverses(s, Id);
    assert Reverse([t2, t1]) == [t1, t2];
  }

  /** The first toggle of the scenario: the stored -1 on id sorts descending. */
  lemma ToggleByIdFirst(s: State, t1: Todo, t2: Todo)
    requires t1 == Todo(1, "Todo 1", false) && t2 == Todo(2, "Todo 2", true)
    requires s == State(Idle, [t1, t2], Sort(-1, Id))
    ensures Toggle(s, Id, None).todos == [t2, t1]
  {
    var once := Toggle(s, Id, None);
    assert multiset([t2, t1]) == multiset(s.todos);
    UniqueByImpliesDistinctKeys(Id, [t2, t1]);
    SortedPermutationUnique(Id, -1, [t2, t1], once.todos);
  }
}

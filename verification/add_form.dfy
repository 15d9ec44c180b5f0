/**
 The submit handler of the add form: it trims the typed title, refuses an
 empty title, a title already held and a submit while todos load, and
 otherwise dispatches `addTodo` followed by a toggle that re-applies the
 remembered sort.
 */
module AddForm {
  import opened Wrappers
  import opened TodoModel
  import opened Sorting
  import opened TodoList
  import opened StoreSlice
  import opened Trimming

  /** The code points `String.prototype.trim` strips: the ECMAScript
      WhiteSpace and LineTerminator characters. */
  predicate IsWhitespace(c: char)
  {
    var n := c as int;
    || 0x09 <= n <= 0x0D       // tab, line feed, vertical tab, form feed, carriage return
    || n == 0x20 || n == 0xA0 || n == 0x1680
    || 0x2000 <= n <= 0x200A
    || n == 0x2028 || n == 0x2029 || n == 0x202F || n == 0x205F || n == 0x3000
    || n == 0xFEFF
  }

  /** The typed title as `title.trim()` leaves it. */
  function TrimTitle(input: string): string
  {
    Trim(IsWhitespace, input)
  }

  /** The kind of alert an error is shown with. */
  datatype AlertType = ErrorAlert | InfoAlert

  /** The error the form shows; an unset type shows as an error. */
  datatype TitleError = TitleError(message: string, kind: Option<AlertType>)

  const EmptyTitleMessage := "Title can not be empty"
  const DuplicateTitleMessage := "Title already exists"
  const LoadingMessage := "Please wait for todos to load"

  predicate HasTitle(todos: seq<Todo>, title: string)
  {
    exists t | t in todos :: t.title == title
  }

  /** `handleSubmit`: the actions dispatched for a typed title, or the error
      shown instead. The checks run in order: empty, duplicate, loading. */
  function HandleSubmit(s: State, input: string): (r: Result<seq<Action>, TitleError>)
    ensures (forall k | 0 <= k < |input| :: IsWhitespace(input[k])) ==>
              r == Err(TitleError(EmptyTitleMessage, None))
    ensures (exists k | 0 <= k < |input| :: !IsWhitespace(input[k])) && HasTitle(s.todos, TrimTitle(input)) ==>
              r == Err(TitleError(DuplicateTitleMessage, None))
    ensures (exists k | 0 <= k < |input| :: !IsWhitespace(input[k])) && !HasTitle(s.todos, TrimTitle(input))
              && s.status == Loading ==>
              r == Err(TitleError(LoadingMessage, Some(InfoAlert)))
    ensures r.Ok? <==>
              (exists k | 0 <= k < |input| :: !IsWhitespace(input[k]))
              && !HasTitle(s.todos, TrimTitle(input)) && s.status != Loading
    ensures r.Ok? ==>
              r.value == [AddTodo(TrimTitle(input)), ToggleSortOrder(s.sort.property, Some(s.sort.order))]
  {
    var trimmedTitle := TrimTitle(input);
    if trimmedTitle == "" then Err(TitleError(EmptyTitleMessage, None))
    else if HasTitle(s.todos, trimmedTitle) then Err(TitleError(DuplicateTitleMessage, None))
    else if s.status == Loading then Err(TitleError(LoadingMessage, Some(InfoAlert)))
    else Ok([AddTodo(trimmedTitle), ToggleSortOrder(s.sort.property, Some(s.sort.order))])
  }

  /** The store after the dispatched actions, in order. */
  function Dispatch(s: State, actions: seq<Action>): State
    decreases |actions|
  {
    if actions == [] then s else Dispatch(Reduce(s, actions[0]), actions[1..])
  }

  lemma DispatchPair(s: State, a: Action, b: Action)
    ensures Dispatch(s, [a, b]) == Reduce(Reduce(s, a), b)
  {
    assert [a, b][1..] == [b];
    assert [b][1..] == [];
    calc {
      Dispatch(s, [a, b]);
      Dispatch(Reduce(s, a), [b]);
      Dispatch(Reduce(Reduce(s, a), b), []);
    }
  }

  /** The store after a submit: unchanged when the submit is refused. */
  function Submit(s: State, input: string): (r: State)
    ensures r.sort == s.sort && r.status == s.status
    ensures HandleSubmit(s, input).Err? ==> r == s
    ensures HandleSubmit(s, input).Ok? ==> |r.todos| == |s.todos| + 1
  {
    match HandleSubmit(s, input)
    case Ok(actions) =>
      var add := AddTodo(TrimTitle(input));
      var toggle := ToggleSortOrder(s.sort.property, Some(s.sort.order));
      DispatchPair(s, add, toggle);
      var r := Dispatch(s, actions);
      assert |r.todos| == |multiset(r.todos)| == |multiset(Reduce(s, add).todos)|;
      r
    case Err(_) => s
  }

  /** An accepted submit adds exactly one todo, with a fresh id and the
      trimmed title, then re-sorts the list in the direction the previous
      toggle applied; the sort configuration and the status are as before. */
  lemma AcceptedSubmit(s: State, input: string)
    requires HandleSubmit(s, input).Ok?
    ensures var r := Submit(s, input);
            && r.sort == s.sort
            && r.status == s.status
            && multiset(r.todos) == multiset(s.todos) + multiset{Todo(NextId(s.todos), TrimTitle(input), false)}
            && SortedBy(s.sort.property, Opposite(s.sort.order), r.todos)
  {
    var title := TrimTitle(input);
    var toggle := ToggleSortOrder(s.sort.property, Some(s.sort.order));
    var added := Add(s, title);
    var sorted := Toggle(added, s.sort.property, Some(s.sort.order));
    assert HandleSubmit(s, input).value == [AddTodo(title), toggle];
    DispatchPair(s, AddTodo(title), toggle);
    assert Dispatch(s, [AddTodo(title), toggle]) == sorted;
    assert Submit(s, input) == sorted;
    var t := added.todos[|s.todos|];
    assert added.todos == s.todos + [t];
    assert t.id == NextId(s.todos);
  }

  /** A refused submit leaves the store as it was. */
  lemma RefusedSubmit(s: State, input: string)
    requires HandleSubmit(s, input).Err?
    ensures Submit(s, input) == s
  {
  }

  predicate NonEmptyTitles(todos: seq<Todo>)
  {
    forall t | t in todos :: t.title != []
  }

  /** Submits keep the store's title invariants: titles non-empty, titles
      pairwise distinct, ids pairwise distinct. */
  lemma SubmitKeepsInvariants(s: State, input: string)
    ensures NonEmptyTitles(s.todos) ==> NonEmptyTitles(Submit(s, input).todos)
    ensures UniqueBy(Title, s.todos) ==> UniqueBy(Title, Submit(s, input).todos)
    ensures UniqueIds(s.todos) ==> UniqueIds(Submit(s, input).todos)
  {
    if HandleSubmit(s, input).Ok? {
      AcceptedSubmit(s, input);
      var t := Todo(NextId(s.todos), TrimTitle(input), false);
      var r := Submit(s, input).todos;
      assert multiset(r) == multiset(s.todos + [t]);
      forall u | u in r ensures u in s.todos || u == t {
        assert u in multiset(r);
      }
      if UniqueBy(Title, s.todos) {
        AppendKeepsUnique(Title, s.todos, t);
        UniqueByPermutation(Title, s.todos + [t], r);
      }
      if UniqueIds(s.todos) {
        AppendKeepsUnique(Id, s.todos, t);
        UniqueByPermutation(Id, s.todos + [t], r);
      }
    }
  }
}

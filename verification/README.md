# Todo store reducer, modelled in Dafny

This project models the state management of a small todo-list web app. It is
a Redux slice named `todos` whose state holds three things:

- a fetch `status`: idle, loading, success or error;
- the list of `todos`, each `{id, title, completed}`;
- the remembered `sort`, which is `{order: 1 | -1, property}`.

The model covers the parts that carry rules:

- **The current slice** (`src/store/features/todo/todosSlice.ts`). It has four
  reducers: `toggleSortOrder`, `completeTodo`, `deleteTodo` and `addTodo`. It
  also has the three cases for the `getTodos` fetch (pending, fulfilled,
  rejected) and the projection that drops `userId` from fetched records.
- **The earlier slice** (`src/features/todo/todosSlice.ts`). Its toggle takes
  only a column, and it has no `addTodo`.
- **The add form's submit handler** (`src/components/TodoAddForm.tsx`). It
  trims the title. It refuses an empty title, then a title already held, then
  a submit while todos load. Otherwise it dispatches `addTodo` and then a
  toggle that re-applies the remembered sort.

Each reducer is a pure function `State × Action → State` on immutable
datatypes. The modules follow the program's structure:

| file | module | contents |
|---|---|---|
| wrappers.dfy | `Wrappers` | `Option`, `Result` |
| model.dfy | `TodoModel` | `Todo`, `Sort`, `Status`, `State`; per-column keys; unique-key predicates and how they survive a reordering |
| ordering.dfy | `Ordering` | JavaScript's `<` on each column; the sort comparator as written and its consistent counterpart |
| sorting.dfy | `Sorting` | "sorted by column p in direction d"; a sort that meets it; reversal; uniqueness of a sorted permutation |
| todo_list.dfy | `TodoList` | the map, filter and running maximum behind `completeTodo`, `deleteTodo` and `addTodo` |
| store_slice.dfy | `StoreSlice` | the current slice: actions, reducer cases, fetch outcome, toggle lemmas |
| legacy_slice.dfy | `LegacySlice` | the earlier slice, proved equal to the current one with no explicit order |
| trim.dfy | `Trimming` | `String.prototype.trim` over a whitespace predicate given as a parameter |
| add_form.dfy | `AddForm` | the ECMAScript whitespace set, the submit checks, and the dispatched pair run through the reducer |

The sort direction uses the store's sign encoding. The direction applied now
is the stored order when the column is the same, and 1 on a new column. An
explicit order `o` is applied as `-o`. After sorting, the stored order is the
negation of the direction just applied. So after any toggle the list is
sorted in direction `-sort.order`. A toggle given the current column and the
current order therefore re-applies the previous sort and leaves `sort`
unchanged (`StoreSlice.ExplicitOrderKeepsSort`). The add form makes exactly
this call. An explicit order on another column, or a different order, stores
that column and order instead.

`Array.prototype.sort` is specified only by what callers may rely on: the
result is a permutation of the input, ordered by the key in the applied
direction. `Sorting.SortTodos` is one function that meets this (an insertion
sort). No lemma's statement depends on how it orders ties. Where keys are
distinct, `Sorting.SortedPermutationUnique` shows that every sorted
permutation is the same list. The scenario lemmas of both slices prove their
exact results through it, from the sort's contract alone.

Two places where the code differs from what a reader might expect. The model
follows the code in both:

- Toggling one column twice does not give back the original list. It gives
  the reverse of the first toggle's output, when the column's keys are
  distinct (`StoreSlice.ToggleTwiceReverses`).
- From the initial state `{order: -1, property: id}`, the first click on the
  id column sorts descending. The first click on any other column sorts
  ascending (`StoreSlice.InitialFirstToggle`).

## Model

| member | source | states |
|---|---|---|
| Ordering.StrLessTransitive | src/store/features/todo/todosSlice.ts:50 | JavaScript's string `<` (lexicographic, a proper prefix smaller) is transitive |
| Ordering.StrLessTrichotomy | src/store/features/todo/todosSlice.ts:50 | any two strings are equal or one is `<` the other |
| Ordering.KeyLessIsStrictTotalOrder | src/store/features/todo/todosSlice.ts:50 | in each column (numeric id, lexicographic title, `false < true` for completed), `<` is asymmetric, trichotomous up to equal keys, irreflexive on equal keys, and transitive |
| Ordering.SourceComparator | src/store/features/todo/todosSlice.ts:50 | the comparator as written: never zero; in direction 1 it puts a after b exactly when a's key is greater, in direction -1 exactly when a's key is not greater |
| Ordering.SourceComparatorInconsistent | src/store/features/todo/todosSlice.ts:50 | on two todos with equal keys, the comparator as written returns `-d` for both argument orders, so it gives no consistent answer on ties |
| Ordering.SourceComparatorTieExample | src/store/features/todo/todosSlice.ts:50 | two todos both titled "Todo", sorted by title ascending: each argument order says "first argument first" |
| Ordering.Compare | src/store/features/todo/todosSlice.ts:50 | the consistent comparator: zero exactly when the keys are equal; positive (a goes after b) when a's key is greater in direction 1, or smaller in direction -1 |
| Ordering.CompareAgreesOffTies | src/store/features/todo/todosSlice.ts:50 | on pairs with different keys, the consistent comparator equals the one as written |
| Ordering.CompareAntisymmetric | src/store/features/todo/todosSlice.ts:50 | swapping the arguments negates the result, and so does flipping the direction |
| Ordering.PrecedesIsTotalPreorder | src/store/features/todo/todosSlice.ts:50 | "may come before" is total and transitive, ties both ways only on equal keys, and the opposite direction is its converse |
| Sorting.SortTodos | src/store/features/todo/todosSlice.ts:50 | the result is a permutation of the input, ordered by the column in the given direction |
| Sorting.SortedPermutationUnique | src/store/features/todo/todosSlice.ts:50 | two sorted permutations of each other are equal when todos with the same key are the same todo, so tie order can only matter for equal keys |
| Sorting.ReverseSorted | src/store/features/todo/todosSlice.ts:50 | a list sorted in one direction, read backwards, is sorted in the other direction |
| Sorting.ReverseIsPermutation | src/store/features/todo/todosSlice.ts:50 | reversal keeps the same todos |
| TodoList.MarkCompleted | src/store/features/todo/todosSlice.ts:56-58 | same length; each position keeps its id and title; completed becomes true exactly where the id matches, and stays as it was elsewhere |
| TodoList.MarkCompletedFrame | src/store/features/todo/todosSlice.ts:56-58 | todos with another id are unchanged; matching todos differ from before only in `completed = true` |
| TodoList.MarkCompletedUnknownId | src/store/features/todo/todosSlice.ts:56-58 | completing an id nobody has leaves the list unchanged |
| TodoList.MarkCompletedIdempotent | src/store/features/todo/todosSlice.ts:56-58 | completing the same id twice is the same as completing it once |
| TodoList.RemoveById | src/store/features/todo/todosSlice.ts:63 | a todo is in the result exactly when it was in the input with another id; the list never grows |
| TodoList.RemoveByIdConcat | src/store/features/todo/todosSlice.ts:63 | filtering distributes over concatenation, so the relative order of kept todos is preserved |
| TodoList.RemoveByIdUnknownId | src/store/features/todo/todosSlice.ts:63 | deleting an id nobody has leaves the list unchanged |
| TodoList.RemoveByIdUnique | src/store/features/todo/todosSlice.ts:63 | with unique ids, deleting the id at position k gives the list without position k, one shorter |
| TodoList.RemoveByIdCases | src/store/features/todo/todosSlice.ts:61-64 | the unknown-id and the held-once cases of deletion together |
| TodoList.RemoveByIdKeepsUniqueIds | src/store/features/todo/todosSlice.ts:63 | deleting keeps ids pairwise distinct |
| TodoList.HighestIdFrom | src/store/features/todo/todosSlice.ts:66-68 | the left fold returns at least the seed and every id, and is the seed or one of the ids |
| TodoList.NextId | src/store/features/todo/todosSlice.ts:66-69 | the new id is at least 1 and above every held id; it is 1 or one more than a held id, which makes it max(ids, 0) + 1 |
| TodoList.NextIdIgnoresOrder | src/store/features/todo/todosSlice.ts:66-68 | the new id depends only on which todos are held, not on their order |
| StoreSlice.Toggle | src/store/features/todo/todosSlice.ts:46-53 | status kept; the todos are permuted and the property is set. Same column, no order: sorted in the stored direction, stored order negated. New column, no order: sorted ascending, order -1 stored. Explicit order o: sorted in direction -o, o stored. Always sorted in direction -(stored order) |
| StoreSlice.Complete | src/store/features/todo/todosSlice.ts:54-60 | status and sort kept; same length and order; exactly the todos with the id become `completed = true`, all others are unchanged |
| StoreSlice.Delete | src/store/features/todo/todosSlice.ts:61-64 | status and sort kept; the todos with the id are removed; an unknown id changes nothing; with unique ids the one matching position is removed and the rest keep their order |
| StoreSlice.Add | src/store/features/todo/todosSlice.ts:65-70 | status and sort kept; the old list is an unchanged prefix; one todo is appended, not completed, with the given title and an id above every held id (1, or one more than a held id) |
| StoreSlice.Reduce | src/store/features/todo/todosSlice.ts:42-82 | only a toggle changes the sort and only fetch actions change the status; pending sets loading and keeps todos; fulfilled sets success and replaces todos with the payload; rejected sets error and keeps todos |
| StoreSlice.Project | src/store/features/todo/todosSlice.ts:92 | same length; each record keeps its id, title and completed flag |
| StoreSlice.Settle | src/store/features/todo/todosSlice.ts:88-97 | a failed request settles as `rejected`, and only a failed one; a received body settles as `fulfilled` with one todo per record, in order, each keeping id, title and completed |
| StoreSlice.ProjectDropsOnlyUserId | src/store/features/todo/todosSlice.ts:92 | attaching any `userId` to todos and projecting gives the todos back |
| StoreSlice.LoadLifecycle | src/store/features/todo/todosSlice.ts:72-81 | one fetch: loading while in flight; then success with the projected records, or error with the old todos; the sort survives both |
| StoreSlice.ReduceKeepsUniqueIds | src/store/features/todo/todosSlice.ts:42-82 | every action keeps ids pairwise distinct, given that a fetched payload has distinct ids |
| StoreSlice.AppendKeepsUnique | src/store/features/todo/todosSlice.ts:69 | appending a todo whose key is not held keeps keys pairwise distinct |
| StoreSlice.ToggleTwiceReverses | src/store/features/todo/todosSlice.ts:48-52 | with distinct keys in the column, a second toggle with no order gives the reverse of the first toggle's list and stores the opposite order |
| StoreSlice.ToggleTwiceRestoresSort | src/store/features/todo/todosSlice.ts:48-52 | toggling the current column twice restores the sort configuration |
| StoreSlice.ExplicitOrderKeepsSort | src/store/features/todo/todosSlice.ts:49-52 | a toggle with the current column and the current order leaves the sort unchanged and sorts in direction -order |
| StoreSlice.InitialFirstToggle | src/store/features/todo/todosSlice.ts:33-52 | from the initial sort, the first id click sorts descending and stores {1, id}; the first click on another column sorts ascending and stores {-1, column} |
| StoreSlice.ToggleByIdScenario | src/components/TodosList.test.tsx:85-92 | with ids 1 and 2 and {-1, id} stored: one toggle gives [2, 1] and {1, id}; a second gives [1, 2] and {-1, id} |
| LegacySlice.Toggle | src/features/todo/todosSlice.ts:40-46 | status kept; the todos are permuted and the property is set; same column: sorted in the stored direction, stored order negated; new column: sorted ascending, order -1 stored |
| LegacySlice.Reduce | src/features/todo/todosSlice.ts:36-69 | only a toggle changes the sort; pending, fulfilled and rejected set status to loading, success and error; fulfilled replaces the todos; the others keep them |
| LegacySlice.ReduceIsCurrentWithoutOrder | src/features/todo/todosSlice.ts:36-69 | every action of the earlier slice reduces as the current slice's action does, with a toggle that has no explicit order |
| LegacySlice.InitialFirstToggle | src/features/todo/todosSlice.ts:27-45 | both slices start from {idle, [], {-1, id}}; from it the first id click sorts descending, and any other first click sorts ascending |
| LegacySlice.ToggleByIdDescendingScenario | src/features/todo/todoSlice.spec.ts:32-35 | with {-1, id} stored, toggling id on [1, 2] gives [2, 1] and stores {1, id} |
| LegacySlice.ToggleByIdAscendingScenario | src/features/todo/todoSlice.spec.ts:37-39 | with {1, id} stored, toggling id on [1, 2] gives [1, 2] and stores {-1, id} |
| LegacySlice.ToggleByCompletedScenario | src/features/todo/todoSlice.spec.ts:52-55 | a first click on completed puts the incomplete todo first and stores {-1, completed} |
| Trimming.Leading | src/components/TodoAddForm.tsx:26 | the count is at most the length; every character before it is whitespace and the one at it, if any, is not |
| Trimming.Trailing | src/components/TodoAddForm.tsx:26 | the count is at most the length; every character in the last `n` is whitespace and the one just before them, if any, is not |
| Trimming.Trim | src/components/TodoAddForm.tsx:26 | the result is the slice of the input between its leading and trailing whitespace; it does not start or end with whitespace; it is empty exactly when the input is all whitespace |
| Trimming.TrimUnique | src/components/TodoAddForm.tsx:26 | any slice that leaves out only whitespace and neither starts nor ends with whitespace is the trimmed string, so the contract of `Trim` determines it |
| Trimming.TrimIdempotent | src/components/TodoAddForm.tsx:26 | trimming twice is trimming once |
| AddForm.HandleSubmit | src/components/TodoAddForm.tsx:24-49 | all-whitespace input: "Title can not be empty". Else a held title: "Title already exists". Else while loading: "Please wait for todos to load" as info. Accepted exactly in the remaining case, and then dispatches `addTodo(trimmed)` and `toggleSortOrder({property, order})` with the current sort |
| AddForm.DispatchPair | src/components/TodoAddForm.tsx:46-47 | dispatching two actions runs the reducer on the first, then on the second |
| AddForm.Submit | src/components/TodoAddForm.tsx:24-49 | a submit never changes the sort or the status; a refused submit leaves the store as it was; an accepted one makes the list one longer |
| AddForm.AcceptedSubmit | src/components/TodoAddForm.tsx:46-47 | after an accepted submit: sort and status are as before; the todos are the old ones plus one `{NextId, trimmed title, false}`, sorted in direction -order, which is the direction the previous toggle applied |
| AddForm.RefusedSubmit | src/components/TodoAddForm.tsx:27-44 | a refused submit leaves the store unchanged |
| AddForm.SubmitKeepsInvariants | src/components/TodoAddForm.tsx:26-47 | submits keep titles non-empty, titles pairwise distinct and ids pairwise distinct |

## Left out

- Rendering is not modelled: the JSX of the list, the form and the app, the 20-character title truncation, the spinner and the buttons. It is view code.
- The form's own UI state is not modelled: the `title` and `titleError` hooks, `setTitle("")` and the Alert. Only the outcome of `handleSubmit` is modelled, as the error it would show or the actions it dispatches.
- The network call of `getTodos` (axios, the URL, `rejectWithValue`) is not modelled. Its outcome is the parameter `StoreSlice.Response`: either the decoded records or a failure of any kind. The earlier slice's `src/features/todo/todoAPI.ts` does the same projection and is not part of this model.
- Overlapping fetches are not modelled. A fulfilled fetch overwrites the todos unconditionally, whatever happened while it was in flight.
- Redux and Immer are not modelled: the store configuration, draft mutation, and creating the initial state from an `undefined` state or an unknown action type. Each reducer is a pure function on an immutable state.
- Sorting.SortTodos: the exact algorithm of `Array.prototype.sort` is not modelled. The contract promises only a key-sorted permutation and leaves tie order open. Its body is a stable insertion sort, which fixes one tie order that is not necessarily the engine's; callers can see that body, but no lemma's statement relies on it. ECMAScript leaves the order implementation-defined for a comparator as inconsistent as this one, so the model assumes the engine still returns a key-sorted permutation.
- Ordering.StrLess compares strings character by character as Unicode scalar values. JavaScript compares UTF-16 code units. The two orders differ only for characters outside the Basic Multilingual Plane.
- Ids are JavaScript numbers but are modelled as unbounded integers. Fractional ids, NaN and precision loss above 2^53 are not modelled.
- AddForm.IsWhitespace: `Trimming` is generic over the whitespace predicate, and this is the instance `trim` uses. It lists the ECMAScript WhiteSpace and LineTerminator code points, with the space separators of current Unicode versions. Later changes to the Unicode space-separator category are not tracked.
- StoreSlice.ApiTodo has only the four declared fields. Other fields the endpoint might send, which the rest-spread would keep, are not modelled.

## Findings

| source | as written | input that shows it | evidently intended | confidence | as-written member | corrected member |
|---|---|---|---|---|---|---|
| src/store/features/todo/todosSlice.ts:50 | the comparator `sortOrder * (a[p] > b[p] ? 1 : -1)` never returns 0. For two todos with equal keys, both argument orders return `-sortOrder`, which is not a consistent comparator. The earlier slice has the same comparator at src/features/todo/todosSlice.ts:43 | `{id: 1, title: "Todo"}` and `{id: 2, title: "Todo"}`, sorted by title in direction 1: both comparisons return -1 | a three-way comparator returning 0 on ties, so that swapping the arguments negates the result | medium; not executed | Ordering.SourceComparatorTieExample | Ordering.Compare |

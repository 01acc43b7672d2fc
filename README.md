# Todo list component, modelled in Dafny

The repository is a client-side todo list widget. It lets the user add,
rename, complete, delete, filter and bulk-clear tasks. All of its state lives
in memory in one React component, `TodoList`. This project models that
component's logic:

- **`Todos`** (`todo.dfy`): the todo record (id, title, completed flag,
  creation and update timestamps), the filter selector (`All`, `Active`,
  `Completed`), and a nullable value (`Option`). It also defines the id
  sequence of a collection, the "ids are unique" predicate, and `Matches`.
  `Matches` is the reference definition of what each filter shows.
- **`Seqs`** (`seqs.dfy`): the two array methods the component uses,
  `Array.prototype.filter` and `Array.prototype.map`, as recursive functions.
  The module also defines the order-preserving subsequence relation, and
  `Weave`, which interleaves two sequences.
- **`Text`** (`text.dfy`): `String.prototype.trim`. It strips the characters
  that ECMA-262 lists as WhiteSpace and LineTerminator from both ends.
- **`TodoStore`** (`todo_store.dfy`): the pure part of the component. This is
  every updater a handler passes to the collection setter, as a total
  function from the old collection to the new one: add, delete, toggle,
  rename or delete on commit, and clear completed. It also holds the two
  derived values: the filtered view and the remaining count. The lemmas
  relating these operations are here too.
- **`TodoComponent`** (`todo_list.dfy`): the component as a class with its
  five state fields (`todos`, `newTitle`, `filter`, `editingId`,
  `editingTitle`). Each handler is a method that updates those fields step
  by step, as the source does. Each method's postcondition gives the new
  collection as the value of the matching `TodoStore` function. It also says
  which other fields change and that unique ids stay unique.

The two nondeterministic calls are parameters of the operations that use
them. `crypto.randomUUID()` becomes an `id` argument and `Date.now()` becomes
an integer `now` argument. Uniqueness of ids is not something the component
enforces: the model proves that every transition keeps ids unique, with one
condition for adding, namely that the supplied id does not already occur.
It proves likewise that every transition keeps every title non-empty and
trimmed (`TodoStore.TitlesTrimmed`), with no condition at all.

Points where the model follows the code rather than a looser reading of it:

- `commitEdit` returns early on `!editingId`. In JavaScript that is true
  both for `null` and for the empty string. So an edit whose target id is
  `""` is treated as no edit at all: nothing changes, and the editing
  fields are not cleared (`TodoStore.NoEditTarget`).
- Delete, toggle and rename act on every item carrying the id, because they
  are a `filter` or a `map` over the whole array. "Exactly one item is
  removed" therefore needs unique ids, and the model states it under that
  condition (`RemovePresentShrinksByOne`, `CommitBlankEditRemovesOne`).
- One might expect a todo's title to be trimmed once. In the code, the
  title is trimmed in `addTodo` and then trimmed again inside `createTodo`.
  The model keeps both trims and proves the title is still the once-trimmed
  text, using `Text.TrimIdempotent`.

## Model

| member | source | states |
|---|---|---|
| `TodoStore.CreateTodo` | todolist-app/src/components/TodoList.tsx:5-14 | a new todo has the given id, is not completed, has equal creation and update times, and carries the input's own trimmed text `Trim(title)`: empty exactly when the input was blank, otherwise without white space at either end |
| `TodoStore.Add` | todolist-app/src/components/TodoList.tsx:39-43 | a blank title leaves the collection unchanged; otherwise the collection grows by one, the new todo `Todo(id, trim(title), false, now, now)` is at index 0, and the old items follow in their order |
| `TodoComponent.TodoList.AddTodo` | todolist-app/src/components/TodoList.tsx:39-44 | a blank typed title changes neither `todos` nor `newTitle`; otherwise the new todo is prepended and `newTitle` becomes empty; a fresh id keeps ids unique; trimmed titles stay trimmed |
| `TodoStore.Remove` | todolist-app/src/components/TodoList.tsx:46-48 | no item with the id remains; every other item is kept with its multiplicity and in its order (the result is a subsequence of the input); an absent id changes nothing |
| `TodoComponent.TodoList.DeleteTodo` | todolist-app/src/components/TodoList.tsx:46-48 | the collection becomes the one without the id; unique ids stay unique; trimmed titles stay trimmed |
| `TodoStore.Toggle` | todolist-app/src/components/TodoList.tsx:50-56 | length, id sequence, titles and creation times are kept; items with the id have `completed` flipped and `updatedAt` set to now; all other items are unchanged; an absent id changes nothing |
| `TodoComponent.TodoList.ToggleTodo` | todolist-app/src/components/TodoList.tsx:50-56 | the collection becomes the toggled one; unique ids stay unique; trimmed titles stay trimmed |
| `TodoStore.ToggleTwiceRestoresFlags` | todolist-app/src/components/TodoList.tsx:50-56 | toggling the same id twice restores every `completed` flag; the toggled items keep only the second timestamp, and all other items are unchanged |
| `TodoComponent.TodoList.StartEdit` | todolist-app/src/components/TodoList.tsx:58-61 | only `editingId` and `editingTitle` change: they become the given id and title |
| `TodoStore.Rename` | todolist-app/src/components/TodoList.tsx:70-74 | items with the id get the new title and update time; everything else, including length and id order, is unchanged |
| `TodoStore.CommitEdit` | todolist-app/src/components/TodoList.tsx:63-78 | with no edit target (null or the empty string) the collection is unchanged; with blank text the target is removed exactly as by delete; otherwise the target's title becomes the trimmed text, it gets the new update time, and nothing else changes |
| `TodoComponent.TodoList.CommitEdit` | todolist-app/src/components/TodoList.tsx:63-78 | with no edit target nothing changes at all; otherwise the collection is updated as above and both editing fields are cleared; unique ids stay unique; trimmed titles stay trimmed |
| `TodoStore.CommitEditOfAbsentIdKeepsTodos` | todolist-app/src/components/TodoList.tsx:63-78 | committing an edit whose target is no longer in the collection leaves the collection unchanged, whatever the text |
| `TodoStore.CommitBlankEditRemovesOne` | todolist-app/src/components/TodoList.tsx:65-68 | with unique ids, a blank commit on a present item shrinks the collection by exactly one and leaves no item with that id |
| `TodoComponent.TodoList.CancelEdit` | todolist-app/src/components/TodoList.tsx:80-83 | both editing fields are cleared; nothing else, in particular not `todos`, changes |
| `TodoStore.ClearCompleted` | todolist-app/src/components/TodoList.tsx:85-87 | no completed item remains; every active item is kept with its multiplicity and in its order |
| `TodoComponent.TodoList.ClearCompleted` | todolist-app/src/components/TodoList.tsx:85-87 | the collection becomes its active items; unique ids stay unique; trimmed titles stay trimmed |
| `TodoStore.ClearCompletedIdempotent` | todolist-app/src/components/TodoList.tsx:85-87 | clearing completed items twice is the same as clearing them once |
| `TodoStore.ClearCompletedWithoutCompletedIsIdentity` | todolist-app/src/components/TodoList.tsx:85-87 | with no completed item, clearing completed items is the identity |
| `TodoStore.FilteredView` | todolist-app/src/components/TodoList.tsx:23-32 | `All` shows the collection itself; every view is an order-preserving subsequence holding exactly the items `Matches` accepts, each as often as in the collection |
| `TodoComponent.TodoList.FilteredTodos` | todolist-app/src/components/TodoList.tsx:23-32 | the shown items are the collection's filtered view: all items under `all`, otherwise exactly those the current filter matches |
| `TodoComponent.TodoList.RemainingCount` | todolist-app/src/components/TodoList.tsx:34-37 | the remaining count is the length of the active view of the current collection |
| `TodoStore.NoEditTarget` | todolist-app/src/components/TodoList.tsx:64 | the definition of `!editingId` for a `string \| null`: true for null and for the empty string, the two falsy values |
| `TodoStore.RemainingCount` | todolist-app/src/components/TodoList.tsx:34-37 | the count is at most the length, zero exactly when every item is completed, and the full length exactly when none is |
| `TodoStore.RemainingCountIsActiveViewLength` | todolist-app/src/components/TodoList.tsx:23-37 | the remaining count equals the length of the active view |
| `TodoStore.ViewsPartition` | todolist-app/src/components/TodoList.tsx:23-32 | the active and completed views partition the collection: their multisets add up to the collection's, and their lengths to its length |
| `TodoStore.ViewsRebuildCollection` | todolist-app/src/components/TodoList.tsx:23-32 | interleaving the active and completed views along the completion flags rebuilds the collection in its original order |
| `Seqs.FilterWeave` | todolist-app/src/components/TodoList.tsx:26-28 | splitting a sequence with a predicate and its negation, then weaving the parts back along the predicate's values, gives the sequence again |
| `Seqs.Filter` | todolist-app/src/components/TodoList.tsx:47 | `filter` returns an order-preserving subsequence holding exactly the elements that satisfy the predicate; when all of them do, it returns the input itself |
| `Seqs.FilterMultiplicity` | todolist-app/src/components/TodoList.tsx:86 | `filter` keeps each satisfying element as often as it occurs in the input, and no other element |
| `Seqs.Map` | todolist-app/src/components/TodoList.tsx:52-54 | `map` keeps the length and applies the function at every index |
| `Text.Trim` | todolist-app/src/components/TodoList.tsx:40 | the trimmed text is empty exactly when the input is all white space; otherwise it neither starts nor ends with white space |
| `Text.TrimIsInnerSlice` | todolist-app/src/components/TodoList.tsx:65 | trimming returns a contiguous slice of the input with only white space on either side of it |
| `Text.TrimIdempotent` | todolist-app/src/components/TodoList.tsx:9 | trimming an already trimmed text changes nothing, so `createTodo` trimming the trimmed title again is harmless |
| `TodoStore.RemoveUndoesAdd` | todolist-app/src/components/TodoList.tsx:39-48 | deleting the fresh id that a todo was just added under restores the collection, for a blank title (nothing added) as well |
| `TodoStore.RemovePresentShrinksByOne` | todolist-app/src/components/TodoList.tsx:46-48 | with unique ids, deleting a present id removes exactly one item |
| `TodoStore.AddKeepsTitlesTrimmed` | todolist-app/src/components/TodoList.tsx:5-14 | adding keeps every title non-empty and trimmed, since the new title is the trimmed text of a non-blank input |
| `TodoStore.RemoveKeepsTitlesTrimmed` | todolist-app/src/components/TodoList.tsx:46-48 | deleting keeps every title non-empty and trimmed |
| `TodoStore.ToggleKeepsTitlesTrimmed` | todolist-app/src/components/TodoList.tsx:50-56 | toggling keeps every title non-empty and trimmed |
| `TodoStore.CommitEditKeepsTitlesTrimmed` | todolist-app/src/components/TodoList.tsx:63-78 | committing an edit keeps every title non-empty and trimmed: a blank text deletes, any other text renames to its trimmed form |
| `TodoStore.ClearCompletedKeepsTitlesTrimmed` | todolist-app/src/components/TodoList.tsx:85-87 | clearing completed items keeps every title non-empty and trimmed |
| `TodoStore.AddKeepsIdsUnique` | todolist-app/src/components/TodoList.tsx:5-14 | adding under an id not yet in the collection keeps ids unique |
| `TodoStore.RemoveKeepsIdsUnique` | todolist-app/src/components/TodoList.tsx:46-48 | deleting keeps ids unique |
| `TodoStore.ToggleKeepsIdsUnique` | todolist-app/src/components/TodoList.tsx:50-56 | toggling keeps ids unique |
| `TodoStore.CommitEditKeepsIdsUnique` | todolist-app/src/components/TodoList.tsx:63-78 | committing an edit keeps ids unique |
| `TodoStore.ClearCompletedKeepsIdsUnique` | todolist-app/src/components/TodoList.tsx:85-87 | clearing completed items keeps ids unique |
| `TodoStore.SubsequenceKeepsIdsUnique` | todolist-app/src/components/TodoList.tsx:47 | every order-preserving subsequence of a collection with unique ids has unique ids; this is why every `filter` updater keeps them unique |
| `TodoStore.BuyMilkScenario` | todolist-app/src/components/TodoList.tsx:39-78 | starting empty: adding "Buy milk" gives one active todo with that title; toggling it completes it and leaves zero remaining; committing the blank edit "  " on it empties the collection |
| `TodoStore.NewestFirstScenario` | todolist-app/src/components/TodoList.tsx:39-44 | adding "A" and then "B" lists B before A, and clearing completed items then changes nothing |
| `TodoComponent.TodoList.constructor` | todolist-app/src/components/TodoList.tsx:17-21 | the initial state has an empty collection, an empty typed title, the `all` filter and no edit in progress; ids are unique and titles trimmed |
| `TodoComponent.TodoList.SetNewTitle` | todolist-app/src/components/TodoList.tsx:111 | typing in the new-task input sets `newTitle` and nothing else |
| `TodoComponent.TodoList.SetFilter` | todolist-app/src/components/TodoList.tsx:129 | choosing a filter sets `filter` and nothing else |
| `TodoComponent.TodoList.SetEditingTitle` | todolist-app/src/components/TodoList.tsx:161 | typing in the edit input sets `editingTitle` and nothing else |

## Left out

- The JSX rendering and styling (TodoList.tsx:104-225) and the application
  shell in `App.tsx`. They are presentation with no behaviour beyond the
  setters and handlers modelled above.
- The keyboard handlers `handleNewTodoKeyDown` and `handleEditKeyDown`
  (TodoList.tsx:89-102). They only dispatch Enter to `addTodo`/`commitEdit`
  and Escape to `cancelEdit`, and those three are modelled.
- `crypto.randomUUID()` and `Date.now()` are foreign calls. They are
  parameters of the operations that use them. Nothing is claimed about
  uniqueness of generated ids or about monotonic time. Unique ids are proved
  to be preserved only under the condition that each id given to `Add` is
  fresh.
- React's `useMemo`/`useCallback` memoisation, batching of state updates,
  and re-rendering are left out. The model treats each handler as running to
  completion on plain fields, with each updater applied to the current
  collection.
- `Text.IsWhitespace`: the whitespace set is fixed to the code points of
  category Zs plus ECMA-262's other WhiteSpace and LineTerminator code
  points. A later Unicode version that adds to category Zs would differ.
  JavaScript strings are UTF-16 and may hold lone surrogates, which a Dafny
  `char` cannot. Trimming never removes a surrogate, so this does not change
  what is stripped.
- TodoStore.Toggle and TodoStore.Rename take one timestamp `now` per
  handler call and stamp every matching item with it. The source calls
  `Date.now()` inside the `map` callback, once per matching item, so when
  ids repeat the source may give those items different timestamps. With
  unique ids only one item matches and the two agree.
- Timestamps are unbounded integers. A JavaScript number can represent
  `Date.now()` exactly, so nothing is lost there.

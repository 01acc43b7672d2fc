/** The todo component as a stateful object: its five state fields and the
    handlers that update them. Each handler that touches the collection
    replaces it by the value of the matching updater in `TodoStore`. */
module TodoComponent {
  import opened Todos
  import opened Text
  import Store = TodoStore

  class TodoList {
    var todos: seq<Todo>
    var newTitle: string
    var filter: TodoFilter
    var editingId: Option<TodoId>
    var editingTitle: string

    /** No two items share an id. The component does not check this; it
        holds as long as every id handed to `AddTodo` is fresh. */
    ghost predicate IdsUnique()
      reads this
    {
      UniqueIds(todos)
    }

    /** Every title is non-empty and trimmed. */
    ghost predicate TitlesTrimmed()
      reads this
    {
      Store.TitlesTrimmed(todos)
    }

    /** The initial state: nothing listed, nothing typed, every item shown,
        no edit going on. */
    constructor ()
      ensures todos == [] && newTitle == "" && filter == All
      ensures editingId == None && editingTitle == ""
      ensures IdsUnique() && TitlesTrimmed()
    {
      todos := [];
      newTitle := "";
      filter := All;
      editingId := None;
      editingTitle := "";
    }

    /** The items the current filter shows: all of them under `All`,
        otherwise exactly those the filter matches, in collection order. */
    function FilteredTodos(): (r: seq<Todo>)
      reads this
      ensures r == Store.FilteredView(todos, filter)
      ensures filter == All ==> r == todos
      ensures forall t :: t in r <==> t in todos && Matches(filter, t)
    {
      Store.FilteredView(todos, filter)
    }

    /** The number of items left to do: the length of the active view. */
    function RemainingCount(): (n: nat)
      reads this
      ensures n == Store.RemainingCount(todos)
      ensures n == |Store.FilteredView(todos, Active)|
    {
      Store.RemainingCountIsActiveViewLength(todos);
      Store.RemainingCount(todos)
    }

    /** Typing in the new-task input. */
    method SetNewTitle(value: string)
      modifies this`newTitle
      ensures newTitle == value
    {
      newTitle := value;
    }

    /** Choosing a filter. */
    method SetFilter(f: TodoFilter)
      modifies this`filter
      ensures filter == f
    {
      filter := f;
    }

    /** Typing in the edit input. */
    method SetEditingTitle(value: string)
      modifies this`editingTitle
      ensures editingTitle == value
    {
      editingTitle := value;
    }

    /** Adds a todo for the typed title under the fresh id `id` at time
        `now`. A blank title changes nothing, not even the typed text;
        otherwise the new todo comes first, the old items follow in their
        order, and the input is cleared. */
    method AddTodo(id: TodoId, now: int)
      modifies this`todos, this`newTitle
      ensures todos == Store.Add(old(todos), old(newTitle), id, now)
      ensures IsBlank(old(newTitle)) ==> todos == old(todos) && newTitle == old(newTitle)
      ensures !IsBlank(old(newTitle)) ==>
                && todos == [Todo(id, Trim(old(newTitle)), false, now, now)] + old(todos)
                && newTitle == ""
      ensures old(IdsUnique()) && id !in Ids(old(todos)) ==> IdsUnique()
      ensures old(TitlesTrimmed()) ==> TitlesTrimmed()
    {
      ghost var before := todos;
      var trimmed := Trim(newTitle);
      if trimmed == [] {
        return;
      }
      todos := [Store.CreateTodo(trimmed, id, now)] + todos;
      newTitle := "";
      assert todos == Store.Add(before, old(newTitle), id, now) by {
        TrimIdempotent(old(newTitle));
      }
      if UniqueIds(before) && id !in Ids(before) {
        Store.AddKeepsIdsUnique(before, old(newTitle), id, now);
      }
      if Store.TitlesTrimmed(before) {
        Store.AddKeepsTitlesTrimmed(before, old(newTitle), id, now);
      }
    }

    /** Deletes every item with id `id`. */
    method DeleteTodo(id: TodoId)
      modifies this`todos
      ensures todos == Store.Remove(old(todos), id)
      ensures old(IdsUnique()) ==> IdsUnique()
      ensures old(TitlesTrimmed()) ==> TitlesTrimmed()
    {
      if UniqueIds(todos) {
        Store.RemoveKeepsIdsUnique(todos, id);
      }
      if Store.TitlesTrimmed(todos) {
        Store.RemoveKeepsTitlesTrimmed(todos, id);
      }
      todos := Store.Remove(todos, id);
    }

    /** Flips the completion of every item with id `id`, stamping it with
        `now`. */
    method ToggleTodo(id: TodoId, now: int)
      modifies this`todos
      ensures todos == Store.Toggle(old(todos), id, now)
      ensures old(IdsUnique()) ==> IdsUnique()
      ensures old(TitlesTrimmed()) ==> TitlesTrimmed()
    {
      if UniqueIds(todos) {
        Store.ToggleKeepsIdsUnique(todos, id, now);
      }
      if Store.TitlesTrimmed(todos) {
        Store.ToggleKeepsTitlesTrimmed(todos, id, now);
      }
      todos := Store.Toggle(todos, id, now);
    }

    /** Opens the editor on item `id`, pre-filled with `title`. Only the two
        editing fields change. */
    method StartEdit(id: TodoId, title: string)
      modifies this`editingId, this`editingTitle
      ensures editingId == Some(id) && editingTitle == title
    {
      editingId := Some(id);
      editingTitle := title;
    }

    /** Saves the edit at time `now`. Without an edit target nothing
        changes at all. Otherwise the target is deleted when the text is
        blank and renamed to the trimmed text when it is not, and the
        editor is closed. */
    method CommitEdit(now: int)
      modifies this`todos, this`editingId, this`editingTitle
      ensures todos == Store.CommitEdit(old(todos), old(editingId), old(editingTitle), now)
      ensures Store.NoEditTarget(old(editingId)) ==>
                todos == old(todos) && editingId == old(editingId) && editingTitle == old(editingTitle)
      ensures !Store.NoEditTarget(old(editingId)) ==> editingId == None && editingTitle == ""
      ensures old(IdsUnique()) ==> IdsUnique()
      ensures old(TitlesTrimmed()) ==> TitlesTrimmed()
    {
      if Store.NoEditTarget(editingId) {
        return;
      }
      if UniqueIds(todos) {
        Store.CommitEditKeepsIdsUnique(todos, editingId, editingTitle, now);
      }
      if Store.TitlesTrimmed(todos) {
        Store.CommitEditKeepsTitlesTrimmed(todos, editingId, editingTitle, now);
      }
      var trimmed := Trim(editingTitle);
      if trimmed == [] {
        todos := Store.Remove(todos, editingId.value);
      } else {
        todos := Store.Rename(todos, editingId.value, trimmed, now);
      }
      editingId := None;
      editingTitle := "";
    }

    /** Closes the editor without saving; the collection is untouched. */
    method CancelEdit()
      modifies this`editingId, this`editingTitle
      ensures editingId == None && editingTitle == ""
    {
      editingId := None;
      editingTitle := "";
    }

    /** Deletes every completed item. */
    method ClearCompleted()
      modifies this`todos
      ensures todos == Store.ClearCompleted(old(todos))
      ensures old(IdsUnique()) ==> IdsUnique()
      ensures old(TitlesTrimmed()) ==> TitlesTrimmed()
    {
      if UniqueIds(todos) {
        Store.ClearCompletedKeepsIdsUnique(todos);
      }
      if Store.TitlesTrimmed(todos) {
        Store.ClearCompletedKeepsTitlesTrimmed(todos);
      }
      todos := Store.ClearCompleted(todos);
    }
  }
}

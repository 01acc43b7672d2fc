/** The records the todo component works on. */
module Todos {

  type TodoId = string

  /** One task. The timestamps are milliseconds since the epoch. */
  datatype Todo = Todo(id: TodoId, title: string, completed: bool, createdAt: int, updatedAt: int)

  /** The view selector. */
  datatype TodoFilter = All | Active | Completed

  /** A value that may be absent (`null` in the component). */
  datatype Option<T> = None | Some(value: T)

  /** Which items a filter lets through: the reference against which the
      filtered view is checked. */
  predicate Matches(f: TodoFilter, t: Todo)
  {
    match f
    case All => true
    case Active => !t.completed
    case Completed => t.completed
  }

  /** The two filters' tests as function values, for `filter` and `map`. */
  predicate IsActive(t: Todo) { Matches(Active, t) }

  predicate IsCompleted(t: Todo) { Matches(Completed, t) }

  /** The ids of a collection, in collection order. */
  function Ids(todos: seq<Todo>): (ids: seq<TodoId>)
  {
    seq(|todos|, i requires 0 <= i < |todos| => todos[i].id)
  }

  /** No two items of the collection share an id. */
  predicate UniqueIds(todos: seq<Todo>)
  {
    forall i, j :: 0 <= i < |todos| && 0 <= j < |todos| && todos[i].id == todos[j].id ==> i == j
  }

  /** An id is absent from the collection exactly when no item carries it. */
  lemma AbsentId(todos: seq<Todo>, id: TodoId)
    ensures id !in Ids(todos) <==> forall i :: 0 <= i < |todos| ==> todos[i].id != id
  {
    assert forall i :: 0 <= i < |todos| ==> Ids(todos)[i] == todos[i].id;
  }
}

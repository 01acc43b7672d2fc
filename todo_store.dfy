/** The pure part of the todo component: the updaters its handlers pass to
    the collection setter, and the two derived values. Each is a total
    function from the previous collection to the next one (or to a view). */
module TodoStore {
  import opened Todos
  import opened Text
  import Seqs

  /** A fresh, not yet completed todo whose two timestamps are both `now`.
      Its title is the trimmed title. */
  function CreateTodo(title: string, id: TodoId, now: int): (t: Todo)
    ensures t.id == id && !t.completed && t.createdAt == t.updatedAt == now
    ensures t.title == Trim(title)
    ensures t.title == [] <==> IsBlank(title)
    ensures t.title != [] ==> !IsWhitespace(t.title[0]) && !IsWhitespace(t.title[|t.title| - 1])
  {
    Todo(id, Trim(title), false, now, now)
  }

  /** What adding `newTitle` does to the collection: nothing when the title
      is blank, otherwise a todo for the trimmed title goes in front of the
      old items. The component trims before creating and the creation trims
      again; the title is still the once-trimmed one. */
  function Add(todos: seq<Todo>, newTitle: string, id: TodoId, now: int): (r: seq<Todo>)
    ensures IsBlank(newTitle) ==> r == todos
    ensures !IsBlank(newTitle) ==>
              && |r| == |todos| + 1
              && r[0] == Todo(id, Trim(newTitle), false, now, now)
              && r[1..] == todos
  {
    var trimmed := Trim(newTitle);
    if trimmed == [] then todos
    else
      TrimIdempotent(newTitle);
      [CreateTodo(trimmed, id, now)] + todos
  }

  /** Deleting by id: every item with that id goes, every other item stays,
      with its multiplicity and in its order. */
  function Remove(todos: seq<Todo>, id: TodoId): (r: seq<Todo>)
    ensures Seqs.IsSubsequence(r, todos)
    ensures forall i :: 0 <= i < |r| ==> r[i].id != id
    ensures forall t :: t in r <==> t in todos && t.id != id
    ensures forall t: Todo :: t.id != id ==> multiset(r)[t] == multiset(todos)[t]
    ensures id !in Ids(todos) ==> r == todos
  {
    var keep := (t: Todo) => t.id != id;
    var r := Seqs.Filter(keep, todos);
    Seqs.FilterMultiplicity(keep, todos);
    AbsentId(todos, id);
    assert forall i :: 0 <= i < |r| ==> r[i] in r;
    r
  }

  /** Toggling by id: the items with that id have their completion flag
      flipped and `updatedAt` set to `now`; nothing else changes, not the
      length, not the order, not any other field or item. */
  function Toggle(todos: seq<Todo>, id: TodoId, now: int): (r: seq<Todo>)
    ensures |r| == |todos| && Ids(r) == Ids(todos)
    ensures forall i :: 0 <= i < |todos| ==>
              && r[i].title == todos[i].title
              && r[i].createdAt == todos[i].createdAt
    ensures forall i :: 0 <= i < |todos| && todos[i].id == id ==>
              r[i].completed == !todos[i].completed && r[i].updatedAt == now
    ensures forall i :: 0 <= i < |todos| && todos[i].id != id ==> r[i] == todos[i]
    ensures id !in Ids(todos) ==> r == todos
  {
    AbsentId(todos, id);
    Seqs.Map((t: Todo) => if t.id == id then t.(completed := !t.completed, updatedAt := now) else t, todos)
  }

  /** Renaming by id: the items with that id get `title` and `updatedAt`
      set to `now`; nothing else changes. */
  function Rename(todos: seq<Todo>, id: TodoId, title: string, now: int): (r: seq<Todo>)
    ensures |r| == |todos| && Ids(r) == Ids(todos)
    ensures forall i :: 0 <= i < |todos| && todos[i].id == id ==>
              r[i] == todos[i].(title := title, updatedAt := now)
    ensures forall i :: 0 <= i < |todos| && todos[i].id != id ==> r[i] == todos[i]
    ensures id !in Ids(todos) ==> r == todos
  {
    AbsentId(todos, id);
    Seqs.Map((t: Todo) => if t.id == id then t.(title := title, updatedAt := now) else t, todos)
  }

  /** The component's `!editingId`: no edit is going on when the id is
      null, and also when it is the empty string, which is falsy too. */
  predicate NoEditTarget(editingId: Option<TodoId>)
  {
    editingId.None? || editingId.value == ""
  }

  /** What committing an edit does to the collection: nothing without an
      edit target; with a blank text, the target is deleted exactly as a
      delete would; otherwise the target is renamed to the trimmed text. */
  function CommitEdit(todos: seq<Todo>, editingId: Option<TodoId>, editingTitle: string, now: int): (r: seq<Todo>)
    ensures NoEditTarget(editingId) ==> r == todos
    ensures !NoEditTarget(editingId) && IsBlank(editingTitle) ==>
              && r == Remove(todos, editingId.value)
              && forall t :: t in r <==> t in todos && t.id != editingId.value
    ensures !NoEditTarget(editingId) && !IsBlank(editingTitle) ==>
              && |r| == |todos| && Ids(r) == Ids(todos)
              && (forall i :: 0 <= i < |todos| && todos[i].id == editingId.value ==>
                    r[i] == todos[i].(title := Trim(editingTitle), updatedAt := now))
              && (forall i :: 0 <= i < |todos| && todos[i].id != editingId.value ==> r[i] == todos[i])
  {
    if NoEditTarget(editingId) then todos
    else
      var trimmed := Trim(editingTitle);
      if trimmed == [] then Remove(todos, editingId.value)
      else Rename(todos, editingId.value, trimmed, now)
  }

  /** Clearing completed items keeps exactly the active ones, in order. */
  function ClearCompleted(todos: seq<Todo>): (r: seq<Todo>)
    ensures Seqs.IsSubsequence(r, todos)
    ensures forall i :: 0 <= i < |r| ==> !r[i].completed
    ensures forall t :: t in r <==> t in todos && !t.completed
    ensures forall t: Todo :: !t.completed ==> multiset(r)[t] == multiset(todos)[t]
  {
    var r := Seqs.Filter(IsActive, todos);
    Seqs.FilterMultiplicity(IsActive, todos);
    assert forall i :: 0 <= i < |r| ==> r[i] in r;
    r
  }

  /** The filtered view: the items the filter matches, in collection order
      and with their multiplicity; `All` shows the collection itself. */
  function FilteredView(todos: seq<Todo>, filter: TodoFilter): (r: seq<Todo>)
    ensures filter == All ==> r == todos
    ensures Seqs.IsSubsequence(r, todos)
    ensures forall t :: t in r <==> t in todos && Matches(filter, t)
    ensures forall t :: multiset(r)[t] == if Matches(filter, t) then multiset(todos)[t] else 0
  {
    match filter
    case Active => Seqs.FilterMultiplicity(IsActive, todos); Seqs.Filter(IsActive, todos)
    case Completed => Seqs.FilterMultiplicity(IsCompleted, todos); Seqs.Filter(IsCompleted, todos)
    case All => Seqs.SubsequenceReflexive(todos); todos
  }

  /** The number of items left to do. It is zero exactly when every item is
      completed, and the whole length exactly when none is. */
  function RemainingCount(todos: seq<Todo>): (n: nat)
    ensures n <= |todos|
    ensures n == 0 <==> forall i :: 0 <= i < |todos| ==> todos[i].completed
    ensures n == |todos| <==> forall i :: 0 <= i < |todos| ==> !todos[i].completed
  {
    var active := Seqs.Filter(IsActive, todos);
    assert forall i :: 0 <= i < |todos| && !todos[i].completed ==> todos[i] in active;
    Seqs.SubsequenceOfSameLength(active, todos);
    assert forall i :: 0 <= i < |active| ==> active[i] in active;
    |active|
  }

  /** The completion flags of a collection, in collection order. */
  function CompletedFlags(todos: seq<Todo>): (flags: seq<bool>)
  {
    Seqs.Map(IsCompleted, todos)
  }

  // ---------------------------------------------------------------------
  // Lemmas relating several operations

  /** The remaining count is the length of the active view. */
  lemma RemainingCountIsActiveViewLength(todos: seq<Todo>)
    ensures RemainingCount(todos) == |FilteredView(todos, Active)|
  {
  }

  /** The active and completed views partition the collection: their
      multisets add up to the collection's and their lengths to its length. */
  lemma ViewsPartition(todos: seq<Todo>)
    ensures multiset(FilteredView(todos, Active)) + multiset(FilteredView(todos, Completed)) == multiset(todos)
    ensures |FilteredView(todos, Active)| + |FilteredView(todos, Completed)| == |todos|
  {
    var a, c := FilteredView(todos, Active), FilteredView(todos, Completed);
    forall t ensures (multiset(a) + multiset(c))[t] == multiset(todos)[t] {
      assert Matches(Active, t) == !Matches(Completed, t);
    }
    assert multiset(a) + multiset(c) == multiset(todos);
    assert |multiset(a) + multiset(c)| == |todos|;
  }

  /** Interleaving the active and completed views along the completion
      flags rebuilds the collection in its original order. */
  lemma ViewsRebuildCollection(todos: seq<Todo>)
    ensures Seqs.Weave(CompletedFlags(todos), FilteredView(todos, Active), FilteredView(todos, Completed)) == todos
  {
    Seqs.FilterWeave(IsCompleted, IsActive, todos);
  }

  /** Toggling the same id twice gives every item back its completion flag:
      the only trace left is the second timestamp on the toggled items. */
  lemma ToggleTwiceRestoresFlags(todos: seq<Todo>, id: TodoId, now1: int, now2: int)
    ensures var r := Toggle(Toggle(todos, id, now1), id, now2);
            && |r| == |todos|
            && (forall i :: 0 <= i < |todos| ==> r[i].completed == todos[i].completed)
            && (forall i :: 0 <= i < |todos| && todos[i].id == id ==> r[i] == todos[i].(updatedAt := now2))
            && (forall i :: 0 <= i < |todos| && todos[i].id != id ==> r[i] == todos[i])
  {
    var once := Toggle(todos, id, now1);
    assert forall i :: 0 <= i < |todos| ==> once[i].id == todos[i].id by {
      forall i | 0 <= i < |todos| ensures once[i].id == todos[i].id {
        assert Ids(once)[i] == Ids(todos)[i];
      }
    }
  }

  /** Clearing completed items twice is clearing them once. */
  lemma ClearCompletedIdempotent(todos: seq<Todo>)
    ensures ClearCompleted(ClearCompleted(todos)) == ClearCompleted(todos)
  {
  }

  /** With no completed item, clearing completed items changes nothing. */
  lemma ClearCompletedWithoutCompletedIsIdentity(todos: seq<Todo>)
    requires forall i :: 0 <= i < |todos| ==> !todos[i].completed
    ensures ClearCompleted(todos) == todos
  {
  }

  /** Deleting the id a todo was just added under undoes the addition,
      provided the id was fresh (a blank title added nothing to undo). */
  lemma RemoveUndoesAdd(todos: seq<Todo>, newTitle: string, id: TodoId, now: int)
    requires id !in Ids(todos)
    ensures Remove(Add(todos, newTitle, id, now), id) == todos
  {
    if !IsBlank(newTitle) {
      var added := Add(todos, newTitle, id, now);
      assert added == [added[0]] + todos;
      assert Remove(added, id) == Remove(todos, id);
    }
  }

  /** With unique ids, deleting an id that is present removes exactly one
      item. */
  lemma RemovePresentShrinksByOne(todos: seq<Todo>, id: TodoId)
    requires UniqueIds(todos) && id in Ids(todos)
    ensures |Remove(todos, id)| == |todos| - 1
  {
    var r := Remove(todos, id);
    AbsentId(todos, id);
    var k :| 0 <= k < |todos| && todos[k].id == id;
    var x := todos[k];
    OnlyItemWithId(todos, k);
    forall t ensures multiset(todos)[t] == (multiset(r) + multiset{x})[t] {
      if t.id == id && t != x {
        assert t !in todos;
      }
    }
    assert multiset(todos) == multiset(r) + multiset{x};
    assert |multiset(todos)| == |multiset(r)| + 1;
  }

  /** With unique ids, the item at `k` occurs once, and no other item
      carries its id. */
  lemma OnlyItemWithId(todos: seq<Todo>, k: int)
    requires UniqueIds(todos) && 0 <= k < |todos|
    ensures multiset(todos)[todos[k]] == 1
    ensures forall t :: t in todos && t.id == todos[k].id ==> t == todos[k]
  {
    var x := todos[k];
    assert todos == todos[..k] + [x] + todos[k + 1..];
    assert x !in todos[..k] by {
      forall j | 0 <= j < k ensures todos[..k][j] != x {
        assert todos[..k][j] == todos[j];
      }
    }
    var suffix := todos[k + 1..];
    assert x !in suffix by {
      forall j | 0 <= j < |suffix| ensures suffix[j] != x {
        assert suffix[j] == todos[k + 1 + j];
      }
    }
  }

  /** A subsequence of a collection with unique ids has unique ids. */
  lemma {:induction false} SubsequenceKeepsIdsUnique(a: seq<Todo>, b: seq<Todo>)
    requires Seqs.IsSubsequence(a, b) && UniqueIds(b)
    ensures UniqueIds(a)
    decreases |b|
  {
    if a != [] {
      assert UniqueIds(b[1..]) by {
        forall i, j | 0 <= i < |b| - 1 && 0 <= j < |b| - 1 && b[1..][i].id == b[1..][j].id
          ensures i == j
        {
          assert b[i + 1].id == b[j + 1].id;
        }
      }
      if a[0] == b[0] && Seqs.IsSubsequence(a[1..], b[1..]) {
        SubsequenceKeepsIdsUnique(a[1..], b[1..]);
        Seqs.SubsequenceMembers(a[1..], b[1..]);
        forall k | 1 <= k < |a| ensures a[k].id != a[0].id {
          assert a[k] in b[1..] by { assert a[k] == a[1..][k - 1]; }
          var m :| 0 <= m < |b| - 1 && b[1..][m] == a[k];
          assert b[m + 1] == a[k];
        }
        forall i, j | 0 <= i < |a| && 0 <= j < |a| && a[i].id == a[j].id ensures i == j {
          if i != 0 && j != 0 {
            assert a[1..][i - 1].id == a[1..][j - 1].id;
          }
        }
      } else {
        SubsequenceKeepsIdsUnique(a, b[1..]);
      }
    }
  }

  // ---------------------------------------------------------------------
  // Titles stay trimmed and non-empty

  /** Every title is non-empty and has no white space at either end: what
      `createTodo` and a non-blank commit produce. */
  predicate TitlesTrimmed(todos: seq<Todo>)
  {
    forall k :: 0 <= k < |todos| ==> todos[k].title != [] && Trim(todos[k].title) == todos[k].title
  }

  /** Adding keeps the titles trimmed: the new title is the trimmed text of
      a non-blank input. */
  lemma AddKeepsTitlesTrimmed(todos: seq<Todo>, newTitle: string, id: TodoId, now: int)
    requires TitlesTrimmed(todos)
    ensures TitlesTrimmed(Add(todos, newTitle, id, now))
  {
    TrimIdempotent(newTitle);
  }

  /** Deleting keeps the titles trimmed. */
  lemma RemoveKeepsTitlesTrimmed(todos: seq<Todo>, id: TodoId)
    requires TitlesTrimmed(todos)
    ensures TitlesTrimmed(Remove(todos, id))
  {
    var r := Remove(todos, id);
    assert forall k :: 0 <= k < |r| ==> r[k] in r;
  }

  /** Toggling keeps the titles trimmed. */
  lemma ToggleKeepsTitlesTrimmed(todos: seq<Todo>, id: TodoId, now: int)
    requires TitlesTrimmed(todos)
    ensures TitlesTrimmed(Toggle(todos, id, now))
  {
  }

  /** Committing an edit keeps the titles trimmed: a blank text deletes, any
      other text renames to its trimmed, non-empty form. */
  lemma CommitEditKeepsTitlesTrimmed(todos: seq<Todo>, editingId: Option<TodoId>, editingTitle: string, now: int)
    requires TitlesTrimmed(todos)
    ensures TitlesTrimmed(CommitEdit(todos, editingId, editingTitle, now))
  {
    if !NoEditTarget(editingId) {
      if IsBlank(editingTitle) {
        RemoveKeepsTitlesTrimmed(todos, editingId.value);
      } else {
        TrimIdempotent(editingTitle);
      }
    }
  }

  /** Clearing completed items keeps the titles trimmed. */
  lemma ClearCompletedKeepsTitlesTrimmed(todos: seq<Todo>)
    requires TitlesTrimmed(todos)
    ensures TitlesTrimmed(ClearCompleted(todos))
  {
    var r := ClearCompleted(todos);
    assert forall k :: 0 <= k < |r| ==> r[k] in r;
  }

  // ---------------------------------------------------------------------
  // Ids stay unique

  /** Adding under a fresh id keeps the ids unique. */
  lemma AddKeepsIdsUnique(todos: seq<Todo>, newTitle: string, id: TodoId, now: int)
    requires UniqueIds(todos) && id !in Ids(todos)
    ensures UniqueIds(Add(todos, newTitle, id, now))
  {
    var r := Add(todos, newTitle, id, now);
    if !IsBlank(newTitle) {
      AbsentId(todos, id);
      assert forall k :: 1 <= k < |r| ==> r[k] == todos[k - 1];
      forall i, j | 0 <= i < |r| && 0 <= j < |r| && r[i].id == r[j].id ensures i == j {
        if i != 0 && j != 0 {
          assert todos[i - 1].id == todos[j - 1].id;
        }
      }
    }
  }

  /** Deleting keeps the ids unique. */
  lemma RemoveKeepsIdsUnique(todos: seq<Todo>, id: TodoId)
    requires UniqueIds(todos)
    ensures UniqueIds(Remove(todos, id))
  {
    SubsequenceKeepsIdsUnique(Remove(todos, id), todos);
  }

  /** Toggling keeps the ids unique. */
  lemma ToggleKeepsIdsUnique(todos: seq<Todo>, id: TodoId, now: int)
    requires UniqueIds(todos)
    ensures UniqueIds(Toggle(todos, id, now))
  {
    SameIdsKeepUnique(todos, Toggle(todos, id, now));
  }

  /** Committing an edit keeps the ids unique. */
  lemma CommitEditKeepsIdsUnique(todos: seq<Todo>, editingId: Option<TodoId>, editingTitle: string, now: int)
    requires UniqueIds(todos)
    ensures UniqueIds(CommitEdit(todos, editingId, editingTitle, now))
  {
    if !NoEditTarget(editingId) {
      if IsBlank(editingTitle) {
        RemoveKeepsIdsUnique(todos, editingId.value);
      } else {
        SameIdsKeepUnique(todos, CommitEdit(todos, editingId, editingTitle, now));
      }
    }
  }

  /** Clearing completed items keeps the ids unique. */
  lemma ClearCompletedKeepsIdsUnique(todos: seq<Todo>)
    requires UniqueIds(todos)
    ensures UniqueIds(ClearCompleted(todos))
  {
    SubsequenceKeepsIdsUnique(ClearCompleted(todos), todos);
  }

  /** A collection with the same id sequence as one with unique ids has
      unique ids. */
  lemma SameIdsKeepUnique(a: seq<Todo>, b: seq<Todo>)
    requires UniqueIds(a) && Ids(a) == Ids(b)
    ensures UniqueIds(b)
  {
    forall i, j | 0 <= i < |b| && 0 <= j < |b| && b[i].id == b[j].id ensures i == j {
      assert Ids(a)[i] == Ids(b)[i] && Ids(a)[j] == Ids(b)[j];
    }
  }

  /** Committing an edit whose target is no longer in the collection (it
      was deleted meanwhile) leaves the collection as it is. */
  lemma CommitEditOfAbsentIdKeepsTodos(todos: seq<Todo>, id: TodoId, editingTitle: string, now: int)
    requires id !in Ids(todos)
    ensures CommitEdit(todos, Some(id), editingTitle, now) == todos
  {
  }

  /** With unique ids, committing a blank edit of a present item removes
      that item and only it: the collection shrinks by exactly one. */
  lemma CommitBlankEditRemovesOne(todos: seq<Todo>, id: TodoId, editingTitle: string, now: int)
    requires UniqueIds(todos) && id in Ids(todos) && id != "" && IsBlank(editingTitle)
    ensures var r := CommitEdit(todos, Some(id), editingTitle, now);
            && |r| == |todos| - 1
            && id !in Ids(r)
  {
    RemovePresentShrinksByOne(todos, id);
  }

  /** Starting from nothing: adding "Buy milk" gives one active todo with
      that title; toggling it leaves nothing to do; committing a blank edit
      of it empties the collection. */
  lemma BuyMilkScenario(id: TodoId, now1: int, now2: int, now3: int)
    requires id != ""
    ensures var s1 := Add([], "Buy milk", id, now1);
            && s1 == [Todo(id, "Buy milk", false, now1, now1)]
            && var s2 := Toggle(s1, id, now2);
            && s2 == [Todo(id, "Buy milk", true, now1, now2)]
            && RemainingCount(s2) == 0
            && CommitEdit(s2, Some(id), "  ", now3) == []
  {
    AddBuyMilk(id, now1);
    ToggleSingle(Todo(id, "Buy milk", false, now1, now1), now2);
    BlankEditOfSingle(Todo(id, "Buy milk", true, now1, now2), now3);
  }

  /** The first step of `BuyMilkScenario`: adding "Buy milk" to nothing. */
  lemma AddBuyMilk(id: TodoId, now: int)
    ensures Add([], "Buy milk", id, now) == [Todo(id, "Buy milk", false, now, now)]
  {
    assert Trim("Buy milk") == "Buy milk" by {
      assert SkipLeading("Buy milk", 0) == 0;
      assert SkipTrailing("Buy milk", 0, 8) == 8;
    }
  }

  /** Toggling the only item of a one-item collection. */
  lemma ToggleSingle(t: Todo, now: int)
    ensures Toggle([t], t.id, now) == [t.(completed := !t.completed, updatedAt := now)]
  {
    assert Ids([t])[0] == t.id;
  }

  /** Committing a blank edit of the only item of a one-item collection. */
  lemma BlankEditOfSingle(t: Todo, now: int)
    requires t.id != ""
    ensures CommitEdit([t], Some(t.id), "  ", now) == []
  {
    assert IsBlank("  ");
    var r := CommitEdit([t], Some(t.id), "  ", now);
    assert forall x :: x in r ==> x in [t] && x.id != t.id;
  }

  /** Adding "A" then "B" lists "B" first; with nothing completed, clearing
      completed items changes nothing. */
  lemma NewestFirstScenario(idA: TodoId, idB: TodoId, now1: int, now2: int)
    ensures var s := Add(Add([], "A", idA, now1), "B", idB, now2);
            && s == [Todo(idB, "B", false, now2, now2), Todo(idA, "A", false, now1, now1)]
            && ClearCompleted(s) == s
  {
    TrimSingleLetter('A');
    TrimSingleLetter('B');
    var s1 := Add([], "A", idA, now1);
    assert s1 == [Todo(idA, "A", false, now1, now1)];
    var s := Add(s1, "B", idB, now2);
    assert s == [Todo(idB, "B", false, now2, now2)] + s1;
    ClearCompletedWithoutCompletedIsIdentity(s);
  }

  /** A one-letter title that is not white space survives trimming. */
  lemma TrimSingleLetter(c: char)
    requires !IsWhitespace(c)
    ensures Trim([c]) == [c]
  {
    assert SkipLeading([c], 0) == 0 && SkipTrailing([c], 0, 1) == 1;
  }
}

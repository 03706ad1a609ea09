/**
 * The task-list store (src/stores/todo.ts): the task list, the view state
 * (filter, sort, search query) and the persistence slot, with the
 * mutation operations. Each mutation that touches the list is specified
 * by a reference function on sequences (`Removed`, `Toggled`, `Updated`),
 * whose properties are proved as lemmas below.
 */
module Store {
  import opened TodoTypes
  import TodoViews

  // ---------------------------------------------------------------------
  // Finding a task by id (findIndex / find)
  // ---------------------------------------------------------------------

  /** `findIndex(todo => todo.id === id)`: the first match, or -1. */
  function IndexOf(s: seq<TodoItem>, id: string): (r: int)
    ensures -1 <= r < |s|
    ensures r == -1 <==> forall k :: 0 <= k < |s| ==> s[k].id != id
    ensures r >= 0 ==> s[r].id == id && forall k :: 0 <= k < r ==> s[k].id != id
  {
    if s == [] then -1
    else if s[0].id == id then 0
    else
      var k := IndexOf(s[1..], id);
      if k == -1 then -1 else k + 1
  }

  // ---------------------------------------------------------------------
  // Reference definitions of the list mutations
  // ---------------------------------------------------------------------

  /** The list without its first task carrying `id`. */
  function Removed(s: seq<TodoItem>, id: string): seq<TodoItem> {
    if s == [] then []
    else if s[0].id == id then s[1..]
    else [s[0]] + Removed(s[1..], id)
  }

  /** The list with `f` applied to its first task carrying `id`. */
  function ReplaceFirst(s: seq<TodoItem>, id: string, f: TodoItem -> TodoItem): (r: seq<TodoItem>)
    ensures |r| == |s|
  {
    if s == [] then []
    else if s[0].id == id then [f(s[0])] + s[1..]
    else [s[0]] + ReplaceFirst(s[1..], id, f)
  }

  /** `todo.completed = !todo.completed; todo.updatedAt = now` */
  function Toggle(t: TodoItem, now: int): TodoItem {
    t.(completed := !t.completed, updatedAt := now)
  }

  /** `Object.assign(todo, updates)`: every property `u` carries overwrites the task's. */
  function Assign(t: TodoItem, u: TodoPatch): TodoItem {
    TodoItem(
      u.id.GetOr(t.id),
      u.title.GetOr(t.title),
      u.description.GetOr(t.description),
      u.completed.GetOr(t.completed),
      u.category.GetOr(t.category),
      u.priority.GetOr(t.priority),
      u.createdAt.GetOr(t.createdAt),
      u.updatedAt.GetOr(t.updatedAt))
  }

  /** `Object.assign(todo, updates); todo.updatedAt = now` */
  function Refresh(t: TodoItem, u: TodoPatch, now: int): TodoItem {
    Assign(t, u).(updatedAt := now)
  }

  function Toggled(s: seq<TodoItem>, id: string, now: int): seq<TodoItem> {
    ReplaceFirst(s, id, t => Toggle(t, now))
  }

  function Updated(s: seq<TodoItem>, id: string, u: TodoPatch, now: int): seq<TodoItem> {
    ReplaceFirst(s, id, t => Refresh(t, u, now))
  }

  /** The update object with no properties. */
  const NoChanges := TodoPatch(None, None, None, None, None, None, None, None)

  // ---------------------------------------------------------------------
  // The reference definitions agree with findIndex + splice / assignment
  // ---------------------------------------------------------------------

  /** Splicing out position `k + 1` of `s` is keeping `s[0]` and splicing out `k` of the tail. */
  lemma SpliceTail(s: seq<TodoItem>, k: nat)
    requires k + 1 < |s|
    ensures [s[0]] + (s[1..][..k] + s[1..][k + 1..]) == s[..k + 1] + s[k + 2..]
  {
    assert s[1..][..k] == s[1..k + 1];
    assert s[1..][k + 1..] == s[k + 2..];
    assert [s[0]] + s[1..k + 1] == s[..k + 1];
  }

  /** Removal deletes exactly position `IndexOf(s, id)`, or nothing when it is -1. */
  lemma {:induction false} RemovedAt(s: seq<TodoItem>, id: string)
    ensures var i := IndexOf(s, id);
      Removed(s, id) == if i == -1 then s else s[..i] + s[i + 1..]
  {
    if s != [] && s[0].id != id {
      RemovedAt(s[1..], id);
      var k := IndexOf(s[1..], id);
      if k != -1 {
        SpliceTail(s, k);
      } else {
        assert s == [s[0]] + s[1..];
      }
    }
  }

  /** Only position `IndexOf(s, id)` is rewritten, or nothing when it is -1. */
  lemma {:induction false} ReplaceFirstAt(s: seq<TodoItem>, id: string, f: TodoItem -> TodoItem)
    ensures var i := IndexOf(s, id);
      ReplaceFirst(s, id, f) == if i == -1 then s else s[i := f(s[i])]
  {
    if s != [] && s[0].id != id {
      ReplaceFirstAt(s[1..], id, f);
      var k := IndexOf(s[1..], id);
      if k != -1 {
        assert [s[0]] + s[1..][k := f(s[1..][k])] == s[k + 1 := f(s[k + 1])];
      } else {
        assert s == [s[0]] + s[1..];
      }
    }
  }

  /** Rewriting one task without touching its id leaves the id lookup where it was. */
  lemma IndexOfAfterReplace(s: seq<TodoItem>, id: string, i: int, t: TodoItem)
    requires i == IndexOf(s, id) && i >= 0 && t.id == id
    ensures IndexOf(s[i := t], id) == i
  {
    assert s[i := t][i].id == id;
  }

  // ---------------------------------------------------------------------
  // removeTodo (src/stores/todo.ts:138-145)
  // ---------------------------------------------------------------------

  /**
   * Removal deletes only the first task with the id and keeps the others
   * in their order; with no such task the list is unchanged.
   */
  lemma {:induction false} RemovedSpec(s: seq<TodoItem>, id: string)
    ensures var r, i := Removed(s, id), IndexOf(s, id);
      && (i == -1 ==> r == s)
      && (i >= 0 ==>
            && |r| == |s| - 1 && s[i].id == id
            && (forall k :: 0 <= k < i ==> r[k] == s[k] && s[k].id != id)
            && (forall k :: i <= k < |r| ==> r[k] == s[k + 1]))
  {
    RemovedAt(s, id);
    var r, i := Removed(s, id), IndexOf(s, id);
    if i >= 0 {
      assert r == s[..i] + s[i + 1..];
      assert forall k :: 0 <= k < i ==> r[k] == s[k];
      assert forall k :: i <= k < |r| ==> r[k] == s[k + 1];
    }
  }

  /** Removal keeps ids unique, and no task with the removed id is left. */
  lemma RemovedKeepsUnique(s: seq<TodoItem>, id: string)
    requires UniqueIds(s)
    ensures UniqueIds(Removed(s, id))
    ensures forall k :: 0 <= k < |Removed(s, id)| ==> Removed(s, id)[k].id != id
  {
    RemovedSpec(s, id);
    var i := IndexOf(s, id);
    var r := Removed(s, id);
    if i >= 0 {
      forall a, b | 0 <= a < b < |r|
        ensures r[a].id != r[b].id
      {
        var a' := if a < i then a else a + 1;
        var b' := if b < i then b else b + 1;
        assert r[a] == s[a'] && r[b] == s[b'];
      }
      forall k | 0 <= k < |r|
        ensures r[k].id != id
      {
        var k' := if k < i then k else k + 1;
        assert r[k] == s[k'] && s[i].id == id;
      }
    }
  }

  /** With unique ids, removing the same id twice is the same as once. */
  lemma RemoveTwiceIsNoOp(s: seq<TodoItem>, id: string)
    requires UniqueIds(s)
    ensures Removed(Removed(s, id), id) == Removed(s, id)
  {
    RemovedKeepsUnique(s, id);
    var r := Removed(s, id);
    assert IndexOf(r, id) == -1;
    RemovedAt(r, id);
  }

  // ---------------------------------------------------------------------
  // toggleTodo (src/stores/todo.ts:148-156)
  // ---------------------------------------------------------------------

  /**
   * Toggling rewrites only the first task with the id: its completion
   * flag flips, `updatedAt` becomes `now`, every other field stays. All
   * other tasks and the length are unchanged; an unknown id changes nothing.
   */
  lemma {:induction false} ToggledSpec(s: seq<TodoItem>, id: string, now: int)
    ensures var r, i := Toggled(s, id, now), IndexOf(s, id);
      && |r| == |s|
      && (forall k :: 0 <= k < |s| && k != i ==> r[k] == s[k])
      && (i >= 0 ==>
            r[i].completed == !s[i].completed && r[i].updatedAt == now
            && r[i].(completed := s[i].completed, updatedAt := s[i].updatedAt) == s[i])
  {
    ReplaceFirstAt(s, id, t => Toggle(t, now));
  }

  /**
   * Toggling twice restores every completion flag: the only trace left is
   * the second clock reading in the matched task's `updatedAt`.
   */
  lemma {:induction false} ToggleTwice(s: seq<TodoItem>, id: string, first: int, second: int)
    ensures var i := IndexOf(s, id);
      Toggled(Toggled(s, id, first), id, second)
        == if i == -1 then s else s[i := s[i].(updatedAt := second)]
  {
    var i := IndexOf(s, id);
    ReplaceFirstAt(s, id, t => Toggle(t, first));
    var once := Toggled(s, id, first);
    if i >= 0 {
      IndexOfAfterReplace(s, id, i, Toggle(s[i], first));
    }
    ReplaceFirstAt(once, id, t => Toggle(t, second));
  }

  /**
   * Toggling keeps every id, so it keeps them unique, whatever the clock
   * says. It keeps `createdAt <= updatedAt` and never moves an `updatedAt`
   * back exactly when the one task it rewrites was last modified no later
   * than `now`.
   */
  lemma ToggledKeepsInvariants(s: seq<TodoItem>, id: string, now: int)
    ensures var r, i := Toggled(s, id, now), IndexOf(s, id);
      && (forall k :: 0 <= k < |s| ==> r[k].id == s[k].id)
      && (UniqueIds(s) ==> UniqueIds(r))
      && ((forall k :: 0 <= k < |s| ==> s[k].updatedAt <= r[k].updatedAt)
            <==> (i >= 0 ==> s[i].updatedAt <= now))
      && (TimestampsOrdered(s) && (i >= 0 ==> s[i].updatedAt <= now) ==> TimestampsOrdered(r))
  {
    ReplaceFirstAt(s, id, t => Toggle(t, now));
  }

  // ---------------------------------------------------------------------
  // updateTodo (src/stores/todo.ts:159-167)
  // ---------------------------------------------------------------------

  /** `Object.assign` with no properties keeps the task; applying it twice is applying it once. */
  lemma AssignLaws(t: TodoItem, u: TodoPatch)
    ensures Assign(t, NoChanges) == t
    ensures Assign(Assign(t, u), u) == Assign(t, u)
  {
  }

  /**
   * Updating rewrites only the first task with the id: each property the
   * update carries is merged in, the others stay, and `updatedAt` is `now`
   * whatever the update said about it. All other tasks and the length are
   * unchanged; an unknown id changes nothing.
   */
  lemma {:induction false} UpdatedSpec(s: seq<TodoItem>, id: string, u: TodoPatch, now: int)
    ensures var r, i := Updated(s, id, u, now), IndexOf(s, id);
      && |r| == |s|
      && (forall k :: 0 <= k < |s| && k != i ==> r[k] == s[k])
      && (i >= 0 ==>
            r[i].updatedAt == now
            && r[i].(updatedAt := s[i].updatedAt) == Assign(s[i], u.(updatedAt := None)))
  {
    ReplaceFirstAt(s, id, t => Refresh(t, u, now));
  }

  /** An update with no properties only refreshes `updatedAt`; so does toggling twice. */
  lemma {:induction false} EmptyUpdateRefreshes(s: seq<TodoItem>, id: string, first: int, now: int)
    ensures var i := IndexOf(s, id);
      Updated(s, id, NoChanges, now) == if i == -1 then s else s[i := s[i].(updatedAt := now)]
    ensures Updated(s, id, NoChanges, now) == Toggled(Toggled(s, id, first), id, now)
  {
    ReplaceFirstAt(s, id, t => Refresh(t, NoChanges, now));
    ToggleTwice(s, id, first, now);
  }

  /**
   * With unique ids, an update keeps them unique exactly when it finds no
   * task, carries no id, carries the matched task's own id, or carries an
   * id no task has. It keeps `createdAt <= updatedAt` exactly when the
   * matched task's resulting `createdAt` does not lie after `now`.
   */
  lemma UpdatedKeepsInvariants(s: seq<TodoItem>, id: string, u: TodoPatch, now: int)
    ensures var r, i := Updated(s, id, u, now), IndexOf(s, id);
      UniqueIds(s) ==>
        (UniqueIds(r) <==>
          (i == -1 || u.id.None? || u.id.value == id || IndexOf(s, u.id.value) == -1))
    ensures var r, i := Updated(s, id, u, now), IndexOf(s, id);
      TimestampsOrdered(s) ==>
        (TimestampsOrdered(r) <==> (i >= 0 ==> u.createdAt.GetOr(s[i].createdAt) <= now))
  {
    ReplaceFirstAt(s, id, t => Refresh(t, u, now));
    var r, i := Updated(s, id, u, now), IndexOf(s, id);
    if UniqueIds(s) && i >= 0 && u.id.Some? && u.id.value != id && IndexOf(s, u.id.value) >= 0 {
      var j := IndexOf(s, u.id.value);
      assert j != i && r[j] == s[j] && r[i].id == r[j].id;
    }
    if TimestampsOrdered(s) && i >= 0 {
      assert r[i].createdAt == u.createdAt.GetOr(s[i].createdAt) && r[i].updatedAt == now;
    }
  }

  /** An update that carries another task's id leaves two tasks with that id. */
  lemma UpdateMayDuplicateId(a: TodoItem, b: TodoItem, now: int)
    requires a.id != b.id
    ensures var s := [a, b];
      UniqueIds(s) && !UniqueIds(Updated(s, a.id, NoChanges.(id := Some(b.id)), now))
  {
    var s := [a, b];
    ReplaceFirstAt(s, a.id, t => Refresh(t, NoChanges.(id := Some(b.id)), now));
    assert IndexOf(s, a.id) == 0;
    var r := Updated(s, a.id, NoChanges.(id := Some(b.id)), now);
    assert r[0].id == r[1].id;
  }

  // ---------------------------------------------------------------------
  // setFilter / setSort (src/stores/todo.ts:170-177)
  // ---------------------------------------------------------------------

  /** `Object.assign(filter, newFilter)` */
  function MergeFilter(f: TodoFilter, p: FilterPatch): TodoFilter {
    TodoFilter(p.category.GetOr(f.category), p.status.GetOr(f.status), p.priority.GetOr(f.priority))
  }

  /** `Object.assign(sort, newSort)` */
  function MergeSort(s: TodoSort, p: SortPatch): TodoSort {
    TodoSort(p.field.GetOr(s.field), p.direction.GetOr(s.direction))
  }

  /**
   * Merging an empty selector object keeps the state; merging the same
   * object twice is merging it once; a later merge wins on the properties
   * it carries.
   */
  lemma MergeLaws(f: TodoFilter, p: FilterPatch, q: FilterPatch, s: TodoSort, a: SortPatch, b: SortPatch)
    ensures MergeFilter(f, FilterPatch(None, None, None)) == f
    ensures MergeFilter(MergeFilter(f, p), p) == MergeFilter(f, p)
    ensures q.category.Some? && q.status.Some? && q.priority.Some? ==>
      MergeFilter(MergeFilter(f, p), q) == MergeFilter(f, q)
    ensures MergeSort(s, SortPatch(None, None)) == s
    ensures MergeSort(MergeSort(s, a), a) == MergeSort(s, a)
    ensures b.field.Some? && b.direction.Some? ==> MergeSort(MergeSort(s, a), b) == MergeSort(s, b)
  {
  }

  // ---------------------------------------------------------------------
  // The store
  // ---------------------------------------------------------------------

  /**
   * One store instance. `storage` is the local-storage slot the store
   * writes after each list mutation and reads when it is created.
   */
  class TodoStore {
    var todos: seq<TodoItem>
    var filter: TodoFilter
    var sort: TodoSort
    var searchQuery: string
    var storage: Option<seq<TodoItem>>

    /** A fresh store over the slot `stored`; the list is loaded from it when present. */
    constructor (stored: Option<seq<TodoItem>>)
      ensures todos == if stored.Some? then stored.value else []
      ensures filter == TodoFilter(AllLabel, AllStatuses, AllPriorities)
      ensures sort == TodoSort(CreatedAt, Desc)
      ensures searchQuery == []
      ensures storage == stored
    {
      todos := [];
      filter := TodoFilter(AllLabel, AllStatuses, AllPriorities);
      sort := TodoSort(CreatedAt, Desc);
      searchQuery := [];
      storage := stored;
      new;
      LoadFromLocalStorage();
    }

    /** `filteredTodos` */
    function FilteredTodos(): seq<TodoItem>
      reads this
    {
      TodoViews.Visible(todos, searchQuery, filter, sort)
    }

    /** `categories` */
    function Categories(): seq<string>
      reads this
    {
      TodoViews.Categories(todos)
    }

    /** `stats` */
    function Stats(): TodoViews.Stats
      reads this
    {
      TodoViews.ComputeStats(todos)
    }

    /**
     * `addTodo`. `id` stands for `generateId()`, assumed fresh; `created`
     * and `updated` are the two clock readings, taken in that order.
     */
    method AddTodo(id: string, title: string, description: Option<string>,
                   category: Option<string>, priority: Option<Priority>,
                   created: int, updated: int) returns (t: TodoItem)
      requires id != [] && forall k :: 0 <= k < |todos| ==> todos[k].id != id
      requires created <= updated
      modifies this
      ensures t == TodoItem(id, title, description, false, category.GetOr(DefaultCategory),
                            priority.GetOr(Medium), created, updated)
      ensures todos == old(todos) + [t]
      ensures storage == Some(todos)
      ensures filter == old(filter) && sort == old(sort) && searchQuery == old(searchQuery)
      ensures old(UniqueIds(todos)) ==> UniqueIds(todos)
      ensures old(TimestampsOrdered(todos)) ==> TimestampsOrdered(todos)
    {
      t := TodoItem(id, title, description, false, category.GetOr(DefaultCategory),
                    priority.GetOr(Medium), created, updated);
      todos := todos + [t];
      SaveToLocalStorage();
    }

    /** `removeTodo`; the list is saved only when a task was deleted. */
    method RemoveTodo(id: string)
      modifies this
      ensures todos == Removed(old(todos), id)
      ensures storage == if IndexOf(old(todos), id) == -1 then old(storage) else Some(todos)
      ensures filter == old(filter) && sort == old(sort) && searchQuery == old(searchQuery)
    {
      RemovedAt(todos, id);
      var index := IndexOf(todos, id);
      if index != -1 {
        todos := todos[..index] + todos[index + 1..];
        SaveToLocalStorage();
      }
    }

    /** `toggleTodo`, with `now` the clock reading. */
    method ToggleTodo(id: string, now: int)
      modifies this
      ensures todos == Toggled(old(todos), id, now)
      ensures storage == if IndexOf(old(todos), id) == -1 then old(storage) else Some(todos)
      ensures filter == old(filter) && sort == old(sort) && searchQuery == old(searchQuery)
    {
      ReplaceFirstAt(todos, id, t => Toggle(t, now));
      var index := IndexOf(todos, id);
      if index != -1 {
        var todo := todos[index];
        todo := todo.(completed := !todo.completed);
        todo := todo.(updatedAt := now);
        todos := todos[index := todo];
        SaveToLocalStorage();
      }
    }

    /** `updateTodo`, with `now` the clock reading. */
    method UpdateTodo(id: string, updates: TodoPatch, now: int)
      modifies this
      ensures todos == Updated(old(todos), id, updates, now)
      ensures storage == if IndexOf(old(todos), id) == -1 then old(storage) else Some(todos)
      ensures filter == old(filter) && sort == old(sort) && searchQuery == old(searchQuery)
    {
      ReplaceFirstAt(todos, id, t => Refresh(t, updates, now));
      var index := IndexOf(todos, id);
      if index != -1 {
        var todo := Assign(todos[index], updates);
        todo := todo.(updatedAt := now);
        todos := todos[index := todo];
        SaveToLocalStorage();
      }
    }

    method SetFilter(newFilter: FilterPatch)
      modifies this`filter
      ensures filter == MergeFilter(old(filter), newFilter)
    {
      filter := MergeFilter(filter, newFilter);
    }

    method SetSort(newSort: SortPatch)
      modifies this`sort
      ensures sort == MergeSort(old(sort), newSort)
    {
      sort := MergeSort(sort, newSort);
    }

    method SetSearchQuery(query: string)
      modifies this`searchQuery
      ensures searchQuery == query
    {
      searchQuery := query;
    }

    /** `saveToLocalStorage`: the slot now holds a copy of the list. */
    method SaveToLocalStorage()
      modifies this`storage
      ensures storage == Some(todos)
    {
      storage := Some(todos);
    }

    /** `loadFromLocalStorage`: an empty slot leaves the list alone. */
    method LoadFromLocalStorage()
      modifies this`todos
      ensures todos == if storage.Some? then storage.value else old(todos)
    {
      if storage.Some? {
        todos := storage.value;
      }
    }
  }

  /**
   * Saving a store and creating a new store over the saved slot gives the
   * new store the same tasks, field for field.
   */
  method SaveThenReload(store: TodoStore) returns (reloaded: TodoStore)
    modifies store`storage
    ensures fresh(reloaded)
    ensures store.storage == Some(store.todos)
    ensures reloaded.todos == old(store.todos) && store.todos == old(store.todos)
  {
    store.SaveToLocalStorage();
    reloaded := new TodoStore(store.storage);
  }
}

/** Worked scenarios for the store's views and mutations. */
module Scenarios {
  import opened TodoTypes
  import TodoViews
  import Store
  import Text

  function Task(id: string, title: string, completed: bool, category: string, priority: Priority, at: int): TodoItem {
    TodoItem(id, title, None, completed, category, priority, at, at)
  }

  /** A list whose elements are counted exactly like `x` once is `[x]`. */
  lemma Singleton(r: seq<TodoItem>, x: TodoItem)
    requires forall t :: multiset(r)[t] == if t == x then 1 else 0
    ensures r == [x]
  {
    assert multiset(r) == multiset{x};
    assert |r| == |multiset(r)| == 1;
    assert r[0] in multiset(r);
  }

  const Milk := Task("1", "Buy milk", false, "home", Low, 1)
  const Release := Task("2", "Ship release", true, "work", High, 2)

  lemma MilkMatchesQuery()
    ensures TodoViews.SearchHit(Milk, "MiLk")
  {
    var low := Text.Lower("MiLk");
    assert low == "milk";
    Text.ContainsIff(Text.Lower("Buy milk"), low);
    assert Text.OccursAt(Text.Lower("Buy milk"), low, 4);
  }

  lemma ReleaseMissesQuery()
    ensures !TodoViews.SearchHit(Release, "MiLk")
  {
    var low := Text.Lower("MiLk");
    assert low[0] == 'm';
    var title := Text.Lower("Ship release");
    assert forall k :: 0 <= k < |title| ==> title[k] != 'm';
    Text.MissingFirstChar(title, low);
  }

  /** Showing completed tasks only picks the shipped release. */
  lemma StatusFilterScenario()
    ensures TodoViews.Visible([Milk, Release], "", TodoFilter(AllLabel, Completed, AllPriorities),
                              TodoSort(CreatedAt, Desc)) == [Release]
  {
    var todos := [Milk, Release];
    assert forall t :: multiset(todos)[t] == if t == Milk || t == Release then 1 else 0;
    Singleton(TodoViews.Visible(todos, "", TodoFilter(AllLabel, Completed, AllPriorities),
                                TodoSort(CreatedAt, Desc)), Release);
  }

  /** Searching for "MiLk" picks the milk errand, whatever the case. */
  lemma SearchScenario()
    ensures TodoViews.Visible([Milk, Release], "MiLk", TodoFilter(AllLabel, AllStatuses, AllPriorities),
                              TodoSort(CreatedAt, Desc)) == [Milk]
  {
    var todos := [Milk, Release];
    MilkMatchesQuery();
    ReleaseMissesQuery();
    assert forall t :: multiset(todos)[t] == if t == Milk || t == Release then 1 else 0;
    Singleton(TodoViews.Visible(todos, "MiLk", TodoFilter(AllLabel, AllStatuses, AllPriorities),
                                TodoSort(CreatedAt, Desc)), Milk);
  }

  /** Priorities low, high, medium come out high, medium, low descending and the reverse ascending. */
  lemma SortScenario()
    ensures var a, b, c := Task("a", "a", false, "x", Low, 1), Task("b", "b", false, "x", High, 2),
                           Task("c", "c", false, "x", Medium, 3);
      && TodoViews.SortTodos(TodoSort(ByPriority, Desc), [a, b, c]) == [b, c, a]
      && TodoViews.SortTodos(TodoSort(ByPriority, Asc), [a, b, c]) == [a, c, b]
  {
    var a, b, c := Task("a", "a", false, "x", Low, 1), Task("b", "b", false, "x", High, 2),
                   Task("c", "c", false, "x", Medium, 3);
    var desc, asc := TodoSort(ByPriority, Desc), TodoSort(ByPriority, Asc);
    assert TodoViews.SortTodos(desc, [c]) == [c];
    assert TodoViews.SortTodos(desc, [b, c]) == TodoViews.Insert(desc, b, [c]) == [b, c];
    assert TodoViews.Insert(desc, a, [c]) == [c, a];
    assert TodoViews.SortTodos(desc, [a, b, c]) == TodoViews.Insert(desc, a, [b, c]) == [b, c, a];
    assert TodoViews.SortTodos(asc, [c]) == [c];
    assert TodoViews.Insert(asc, b, [c]) == [c] + TodoViews.Insert(asc, b, []) == [c, b];
    assert TodoViews.SortTodos(asc, [b, c]) == [c, b];
    assert TodoViews.SortTodos(asc, [a, b, c]) == TodoViews.Insert(asc, a, [c, b]) == [a, c, b];
  }

  /** Five tasks, two of them completed. */
  lemma StatsScenario()
    ensures var s := [Task("1", "t", true, "x", Low, 1), Task("2", "t", false, "x", Low, 1),
                      Task("3", "t", true, "x", Low, 1), Task("4", "t", false, "x", Low, 1),
                      Task("5", "t", false, "x", Low, 1)];
      TodoViews.ComputeStats(s) == TodoViews.Stats(5, 2, 3)
  {
  }

  /** Labels work, home, work give the list all, work, home. */
  lemma CategoriesScenario()
    ensures TodoViews.Categories([Task("1", "t", false, "work", Low, 1), Task("2", "t", false, "home", Low, 1),
                                  Task("3", "t", false, "work", Low, 1)]) == ["all", "work", "home"]
  {
    var s := [Task("1", "t", false, "work", Low, 1), Task("2", "t", false, "home", Low, 1),
              Task("3", "t", false, "work", Low, 1)];
    var labels := TodoViews.Labels(s);
    assert labels == ["work", "home", "work"];
    assert labels[..2][..1] == ["work"];
    assert TodoViews.Distinct(["work"]) == ["work"];
    assert labels[..2] == ["work", "home"];
    assert TodoViews.Distinct(["work", "home"]) == ["work", "home"];
    assert TodoViews.Distinct(labels) == ["work", "home"];
  }

  /** Adding, toggling twice and removing twice, as a caller of the store sees it. */
  method StoreScenario() {
    var store := new Store.TodoStore(None);
    var t := store.AddTodo("id1", "Buy milk", None, None, None, 10, 10);
    assert t.category == DefaultCategory && t.priority == Medium && !t.completed;
    assert store.todos == [t];
    store.ToggleTodo("id1", 11);
    Store.ToggledSpec([t], "id1", 11);
    assert store.todos[0].completed;
    store.ToggleTodo("id1", 12);
    Store.ToggleTwice([t], "id1", 11, 12);
    assert store.todos == [t.(updatedAt := 12)];
    store.RemoveTodo("id1");
    assert store.todos == [];
    store.RemoveTodo("id1");
    assert store.todos == [];
  }
}

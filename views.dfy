/**
 * The derived views of the task-list store (src/stores/todo.ts:36-114):
 * the visible tasks (filtered, then sorted), the category list and the
 * statistics. Each is a pure function of the store's state.
 */
module TodoViews {
  import opened TodoTypes
  import Text

  // ---------------------------------------------------------------------
  // Array.prototype.filter
  // ---------------------------------------------------------------------

  /** `s.filter(p)`: the elements of `s` that satisfy `p`, in order. */
  function Select(s: seq<TodoItem>, p: TodoItem -> bool): (r: seq<TodoItem>)
    ensures |r| <= |s|
  {
    if s == [] then []
    else if p(s[0]) then [s[0]] + Select(s[1..], p)
    else Select(s[1..], p)
  }

  /**
   * The filter keeps each element that satisfies `p` as often as it
   * occurs, and nothing else.
   */
  lemma {:induction false} SelectSpec(s: seq<TodoItem>, p: TodoItem -> bool)
    ensures forall x :: multiset(Select(s, p))[x] == if p(x) then multiset(s)[x] else 0
    ensures forall x :: x in Select(s, p) <==> x in s && p(x)
  {
    if s != [] {
      SelectSpec(s[1..], p);
      assert s == [s[0]] + s[1..];
    }
  }

  /** An element satisfies exactly one of a predicate and its negation. */
  lemma {:induction false} SelectComplement(s: seq<TodoItem>, p: TodoItem -> bool, q: TodoItem -> bool)
    requires forall x :: q(x) == !p(x)
    ensures |Select(s, p)| + |Select(s, q)| == |s|
  {
    if s != [] {
      SelectComplement(s[1..], p, q);
    }
  }

  // ---------------------------------------------------------------------
  // The filter predicate (src/stores/todo.ts:38-64)
  // ---------------------------------------------------------------------

  /** The search check: an empty query lets every task through. */
  predicate SearchHit(t: TodoItem, query: string) {
    var q := Text.Lower(query);
    query == []
    || Text.Contains(Text.Lower(t.title), q)
    || (t.description.Some? && Text.Contains(Text.Lower(t.description.value), q))
  }

  predicate CategoryHit(t: TodoItem, category: string) {
    category == AllLabel || t.category == category
  }

  predicate StatusHit(t: TodoItem, status: StatusFilter) {
    match status
    case AllStatuses => true
    case Active => !t.completed
    case Completed => t.completed
  }

  predicate PriorityHit(t: TodoItem, priority: PriorityFilter) {
    match priority
    case AllPriorities => true
    case OnlyPriority(level) => t.priority == level
  }

  /** A task is shown when it passes all four checks. */
  predicate Passes(t: TodoItem, query: string, filter: TodoFilter) {
    SearchHit(t, query) && CategoryHit(t, filter.category)
    && StatusHit(t, filter.status) && PriorityHit(t, filter.priority)
  }

  /**
   * A non-empty query keeps exactly the tasks whose lower-cased title, or
   * lower-cased description when there is one, contains the lower-cased
   * query at some position; a task without a description can match only
   * on its title.
   */
  lemma SearchHitSpec(t: TodoItem, query: string)
    ensures query == [] ==> SearchHit(t, query)
    ensures query != [] ==>
      (SearchHit(t, query) <==>
        (exists i :: Text.OccursAt(Text.Lower(t.title), Text.Lower(query), i))
        || (t.description.Some? &&
            exists i :: Text.OccursAt(Text.Lower(t.description.value), Text.Lower(query), i)))
    ensures t.description.None? ==>
      (SearchHit(t, query) <==> query == [] || Text.Contains(Text.Lower(t.title), Text.Lower(query)))
  {
    Text.ContainsIff(Text.Lower(t.title), Text.Lower(query));
    if t.description.Some? {
      Text.ContainsIff(Text.Lower(t.description.value), Text.Lower(query));
    }
  }

  // ---------------------------------------------------------------------
  // The comparator (src/stores/todo.ts:67-95)
  // ---------------------------------------------------------------------

  /** `priorityOrder`: high 3, medium 2, low 1. */
  function Rank(p: Priority): (r: int)
    ensures 1 <= r <= 3
    ensures r == 3 <==> p == High
    ensures r == 1 <==> p == Low
  {
    match p
    case High => 3
    case Medium => 2
    case Low => 1
  }

  /** `aValue > bValue` for the sort key of `field`. */
  predicate KeyGreater(field: SortField, a: TodoItem, b: TodoItem) {
    match field
    case ByPriority => Rank(a.priority) > Rank(b.priority)
    case ByTitle => Text.Less(Text.Lower(b.title), Text.Lower(a.title))
    case CreatedAt => a.createdAt > b.createdAt
  }

  /**
   * The comparator handed to `sort`: positive means `a` goes after `b`.
   * It never answers 0, so two tasks with equal keys each claim to come
   * first.
   */
  function Compare(sort: TodoSort, a: TodoItem, b: TodoItem): (r: int)
    ensures r == 1 || r == -1
    ensures r > 0 <==> !InOrder(sort, a, b)
  {
    if sort.direction == Asc then
      (if KeyGreater(sort.field, a, b) then 1 else -1)
    else
      (if KeyGreater(sort.field, b, a) then 1 else -1)
  }

  /** `a` may stand before `b`: its key is not beyond `b`'s in the direction. */
  predicate InOrder(sort: TodoSort, a: TodoItem, b: TodoItem) {
    if sort.direction == Asc then !KeyGreater(sort.field, a, b)
    else !KeyGreater(sort.field, b, a)
  }

  predicate Sorted(sort: TodoSort, s: seq<TodoItem>) {
    forall i, j :: 0 <= i < j < |s| ==> InOrder(sort, s[i], s[j])
  }

  lemma KeyGreaterAsymmetric(field: SortField, a: TodoItem, b: TodoItem)
    ensures !(KeyGreater(field, a, b) && KeyGreater(field, b, a))
  {
    if field == ByTitle && KeyGreater(field, a, b) {
      Text.LessAsymmetric(Text.Lower(b.title), Text.Lower(a.title));
    }
  }

  /** "Not greater" is transitive: the key order is a total preorder. */
  lemma NotGreaterTransitive(field: SortField, a: TodoItem, b: TodoItem, c: TodoItem)
    requires !KeyGreater(field, a, b) && !KeyGreater(field, b, c)
    ensures !KeyGreater(field, a, c)
  {
    if field == ByTitle {
      var ka, kb, kc := Text.Lower(a.title), Text.Lower(b.title), Text.Lower(c.title);
      Text.LessTotal(ka, kb);
      Text.LessTotal(kb, kc);
      if ka == kb {
        assert !Text.Less(kc, ka);
      } else if kb == kc {
        assert !Text.Less(kc, ka);
      } else {
        Text.LessTransitive(ka, kb, kc);
        Text.LessAsymmetric(ka, kc);
      }
    }
  }

  lemma InOrderTotal(sort: TodoSort, a: TodoItem, b: TodoItem)
    ensures InOrder(sort, a, b) || InOrder(sort, b, a)
  {
    KeyGreaterAsymmetric(sort.field, a, b);
  }

  lemma InOrderTransitive(sort: TodoSort, a: TodoItem, b: TodoItem, c: TodoItem)
    requires InOrder(sort, a, b) && InOrder(sort, b, c)
    ensures InOrder(sort, a, c)
  {
    if sort.direction == Asc {
      NotGreaterTransitive(sort.field, a, b, c);
    } else {
      NotGreaterTransitive(sort.field, c, b, a);
    }
  }

  // ---------------------------------------------------------------------
  // Array.prototype.sort driven by the comparator
  // ---------------------------------------------------------------------

  /** Places `x` before the first element the comparator does not put it after. */
  function Insert(sort: TodoSort, x: TodoItem, s: seq<TodoItem>): seq<TodoItem> {
    if s == [] then [x]
    else if Compare(sort, x, s[0]) > 0 then [s[0]] + Insert(sort, x, s[1..])
    else [x] + s
  }

  /** `result.sort(comparator)`, as an insertion sort driven by the comparator. */
  function SortTodos(sort: TodoSort, s: seq<TodoItem>): seq<TodoItem> {
    if s == [] then [] else Insert(sort, s[0], SortTodos(sort, s[1..]))
  }

  /** A task that may stand before the head of a sorted list may stand before all of it. */
  lemma BeforeAll(sort: TodoSort, x: TodoItem, s: seq<TodoItem>)
    requires Sorted(sort, s) && s != [] && InOrder(sort, x, s[0])
    ensures Sorted(sort, [x] + s)
  {
    forall k | 0 < k < |s|
      ensures InOrder(sort, x, s[k])
    {
      InOrderTransitive(sort, x, s[0], s[k]);
    }
  }

  /** Putting `h` in front of a sorted list whose members `h` may precede keeps it sorted. */
  lemma ConsSorted(sort: TodoSort, h: TodoItem, rest: seq<TodoItem>, m: multiset<TodoItem>)
    requires Sorted(sort, rest) && multiset(rest) == m
    requires forall y :: y in m ==> InOrder(sort, h, y)
    ensures Sorted(sort, [h] + rest)
  {
    forall k | 0 <= k < |rest|
      ensures InOrder(sort, h, rest[k])
    {
      assert rest[k] in multiset(rest);
    }
  }

  /** Inserting into a sorted list keeps it sorted and adds exactly `x`. */
  lemma {:induction false} InsertSpec(sort: TodoSort, x: TodoItem, s: seq<TodoItem>)
    requires Sorted(sort, s)
    ensures Sorted(sort, Insert(sort, x, s))
    ensures multiset(Insert(sort, x, s)) == multiset(s) + multiset{x}
  {
    if s == [] {
    } else if Compare(sort, x, s[0]) > 0 {
      var tail := s[1..];
      InsertSpec(sort, x, tail);
      assert s == [s[0]] + tail;
      InOrderTotal(sort, x, s[0]);
      ConsSorted(sort, s[0], Insert(sort, x, tail), multiset(tail) + multiset{x});
    } else {
      BeforeAll(sort, x, s);
    }
  }

  /** The sorted list holds the same tasks, ordered by the sort key. */
  lemma {:induction false} SortTodosSpec(sort: TodoSort, s: seq<TodoItem>)
    ensures Sorted(sort, SortTodos(sort, s))
    ensures multiset(SortTodos(sort, s)) == multiset(s)
  {
    if s != [] {
      SortTodosSpec(sort, s[1..]);
      InsertSpec(sort, s[0], SortTodos(sort, s[1..]));
      assert s == [s[0]] + s[1..];
    }
  }

  // ---------------------------------------------------------------------
  // filteredTodos (src/stores/todo.ts:36-98)
  // ---------------------------------------------------------------------

  /**
   * The visible tasks: every task that passes the four checks, as many
   * times as it occurs in `todos`, and nothing else, ordered by the sort key.
   */
  function Visible(todos: seq<TodoItem>, query: string, filter: TodoFilter, sort: TodoSort): (r: seq<TodoItem>)
    ensures Sorted(sort, r)
    ensures forall t :: multiset(r)[t] == if Passes(t, query, filter) then multiset(todos)[t] else 0
    ensures forall t :: t in r <==> t in todos && Passes(t, query, filter)
  {
    var kept := Select(todos, t => Passes(t, query, filter));
    SelectSpec(todos, t => Passes(t, query, filter));
    var r := SortTodos(sort, kept);
    SortTodosSpec(sort, kept);
    assert forall t :: t in r <==> t in kept by {
      forall t ensures t in r <==> t in kept {
        assert t in r <==> t in multiset(r);
      }
    }
    r
  }

  /** The visible tasks, read through each sort key in the source's own terms. */
  lemma VisibleOrderedByKey(todos: seq<TodoItem>, query: string, filter: TodoFilter, sort: TodoSort)
    ensures var r := Visible(todos, query, filter, sort);
      sort == TodoSort(ByPriority, Asc) ==>
        forall i, j :: 0 <= i < j < |r| ==> Rank(r[i].priority) <= Rank(r[j].priority)
    ensures var r := Visible(todos, query, filter, sort);
      sort == TodoSort(ByPriority, Desc) ==>
        forall i, j :: 0 <= i < j < |r| ==> Rank(r[i].priority) >= Rank(r[j].priority)
    ensures var r := Visible(todos, query, filter, sort);
      sort == TodoSort(ByTitle, Asc) ==>
        forall i, j :: 0 <= i < j < |r| ==> !Text.Less(Text.Lower(r[j].title), Text.Lower(r[i].title))
    ensures var r := Visible(todos, query, filter, sort);
      sort == TodoSort(ByTitle, Desc) ==>
        forall i, j :: 0 <= i < j < |r| ==> !Text.Less(Text.Lower(r[i].title), Text.Lower(r[j].title))
    ensures var r := Visible(todos, query, filter, sort);
      sort == TodoSort(CreatedAt, Asc) ==>
        forall i, j :: 0 <= i < j < |r| ==> r[i].createdAt <= r[j].createdAt
    ensures var r := Visible(todos, query, filter, sort);
      sort == TodoSort(CreatedAt, Desc) ==>
        forall i, j :: 0 <= i < j < |r| ==> r[i].createdAt >= r[j].createdAt
  {
  }

  // ---------------------------------------------------------------------
  // categories (src/stores/todo.ts:102-105)
  // ---------------------------------------------------------------------

  predicate NoDuplicates(s: seq<string>) {
    forall i, j :: 0 <= i < j < |s| ==> s[i] != s[j]
  }

  /** The position of the first occurrence of `x` in `s`. */
  function FirstIndex(s: seq<string>, x: string): (r: nat)
    requires x in s
    ensures r < |s| && s[r] == x && x !in s[..r]
  {
    if s[0] == x then 0
    else
      assert s == [s[0]] + s[1..];
      var k := FirstIndex(s[1..], x);
      assert s[..k + 1] == [s[0]] + s[1..][..k];
      k + 1
  }

  /** The first occurrence is the one with no occurrence before it. */
  lemma {:induction false} FirstIndexUnique(s: seq<string>, x: string, k: nat)
    requires k < |s| && s[k] == x && x !in s[..k]
    ensures FirstIndex(s, x) == k
  {
    assert k > 0 ==> s[..k][0] == s[0];
    if s[0] != x {
      assert s[1..][..k - 1] == s[..k][1..];
      FirstIndexUnique(s[1..], x, k - 1);
    }
  }

  lemma FirstIndexInPrefix(s: seq<string>, n: nat, x: string)
    requires n <= |s| && x in s[..n]
    ensures FirstIndex(s, x) == FirstIndex(s[..n], x)
  {
    var k := FirstIndex(s[..n], x);
    assert s[..n][..k] == s[..k];
    FirstIndexUnique(s, x, k);
  }

  /**
   * `Array.from(new Set(s))`: each label once, at its first appearance.
   * Built as the `Set` is, one element of `s` at a time from the front.
   */
  function Distinct(s: seq<string>): (r: seq<string>)
    ensures NoDuplicates(r)
    ensures forall x :: x in r <==> x in s
    ensures forall i, j :: 0 <= i < j < |r| ==> FirstIndex(s, r[i]) < FirstIndex(s, r[j])
  {
    if s == [] then []
    else
      var n := |s| - 1;
      var d := Distinct(s[..n]);
      assert s == s[..n] + [s[n]];
      forall x | x in d
        ensures FirstIndex(s, x) == FirstIndex(s[..n], x) && FirstIndex(s, x) < n
      {
        FirstIndexInPrefix(s, n, x);
      }
      if s[n] in d then d
      else
        assert FirstIndex(s, s[n]) == n;
        d + [s[n]]
  }

  /** The label of every task, in list order (`todos.map(todo => todo.category)`). */
  function Labels(todos: seq<TodoItem>): (r: seq<string>)
    ensures |r| == |todos|
    ensures forall i :: 0 <= i < |todos| ==> r[i] == todos[i].category
  {
    if todos == [] then [] else [todos[0].category] + Labels(todos[1..])
  }

  /** The category list: the sentinel, then each distinct label. */
  function Categories(todos: seq<TodoItem>): seq<string> {
    [AllLabel] + Distinct(Labels(todos))
  }

  lemma {:induction false} DistinctCardinality(s: seq<string>)
    requires NoDuplicates(s)
    ensures |set x | x in s| == |s|
  {
    if s != [] {
      var n := |s| - 1;
      DistinctCardinality(s[..n]);
      assert (set x | x in s) == (set x | x in s[..n]) + {s[n]} by {
        assert s == s[..n] + [s[n]];
      }
      assert s[n] !in s[..n];
    }
  }

  /**
   * The category list starts with "all"; the rest holds each label of the
   * collection exactly once, in order of first appearance, so its length is
   * one more than the number of distinct labels.
   */
  lemma CategoriesSpec(todos: seq<TodoItem>)
    ensures var r := Categories(todos);
      && |r| >= 1 && r[0] == AllLabel
      && NoDuplicates(r[1..])
      && (forall x :: x in r[1..] <==> exists t :: t in todos && t.category == x)
      && (forall i, j :: 1 <= i < j < |r| ==>
            FirstIndex(Labels(todos), r[i]) < FirstIndex(Labels(todos), r[j]))
      && |r| == 1 + |set t | t in todos :: t.category|
  {
    var labels := Labels(todos);
    var r := Categories(todos);
    var d := Distinct(labels);
    assert r[1..] == d;
    forall x
      ensures x in d <==> exists t :: t in todos && t.category == x
    {
      if x in labels {
        var i :| 0 <= i < |labels| && labels[i] == x;
        assert todos[i] in todos;
      }
      if exists t :: t in todos && t.category == x {
        var t :| t in todos && t.category == x;
        var i :| 0 <= i < |todos| && todos[i] == t;
        assert labels[i] == x;
      }
    }
    DistinctCardinality(d);
    assert (set x | x in d) == (set t | t in todos :: t.category);
  }

  // ---------------------------------------------------------------------
  // stats (src/stores/todo.ts:108-114)
  // ---------------------------------------------------------------------

  datatype Stats = Stats(total: nat, completed: nat, active: int)

  /** The tasks the "completed" status filter shows. */
  predicate IsCompleted(t: TodoItem) { StatusHit(t, Completed) }

  /** The tasks the "active" status filter shows. */
  predicate IsActive(t: TodoItem) { StatusHit(t, Active) }

  function ComputeStats(todos: seq<TodoItem>): Stats {
    var total := |todos|;
    var completed := |Select(todos, IsCompleted)|;
    Stats(total, completed, total - completed)
  }

  /**
   * `total` is the number of tasks, `completed` the number of completed
   * ones, `active` the number of the others; so the two add up and
   * neither exceeds the total.
   */
  lemma {:induction false} StatsSpec(todos: seq<TodoItem>)
    ensures var st := ComputeStats(todos);
      && st.total == |todos|
      && st.completed == |Select(todos, IsCompleted)|
      && st.active == |Select(todos, IsActive)|
      && st.active + st.completed == st.total
      && 0 <= st.active <= st.total
      && st.completed <= st.total
  {
    SelectComplement(todos, IsCompleted, IsActive);
  }
}

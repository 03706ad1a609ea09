/** The record shapes the task-list store works on (src/types/todo.ts). */
module TodoTypes {

  /** An optional value: `None` stands for an absent property or `undefined`. */
  datatype Option<+T> = None | Some(value: T) {
    /** The value, or `default` when absent (what a JavaScript default parameter does). */
    function GetOr(default: T): T {
      match this
      case Some(v) => v
      case None => default
    }
  }

  datatype Priority = Low | Medium | High

  /**
   * One task. Timestamps are clock readings (milliseconds since the epoch);
   * `Date` objects are compared by those readings.
   */
  datatype TodoItem = TodoItem(
    id: string,
    title: string,
    description: Option<string>,
    completed: bool,
    category: string,
    priority: Priority,
    createdAt: int,
    updatedAt: int)

  /** `'all' | 'active' | 'completed'` */
  datatype StatusFilter = AllStatuses | Active | Completed

  /** `'all' | 'low' | 'medium' | 'high'` */
  datatype PriorityFilter = AllPriorities | OnlyPriority(level: Priority)

  /** The category selector is a free label; the label "all" switches it off. */
  datatype TodoFilter = TodoFilter(category: string, status: StatusFilter, priority: PriorityFilter)

  /** `'createdAt' | 'priority' | 'title'` */
  datatype SortField = CreatedAt | ByPriority | ByTitle

  /** `'asc' | 'desc'` */
  datatype Direction = Asc | Desc

  datatype TodoSort = TodoSort(field: SortField, direction: Direction)

  /**
   * `Partial<TodoItem>`: a property the update object carries is `Some`.
   * `description` may be present with the value `undefined`, hence the
   * nested option.
   */
  datatype TodoPatch = TodoPatch(
    id: Option<string>,
    title: Option<string>,
    description: Option<Option<string>>,
    completed: Option<bool>,
    category: Option<string>,
    priority: Option<Priority>,
    createdAt: Option<int>,
    updatedAt: Option<int>)

  /** `Partial<TodoFilter>` */
  datatype FilterPatch = FilterPatch(category: Option<string>, status: Option<StatusFilter>, priority: Option<PriorityFilter>)

  /** `Partial<TodoSort>` */
  datatype SortPatch = SortPatch(field: Option<SortField>, direction: Option<Direction>)

  /** The sentinel label of the category selector and of the category list. */
  const AllLabel: string := "all"

  /** The category `addTodo` gives a task when the caller names none. */
  const DefaultCategory: string := "默认"

  /** No two tasks share an id. */
  predicate UniqueIds(s: seq<TodoItem>) {
    forall i, j :: 0 <= i < j < |s| ==> s[i].id != s[j].id
  }

  /** Every task was last modified no earlier than it was created. */
  predicate TimestampsOrdered(s: seq<TodoItem>) {
    forall i :: 0 <= i < |s| ==> s[i].createdAt <= s[i].updatedAt
  }
}

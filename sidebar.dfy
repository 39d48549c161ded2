/**
 * The sidebar's logic (src/components/layout/Sidebar.tsx): the task counts
 * shown beside the menu items and the filter patches the menu items and the
 * search box pass to the task store's `setFilter`.
 */
module Sidebar {
  import opened Wrappers
  import opened Types
  import opened Text
  import opened ListOps
  import opened TaskStore

  /**
   * The test inside `getTaskCount`, by filter type. `today` is the current
   * date as 'YYYY-MM-DD'; `value` is the optional second argument (None for
   * `undefined`), which a task's project only equals when both are numbers.
   */
  predicate Counted(filterType: string, value: Option<int>, today: string, t: Task) {
    if filterType == "all" then true
    else if filterType == "today" then t.dueDate.Some? && StartsWith(t.dueDate.value, today)
    else if filterType == "completed" then t.status == Completed
    else if filterType == "pending" then t.status == Pending
    else if filterType == "project" then value.Some? && t.projectId == value
    else false
  }

  function CountTest(filterType: string, value: Option<int>, today: string): Task -> bool {
    (t: Task) => Counted(filterType, value, today, t)
  }

  /** `getTaskCount(filterType, value)`. */
  function TaskCount(tasks: seq<Task>, filterType: string, value: Option<int>, today: string): nat {
    |Filter(tasks, CountTest(filterType, value, today))|
  }

  /** The 'all' count is the number of tasks. */
  lemma AllCount(tasks: seq<Task>, value: Option<int>, today: string)
    ensures TaskCount(tasks, "all", value, today) == |tasks|
  {
    FilterKeepsAll(tasks, CountTest("all", value, today));
  }

  /** A filter type the switch does not name counts nothing. */
  lemma UnknownCount(tasks: seq<Task>, filterType: string, value: Option<int>, today: string)
    requires filterType !in ["all", "today", "completed", "pending", "project"]
    ensures TaskCount(tasks, filterType, value, today) == 0
  {
    FilterKeepsNone(tasks, CountTest(filterType, value, today));
  }

  /**
   * The 'completed' and 'pending' counts test the status exactly: together
   * with the 'in_progress' tasks they make up every task, so the two never
   * exceed the 'all' count.
   */
  lemma StatusCountsPartition(tasks: seq<Task>, value: Option<int>, today: string)
    ensures TaskCount(tasks, "completed", value, today) + TaskCount(tasks, "pending", value, today)
      + |Filter(tasks, (t: Task) => t.status == InProgress)| == |tasks|
    ensures TaskCount(tasks, "completed", value, today) + TaskCount(tasks, "pending", value, today)
      <= TaskCount(tasks, "all", value, today)
  {
    FilterPartitionCounts(tasks, CountTest("completed", value, today), CountTest("pending", value, today),
      (t: Task) => t.status == InProgress);
    AllCount(tasks, value, today);
  }

  /** Each count counts exactly its tasks: a task is among those counted iff it passes the test. */
  lemma CountedTasks(tasks: seq<Task>, filterType: string, value: Option<int>, today: string)
    ensures forall i :: 0 <= i < |tasks| ==>
      (tasks[i] in Filter(tasks, CountTest(filterType, value, today)) <==> Counted(filterType, value, today, tasks[i]))
  {
  }

  /** The 'today' count is positive exactly when some task's due date starts with today's date. */
  lemma TodayCountPositive(tasks: seq<Task>, today: string)
    ensures TaskCount(tasks, "today", None, today) > 0 <==>
      exists i :: 0 <= i < |tasks| && tasks[i].dueDate.Some? && StartsWith(tasks[i].dueDate.value, today)
  {
    FilterNonEmpty(tasks, CountTest("today", None, today));
  }

  /** The 'project' count is positive exactly when some task belongs to that project. */
  lemma ProjectCountPositive(tasks: seq<Task>, id: int, today: string)
    ensures TaskCount(tasks, "project", Some(id), today) > 0 <==>
      exists i :: 0 <= i < |tasks| && tasks[i].projectId == Some(id)
  {
    FilterNonEmpty(tasks, CountTest("project", Some(id), today));
  }

  /** The four menu items, in the order they are rendered. */
  datatype MenuItem = AllTasks | Today | PendingTasks | CompletedTasks

  const Menu: seq<MenuItem> := [AllTasks, Today, PendingTasks, CompletedTasks]

  function ItemLabel(item: MenuItem): string {
    match item
    case AllTasks => "All Tasks"
    case Today => "Today"
    case PendingTasks => "Pending"
    case CompletedTasks => "Completed"
  }

  /** The count beside an item: `getTaskCount` with the item's id. */
  function ItemCount(tasks: seq<Task>, item: MenuItem, today: string): nat {
    match item
    case AllTasks => TaskCount(tasks, "all", None, today)
    case Today => TaskCount(tasks, "today", None, today)
    case PendingTasks => TaskCount(tasks, "pending", None, today)
    case CompletedTasks => TaskCount(tasks, "completed", None, today)
  }

  /** Whether the count badge is rendered. */
  predicate ShowsCount(count: nat) {
    count > 0
  }

  /** The patch an item's click passes to `setFilter`: a status, and no project. */
  function MenuPatch(item: MenuItem): (p: FilterPatch)
    ensures p.priority.None? && p.search.None? && p.projectId == Some(None) && p.status.Some?
  {
    match item
    case AllTasks => FilterPatch(Some("all"), None, Some(None), None)
    case Today => FilterPatch(Some("all"), None, Some(None), None)
    case PendingTasks => FilterPatch(Some("pending"), None, Some(None), None)
    case CompletedTasks => FilterPatch(Some("completed"), None, Some(None), None)
  }

  /**
   * A menu click sets the status, clears the project and keeps priority and
   * search; "Today" sets the same filter as "All Tasks", and the "Pending"
   * and "Completed" items then show exactly the tasks of that status among
   * those the priority and search let through.
   */
  lemma MenuClickEffect(f: TaskFilter, item: MenuItem, t: Task)
    ensures var g := MergeFilter(f, MenuPatch(item));
      && g.projectId.None? && g.priority == f.priority && g.search == f.search
      && (item == PendingTasks ==> (Matches(g, t) <==> t.status == Pending && PriorityCheck(f, t) && SearchCheck(f, t)))
      && (item == CompletedTasks ==> (Matches(g, t) <==> t.status == Completed && PriorityCheck(f, t) && SearchCheck(f, t)))
      && (item == AllTasks || item == Today ==> (Matches(g, t) <==> PriorityCheck(f, t) && SearchCheck(f, t)))
    ensures MergeFilter(f, MenuPatch(Today)) == MergeFilter(f, MenuPatch(AllTasks))
  {
    var g := MergeFilter(f, MenuPatch(item));
    if item == PendingTasks {
      StatusCheckIsEquality(g, t, Pending);
    } else if item == CompletedTasks {
      StatusCheckIsEquality(g, t, Completed);
    }
  }

  /** The search box's patch: the typed text, nothing else. */
  function SearchPatch(text: string): FilterPatch {
    FilterPatch(None, None, None, Some(text))
  }

  /** Typing in the search box changes the search text and no other field. */
  lemma SearchOnlyChangesSearch(f: TaskFilter, text: string)
    ensures MergeFilter(f, SearchPatch(text)) == f.(search := text)
  {
    MergeFilterFields(f, SearchPatch(text));
  }
}

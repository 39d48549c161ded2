/**
 * How `updateTask` and `updateProject` turn a partial record into the SET
 * list of an UPDATE statement (src/services/database.ts:138-170, 221-237),
 * and what SQLite does with that list: the assignments are applied to the
 * row, and when one column is assigned more than once the rightmost
 * assignment is the one that takes effect.
 */
module SetClause {
  import opened Wrappers
  import opened Types

  // ---------------------------------------------------------------------
  // Task patches
  // ---------------------------------------------------------------------

  /**
   * One own property of a `Partial<Task>` together with its value. The
   * nullable properties carry None for `null`/`undefined`.
   */
  datatype TaskEntry =
    | IdEntry(id: int)
    | TitleEntry(title: string)
    | DescriptionEntry(description: Option<string>)
    | ProjectIdEntry(projectId: Option<int>)
    | PriorityEntry(priority: Priority)
    | StatusEntry(status: Status)
    | DueDateEntry(dueDate: Option<string>)
    | CreatedAtEntry(createdAt: string)
    | UpdatedAtEntry(updatedAt: string)
    | CompletedAtEntry(completedAt: Option<string>)
    | ParentTaskIdEntry(parentTaskId: Option<int>)

  /** `Object.entries(updates)`: the properties of the patch in insertion order. */
  type TaskPatch = seq<TaskEntry>

  /** The property names of a `Task`. */
  datatype Key =
    | IdKey | TitleKey | DescriptionKey | ProjectIdKey | PriorityKey | StatusKey
    | DueDateKey | CreatedAtKey | UpdatedAtKey | CompletedAtKey | ParentTaskIdKey

  /** A property name as the source spells it. */
  function KeyText(k: Key): string {
    match k
    case IdKey => "id"
    case TitleKey => "title"
    case DescriptionKey => "description"
    case ProjectIdKey => "projectId"
    case PriorityKey => "priority"
    case StatusKey => "status"
    case DueDateKey => "dueDate"
    case CreatedAtKey => "createdAt"
    case UpdatedAtKey => "updatedAt"
    case CompletedAtKey => "completedAt"
    case ParentTaskIdKey => "parentTaskId"
  }

  /** Distinct properties have distinct names, so comparing keys is comparing names. */
  lemma KeyTextInjective(a: Key, b: Key)
    ensures KeyText(a) == KeyText(b) <==> a == b
  {
  }

  /** The property name of an entry. */
  function KeyName(e: TaskEntry): Key {
    match e
    case IdEntry(_) => IdKey
    case TitleEntry(_) => TitleKey
    case DescriptionEntry(_) => DescriptionKey
    case ProjectIdEntry(_) => ProjectIdKey
    case PriorityEntry(_) => PriorityKey
    case StatusEntry(_) => StatusKey
    case DueDateEntry(_) => DueDateKey
    case CreatedAtEntry(_) => CreatedAtKey
    case UpdatedAtEntry(_) => UpdatedAtKey
    case CompletedAtEntry(_) => CompletedAtKey
    case ParentTaskIdEntry(_) => ParentTaskIdKey
  }

  /** The properties the loop passes over with `continue`. */
  predicate SkippedKey(key: Key) {
    key == IdKey || key == CreatedAtKey
  }

  /** The camelCase-to-snake_case rename; any other key is used verbatim. */
  function DbKey(key: string): string {
    if key == "projectId" then "project_id"
    else if key == "dueDate" then "due_date"
    else if key == "updatedAt" then "updated_at"
    else if key == "completedAt" then "completed_at"
    else if key == "parentTaskId" then "parent_task_id"
    else key
  }

  /** The columns of the `tasks` table. */
  datatype TaskColumn =
    | IdColumn | TitleColumn | DescriptionColumn | ProjectIdColumn | PriorityColumn | StatusColumn
    | DueDateColumn | CreatedAtColumn | UpdatedAtColumn | CompletedAtColumn | ParentTaskIdColumn

  function ColumnName(c: TaskColumn): string {
    match c
    case IdColumn => "id"
    case TitleColumn => "title"
    case DescriptionColumn => "description"
    case ProjectIdColumn => "project_id"
    case PriorityColumn => "priority"
    case StatusColumn => "status"
    case DueDateColumn => "due_date"
    case CreatedAtColumn => "created_at"
    case UpdatedAtColumn => "updated_at"
    case CompletedAtColumn => "completed_at"
    case ParentTaskIdColumn => "parent_task_id"
  }

  /** The property of a `Task` that a column is read back as. */
  function ColumnKey(c: TaskColumn): Key {
    match c
    case IdColumn => IdKey
    case TitleColumn => TitleKey
    case DescriptionColumn => DescriptionKey
    case ProjectIdColumn => ProjectIdKey
    case PriorityColumn => PriorityKey
    case StatusColumn => StatusKey
    case DueDateColumn => DueDateKey
    case CreatedAtColumn => CreatedAtKey
    case UpdatedAtColumn => UpdatedAtKey
    case CompletedAtColumn => CompletedAtKey
    case ParentTaskIdColumn => ParentTaskIdKey
  }

  /**
   * The column an entry belongs to, read back under the entry's own
   * property name; the skipped entries are exactly those of `id` and
   * `created_at`.
   */
  function EntryColumn(e: TaskEntry): (c: TaskColumn)
    ensures ColumnKey(c) == KeyName(e)
    ensures SkippedKey(KeyName(e)) <==> c == IdColumn || c == CreatedAtColumn
  {
    match e
    case IdEntry(_) => IdColumn
    case TitleEntry(_) => TitleColumn
    case DescriptionEntry(_) => DescriptionColumn
    case ProjectIdEntry(_) => ProjectIdColumn
    case PriorityEntry(_) => PriorityColumn
    case StatusEntry(_) => StatusColumn
    case DueDateEntry(_) => DueDateColumn
    case CreatedAtEntry(_) => CreatedAtColumn
    case UpdatedAtEntry(_) => UpdatedAtColumn
    case CompletedAtEntry(_) => CompletedAtColumn
    case ParentTaskIdEntry(_) => ParentTaskIdColumn
  }

  /** The rename of every entry the loop keeps is exactly the name of that entry's column. */
  lemma RenameIsColumnName(e: TaskEntry)
    ensures !SkippedKey(KeyName(e)) ==> DbKey(KeyText(KeyName(e))) == ColumnName(EntryColumn(e))
  {
  }

  /** An entry the loop turns into an assignment. */
  type SetEntry = e: TaskEntry | !SkippedKey(KeyName(e)) witness TitleEntry("")

  /** The four shapes of fragment in the SET list. */
  datatype Assignment =
    | Bind(entry: SetEntry)  // `<dbKey> = ?`, bound to the entry's value
    | UpdatedAtNow           // `updated_at = CURRENT_TIMESTAMP`
    | CompletedAtNow         // `completed_at = CURRENT_TIMESTAMP`
    | CompletedAtNull        // `completed_at = NULL`

  function AssignmentColumn(a: Assignment): TaskColumn {
    match a
    case Bind(e) => EntryColumn(e)
    case UpdatedAtNow => UpdatedAtColumn
    case CompletedAtNow => CompletedAtColumn
    case CompletedAtNull => CompletedAtColumn
  }

  /** The SQL text of a fragment. */
  function FragmentText(a: Assignment): string {
    match a
    case Bind(e) => DbKey(KeyText(KeyName(e))) + " = ?"
    case UpdatedAtNow => "updated_at = CURRENT_TIMESTAMP"
    case CompletedAtNow => "completed_at = CURRENT_TIMESTAMP"
    case CompletedAtNull => "completed_at = NULL"
  }

  /**
   * `updates[key]`: the entry for a property name. An object's keys are
   * distinct; on a list that repeats a key this finds the last one.
   */
  function Lookup(p: TaskPatch, key: Key): (r: Option<TaskEntry>)
    ensures r.Some? ==> KeyName(r.value) == key
  {
    if p == [] then None
    else if KeyName(p[|p| - 1]) == key then Some(p[|p| - 1])
    else Lookup(p[..|p| - 1], key)
  }

  /** The entry found is one of the patch's, and nothing is found exactly when no entry has the key. */
  lemma {:induction false} LookupSpec(p: TaskPatch, key: Key)
    ensures Lookup(p, key).Some? ==> Lookup(p, key).value in p
    ensures Lookup(p, key).None? <==> forall i :: 0 <= i < |p| ==> KeyName(p[i]) != key
  {
    if p != [] {
      var q := p[..|p| - 1];
      LookupSpec(q, key);
      if KeyName(p[|p| - 1]) != key {
        if Lookup(q, key).Some? {
          var i :| 0 <= i < |q| && q[i] == Lookup(q, key).value;
          assert p[i] == q[i];
        }
        forall i | 0 <= i < |p| - 1 ensures p[i] == q[i] { }
      }
    }
  }

  /** The entry found for a key is the last one carrying it. */
  lemma {:induction false} LookupLast(p: TaskPatch, key: Key, i: int)
    requires 0 <= i < |p| && KeyName(p[i]) == key
    requires forall j :: i < j < |p| ==> KeyName(p[j]) != key
    ensures Lookup(p, key) == Some(p[i])
  {
    if i < |p| - 1 {
      LookupLast(p[..|p| - 1], key, i);
    }
  }

  /** Entries appended under other keys do not change what a key finds. */
  lemma {:induction false} LookupAppendOther(p: TaskPatch, q: TaskPatch, key: Key)
    requires forall j :: 0 <= j < |q| ==> KeyName(q[j]) != key
    ensures Lookup(p + q, key) == Lookup(p, key)
  {
    if q != [] {
      var q' := q[..|q| - 1];
      assert (p + q)[..|p + q| - 1] == p + q';
      assert (p + q)[|p + q| - 1] == q[|q| - 1];
      assert KeyName(q[|q| - 1]) != key;
      forall j | 0 <= j < |q'| ensures KeyName(q'[j]) != key {
        assert q'[j] == q[j];
      }
      LookupAppendOther(p, q', key);
    } else {
      assert p + q == p;
    }
  }

  /** `updates.status`. */
  function PatchStatus(p: TaskPatch): Option<Status> {
    var e := Lookup(p, StatusKey);
    if e.Some? && e.value.StatusEntry? then Some(e.value.status) else None
  }

  /** `updates.completedAt`: None when the property is absent, Some(v) when present (v None for `undefined`). */
  function PatchCompletedAt(p: TaskPatch): Option<Option<string>> {
    var e := Lookup(p, CompletedAtKey);
    if e.Some? && e.value.CompletedAtEntry? then Some(e.value.completedAt) else None
  }

  /** `!!updates.completedAt`. */
  predicate CompletedAtTruthy(p: TaskPatch) {
    PatchCompletedAt(p).Some? && TextTruthy(PatchCompletedAt(p).value)
  }

  /** The fragments the for-of loop pushes: one per entry that is not skipped, in entry order. */
  function BoundAssignments(p: TaskPatch): seq<Assignment> {
    if p == [] then []
    else
      var e := p[|p| - 1];
      BoundAssignments(p[..|p| - 1]) + (if SkippedKey(KeyName(e)) then [] else [Bind(e)])
  }

  /** The completion fragment appended after `updated_at` (lines 158-162). */
  function CompletionAssignments(p: TaskPatch): seq<Assignment> {
    if PatchStatus(p) == Some(Completed) && !CompletedAtTruthy(p) then [CompletedAtNow]
    else if PatchStatus(p) != Some(Completed) then [CompletedAtNull]
    else []
  }

  /** The whole SET list of `updateTask`. */
  function TaskSetList(p: TaskPatch): seq<Assignment> {
    BoundAssignments(p) + [UpdatedAtNow] + CompletionAssignments(p)
  }

  /** The loop of `updateTask` that fills `fields`, followed by the fixed fragments. */
  method BuildTaskSetList(updates: TaskPatch) returns (fields: seq<Assignment>)
    ensures fields == TaskSetList(updates)
  {
    fields := [];
    var i := 0;
    while i < |updates|
      invariant 0 <= i <= |updates|
      invariant fields == BoundAssignments(updates[..i])
    {
      var entry := updates[i];
      assert updates[..i + 1][..i] == updates[..i];
      if !SkippedKey(KeyName(entry)) {
        fields := fields + [Bind(entry)];
      }
      i := i + 1;
    }
    assert updates[..|updates|] == updates;
    fields := fields + [UpdatedAtNow];
    if PatchStatus(updates) == Some(Completed) && !CompletedAtTruthy(updates) {
      fields := fields + [CompletedAtNow];
    } else if PatchStatus(updates) != Some(Completed) {
      fields := fields + [CompletedAtNull];
    }
  }

  /** No fragment of the SET list ever writes `id` or `created_at`. */
  lemma {:induction false} SetListSparesIdAndCreatedAt(p: TaskPatch)
    ensures forall i :: 0 <= i < |TaskSetList(p)| ==>
      AssignmentColumn(TaskSetList(p)[i]) != IdColumn && AssignmentColumn(TaskSetList(p)[i]) != CreatedAtColumn
  {
    BoundSparesIdAndCreatedAt(p);
  }

  lemma {:induction false} BoundSparesIdAndCreatedAt(p: TaskPatch)
    ensures forall i :: 0 <= i < |BoundAssignments(p)| ==>
      AssignmentColumn(BoundAssignments(p)[i]) != IdColumn && AssignmentColumn(BoundAssignments(p)[i]) != CreatedAtColumn
  {
    if p != [] {
      BoundSparesIdAndCreatedAt(p[..|p| - 1]);
    }
  }

  // ---------------------------------------------------------------------
  // What the UPDATE does to a row
  // ---------------------------------------------------------------------

  /** A column's value as SQLite holds it. */
  datatype Cell = NullCell | IntCell(i: int) | TextCell(s: string)

  function TextCellOf(o: Option<string>): Cell {
    if o.Some? then TextCell(o.value) else NullCell
  }

  function IntCellOf(o: Option<int>): Cell {
    if o.Some? then IntCell(o.value) else NullCell
  }

  function ColumnValue(row: Task, c: TaskColumn): Cell {
    match c
    case IdColumn => IntCell(row.id)
    case TitleColumn => TextCell(row.title)
    case DescriptionColumn => TextCellOf(row.description)
    case ProjectIdColumn => IntCellOf(row.projectId)
    case PriorityColumn => IntCell(row.priority)
    case StatusColumn => TextCell(StatusText(row.status))
    case DueDateColumn => TextCellOf(row.dueDate)
    case CreatedAtColumn => TextCell(row.createdAt)
    case UpdatedAtColumn => TextCell(row.updatedAt)
    case CompletedAtColumn => TextCellOf(row.completedAt)
    case ParentTaskIdColumn => IntCellOf(row.parentTaskId)
  }

  /** The value a bound entry carries. */
  function EntryCell(e: TaskEntry): Cell {
    match e
    case IdEntry(v) => IntCell(v)
    case TitleEntry(v) => TextCell(v)
    case DescriptionEntry(v) => TextCellOf(v)
    case ProjectIdEntry(v) => IntCellOf(v)
    case PriorityEntry(v) => IntCell(v)
    case StatusEntry(v) => TextCell(StatusText(v))
    case DueDateEntry(v) => TextCellOf(v)
    case CreatedAtEntry(v) => TextCell(v)
    case UpdatedAtEntry(v) => TextCell(v)
    case CompletedAtEntry(v) => TextCellOf(v)
    case ParentTaskIdEntry(v) => IntCellOf(v)
  }

  /** The value a fragment assigns; CURRENT_TIMESTAMP is the statement's `now`. */
  function AssignedCell(a: Assignment, now: string): Cell {
    match a
    case Bind(e) => EntryCell(e)
    case UpdatedAtNow => TextCell(now)
    case CompletedAtNow => TextCell(now)
    case CompletedAtNull => NullCell
  }

  /** Performs one fragment on a row. */
  function Apply(row: Task, a: Assignment, now: string): Task {
    match a
    case Bind(e) => (
      match e
      case TitleEntry(v) => row.(title := v)
      case DescriptionEntry(v) => row.(description := v)
      case ProjectIdEntry(v) => row.(projectId := v)
      case PriorityEntry(v) => row.(priority := v)
      case StatusEntry(v) => row.(status := v)
      case DueDateEntry(v) => row.(dueDate := v)
      case UpdatedAtEntry(v) => row.(updatedAt := v)
      case CompletedAtEntry(v) => row.(completedAt := v)
      case ParentTaskIdEntry(v) => row.(parentTaskId := v))
    case UpdatedAtNow => row.(updatedAt := now)
    case CompletedAtNow => row.(completedAt := Some(now))
    case CompletedAtNull => row.(completedAt := None)
  }

  /** Performs the fragments left to right. */
  function ApplyAll(row: Task, fs: seq<Assignment>, now: string): Task {
    if fs == [] then row else Apply(ApplyAll(row, fs[..|fs| - 1], now), fs[|fs| - 1], now)
  }

  /** The rightmost fragment of the list that assigns column `c`. */
  function LastAssignmentTo(fs: seq<Assignment>, c: TaskColumn): (r: Option<Assignment>)
    ensures r.Some? ==> AssignmentColumn(r.value) == c && r.value in fs
    ensures r.None? <==> forall i :: 0 <= i < |fs| ==> AssignmentColumn(fs[i]) != c
  {
    if fs == [] then None
    else if AssignmentColumn(fs[|fs| - 1]) == c then Some(fs[|fs| - 1])
    else LastAssignmentTo(fs[..|fs| - 1], c)
  }

  /** Every column name is read back under one property name. */
  lemma ColumnKeyInjective(c1: TaskColumn, c2: TaskColumn)
    requires ColumnKey(c1) == ColumnKey(c2)
    ensures c1 == c2
  {
  }

  lemma ApplyWritesOneColumn(row: Task, a: Assignment, now: string, c: TaskColumn)
    ensures ColumnValue(Apply(row, a, now), c) ==
      if AssignmentColumn(a) == c then AssignedCell(a, now) else ColumnValue(row, c)
  {
    match a
    case Bind(e) => BindWritesOneColumn(row, e, now, c);
    case UpdatedAtNow =>
    case CompletedAtNow =>
    case CompletedAtNull =>
  }

  lemma BindWritesOneColumn(row: Task, e: SetEntry, now: string, c: TaskColumn)
    ensures ColumnValue(Apply(row, Bind(e), now), c) ==
      if EntryColumn(e) == c then EntryCell(e) else ColumnValue(row, c)
  {
    match c
    case IdColumn =>
    case TitleColumn =>
    case DescriptionColumn =>
    case ProjectIdColumn =>
    case PriorityColumn =>
    case StatusColumn =>
    case DueDateColumn =>
    case CreatedAtColumn =>
    case UpdatedAtColumn =>
    case CompletedAtColumn =>
    case ParentTaskIdColumn =>
  }

  /**
   * SQLite's reading of a SET list that names a column more than once: the
   * column ends up with the value of its rightmost assignment, and a column
   * the list does not name keeps its value.
   */
  lemma {:induction false} RightmostAssignmentWins(row: Task, fs: seq<Assignment>, now: string, c: TaskColumn)
    ensures ColumnValue(ApplyAll(row, fs, now), c) ==
      if LastAssignmentTo(fs, c).Some? then AssignedCell(LastAssignmentTo(fs, c).value, now)
      else ColumnValue(row, c)
  {
    if fs != [] {
      RightmostAssignmentWins(row, fs[..|fs| - 1], now, c);
      ApplyWritesOneColumn(ApplyAll(row, fs[..|fs| - 1], now), fs[|fs| - 1], now, c);
    }
  }

  lemma {:induction false} LastAssignmentAppend(xs: seq<Assignment>, ys: seq<Assignment>, c: TaskColumn)
    ensures LastAssignmentTo(xs + ys, c) ==
      if LastAssignmentTo(ys, c).Some? then LastAssignmentTo(ys, c) else LastAssignmentTo(xs, c)
  {
    if ys == [] {
      assert xs + ys == xs;
    } else {
      assert (xs + ys)[..|xs + ys| - 1] == xs + ys[..|ys| - 1];
      LastAssignmentAppend(xs, ys[..|ys| - 1], c);
    }
  }

  /**
   * The bound fragments name `id` and `created_at` never, and any other
   * column exactly when the patch has that property, bound to its value.
   */
  lemma {:induction false} BoundAssignmentsFollowPatch(p: TaskPatch, c: TaskColumn)
    ensures var l := LastAssignmentTo(BoundAssignments(p), c);
      var k := Lookup(p, ColumnKey(c));
      if c == IdColumn || c == CreatedAtColumn then l.None?
      else l.Some? == k.Some? && (l.Some? ==> l.value.Bind? && l.value.entry == k.value)
  {
    if p != [] {
      var q, e := p[..|p| - 1], p[|p| - 1];
      BoundAssignmentsFollowPatch(q, c);
      var tail: seq<Assignment> := if SkippedKey(KeyName(e)) then [] else [Bind(e)];
      assert BoundAssignments(p) == BoundAssignments(q) + tail;
      LastAssignmentAppend(BoundAssignments(q), tail, c);
      if KeyName(e) == ColumnKey(c) {
        ColumnKeyInjective(EntryColumn(e), c);
      }
    }
  }

  /** The row `updateTask` leaves behind, with CURRENT_TIMESTAMP evaluating to `now`. */
  function UpdatedRow(row: Task, p: TaskPatch, now: string): Task {
    ApplyAll(row, TaskSetList(p), now)
  }

  /** A column that only the patch writes. */
  predicate PatchableColumn(c: TaskColumn) {
    c != IdColumn && c != CreatedAtColumn && c != UpdatedAtColumn && c != CompletedAtColumn
  }

  lemma FixedTailColumns(p: TaskPatch, c: TaskColumn)
    ensures PatchableColumn(c) ==> LastAssignmentTo([UpdatedAtNow] + CompletionAssignments(p), c).None?
    ensures c == UpdatedAtColumn ==> LastAssignmentTo([UpdatedAtNow] + CompletionAssignments(p), c) == Some(UpdatedAtNow)
  {
  }

  /** Each column the patch may write takes the patch's value, or keeps the old one when the patch lacks it. */
  lemma UpdateWritesPatchedColumns(row: Task, p: TaskPatch, now: string, c: TaskColumn)
    requires PatchableColumn(c)
    ensures ColumnValue(UpdatedRow(row, p, now), c) ==
      if Lookup(p, ColumnKey(c)).Some? then EntryCell(Lookup(p, ColumnKey(c)).value) else ColumnValue(row, c)
  {
    var tail := [UpdatedAtNow] + CompletionAssignments(p);
    assert TaskSetList(p) == BoundAssignments(p) + tail;
    LastAssignmentAppend(BoundAssignments(p), tail, c);
    FixedTailColumns(p, c);
    BoundAssignmentsFollowPatch(p, c);
    RightmostAssignmentWins(row, TaskSetList(p), now, c);
  }

  /** `id` and `created_at` survive every update, and `updated_at` always becomes the statement's time. */
  lemma UpdateKeepsIdentityAndStampsTime(row: Task, p: TaskPatch, now: string)
    ensures UpdatedRow(row, p, now).id == row.id
    ensures UpdatedRow(row, p, now).createdAt == row.createdAt
    ensures UpdatedRow(row, p, now).updatedAt == now
  {
    IdentityColumn(row, p, now, IdColumn);
    IdentityColumn(row, p, now, CreatedAtColumn);
    UpdatedAtColumnStamped(row, p, now);
  }

  /** No fragment writes `id` or `created_at`, so they keep their value. */
  lemma IdentityColumn(row: Task, p: TaskPatch, now: string, c: TaskColumn)
    requires c == IdColumn || c == CreatedAtColumn
    ensures ColumnValue(UpdatedRow(row, p, now), c) == ColumnValue(row, c)
  {
    FixedColumnsLast(p, c);
    RightmostAssignmentWins(row, TaskSetList(p), now, c);
  }

  /** The fixed `updated_at = CURRENT_TIMESTAMP` comes after every bound fragment, so it wins. */
  lemma UpdatedAtColumnStamped(row: Task, p: TaskPatch, now: string)
    ensures ColumnValue(UpdatedRow(row, p, now), UpdatedAtColumn) == TextCell(now)
  {
    FixedColumnsLast(p, UpdatedAtColumn);
    RightmostAssignmentWins(row, TaskSetList(p), now, UpdatedAtColumn);
  }

  /** No fragment of the SET list writes `id` or `created_at`, and the last one to write `updated_at` is the fixed stamp. */
  lemma FixedColumnsLast(p: TaskPatch, c: TaskColumn)
    ensures c == IdColumn || c == CreatedAtColumn ==> LastAssignmentTo(TaskSetList(p), c).None?
    ensures c == UpdatedAtColumn ==> LastAssignmentTo(TaskSetList(p), c) == Some(UpdatedAtNow)
  {
    var tail := [UpdatedAtNow] + CompletionAssignments(p);
    assert TaskSetList(p) == BoundAssignments(p) + tail;
    LastAssignmentAppend(BoundAssignments(p), tail, c);
    if c == IdColumn || c == CreatedAtColumn {
      assert LastAssignmentTo(tail, c).None?;
      BoundAssignmentsFollowPatch(p, c);
    } else if c == UpdatedAtColumn {
      FixedTailColumns(p, c);
    }
  }


  /** The rightmost fragment of the SET list that writes `completed_at`. */
  lemma CompletedAtAssignment(p: TaskPatch)
    ensures PatchStatus(p) == Some(Completed) && !CompletedAtTruthy(p) ==>
      LastAssignmentTo(TaskSetList(p), CompletedAtColumn) == Some(CompletedAtNow)
    ensures PatchStatus(p) != Some(Completed) ==>
      LastAssignmentTo(TaskSetList(p), CompletedAtColumn) == Some(CompletedAtNull)
    ensures PatchStatus(p) == Some(Completed) && CompletedAtTruthy(p) ==>
      var l := LastAssignmentTo(TaskSetList(p), CompletedAtColumn);
      l.Some? && l.value == Bind(CompletedAtEntry(PatchCompletedAt(p).value))
  {
    CompletionTailWins(p);
    if PatchStatus(p) == Some(Completed) && CompletedAtTruthy(p) {
      BoundAssignmentsFollowPatch(p, CompletedAtColumn);
    }
  }

  /** The completion fragment, when there is one, is the last word on `completed_at`; otherwise the bound ones are. */
  lemma CompletionTailWins(p: TaskPatch)
    ensures CompletionAssignments(p) != [] ==>
      LastAssignmentTo(TaskSetList(p), CompletedAtColumn) == Some(CompletionAssignments(p)[0])
    ensures CompletionAssignments(p) == [] ==>
      LastAssignmentTo(TaskSetList(p), CompletedAtColumn) == LastAssignmentTo(BoundAssignments(p), CompletedAtColumn)
  {
    var c := CompletedAtColumn;
    var fixed := CompletionAssignments(p);
    var tail := [UpdatedAtNow] + fixed;
    assert TaskSetList(p) == BoundAssignments(p) + tail;
    LastAssignmentAppend(BoundAssignments(p), tail, c);
    if fixed == [] {
      assert tail == [UpdatedAtNow];
    } else {
      assert tail == [UpdatedAtNow, fixed[0]];
    }
  }

  /**
   * The completion rule of `updateTask`: a patch that sets status
   * 'completed' stamps `completed_at` with the statement's time unless it
   * brings a non-empty `completedAt` of its own, which is kept; a patch
   * whose status is anything else, or that has no status at all, clears it.
   */
  lemma UpdateCompletedAt(row: Task, p: TaskPatch, now: string)
    ensures PatchStatus(p) == Some(Completed) && !CompletedAtTruthy(p) ==>
      UpdatedRow(row, p, now).completedAt == Some(now)
    ensures PatchStatus(p) == Some(Completed) && CompletedAtTruthy(p) ==>
      UpdatedRow(row, p, now).completedAt == PatchCompletedAt(p).value
    ensures PatchStatus(p) != Some(Completed) ==> UpdatedRow(row, p, now).completedAt == None
  {
    CompletedAtFollowsLast(row, p, now);
    CompletedAtAssignment(p);
    var r := UpdatedRow(row, p, now);
    if PatchStatus(p) != Some(Completed) {
      assert TextCellOf(r.completedAt) == NullCell;
    } else if CompletedAtTruthy(p) {
      assert TextCellOf(r.completedAt) == TextCellOf(PatchCompletedAt(p).value);
    } else {
      assert TextCellOf(r.completedAt) == TextCell(now);
    }
  }

  /** The `completed_at` the update leaves is the value of the rightmost fragment that writes it. */
  lemma CompletedAtFollowsLast(row: Task, p: TaskPatch, now: string)
    ensures var l := LastAssignmentTo(TaskSetList(p), CompletedAtColumn);
      TextCellOf(UpdatedRow(row, p, now).completedAt) ==
        if l.Some? then AssignedCell(l.value, now) else TextCellOf(row.completedAt)
  {
    var r := UpdatedRow(row, p, now);
    RightmostAssignmentWins(row, TaskSetList(p), now, CompletedAtColumn);
    assert ColumnValue(r, CompletedAtColumn) == TextCellOf(r.completedAt);
  }

  /**
   * Consequence of the completion rule as written: an update whose patch does
   * not mention the status clears `completed_at` even though the row's status
   * stays 'completed'.
   */
  lemma PatchWithoutStatusClearsCompletion(row: Task, p: TaskPatch, now: string)
    requires row.status == Completed
    requires Lookup(p, StatusKey).None?
    ensures UpdatedRow(row, p, now).status == Completed
    ensures UpdatedRow(row, p, now).completedAt == None
  {
    UpdateCompletedAt(row, p, now);
    UpdateWritesPatchedColumns(row, p, now, StatusColumn);
    var r := UpdatedRow(row, p, now);
    assert TextCell(StatusText(r.status)) == TextCell(StatusText(Completed));
  }
}

/**
 * The SET list of `updateProject` (src/services/database.ts:221-237): one
 * `<key> = ?` per property other than `id` and `createdAt`, the key used
 * verbatim as the column name, and nothing else.
 */
module ProjectSetClause {
  import opened Wrappers
  import opened Types

  /** One own property of a `Partial<Project>` with its value. */
  datatype Entry =
    | IdEntry(id: int)
    | NameEntry(name: string)
    | ColorEntry(color: Option<string>)
    | CreatedAtEntry(createdAt: string)

  type Patch = seq<Entry>

  function KeyName(e: Entry): string {
    match e
    case IdEntry(_) => "id"
    case NameEntry(_) => "name"
    case ColorEntry(_) => "color"
    case CreatedAtEntry(_) => "createdAt"
  }

  predicate Skipped(e: Entry) {
    KeyName(e) == "id" || KeyName(e) == "createdAt"
  }

  /** An entry the loop turns into a `<key> = ?` fragment. */
  type SetEntry = e: Entry | !Skipped(e) witness NameEntry("")

  function FragmentText(e: SetEntry): string {
    KeyName(e) + " = ?"
  }

  /** The entries that become fragments, in entry order. */
  function BoundEntries(p: Patch): seq<SetEntry> {
    if p == [] then []
    else
      var e := p[|p| - 1];
      BoundEntries(p[..|p| - 1]) + (if Skipped(e) then [] else [e])
  }

  /** The loop of `updateProject` that fills `fields`. */
  method BuildProjectSetList(updates: Patch) returns (fields: seq<SetEntry>)
    ensures fields == BoundEntries(updates)
  {
    fields := [];
    var i := 0;
    while i < |updates|
      invariant 0 <= i <= |updates|
      invariant fields == BoundEntries(updates[..i])
    {
      var entry := updates[i];
      assert updates[..i + 1][..i] == updates[..i];
      if !Skipped(entry) {
        fields := fields + [entry];
      }
      i := i + 1;
    }
    assert updates[..|updates|] == updates;
  }

  /** The SET list is empty, and the statement malformed, exactly when every property is `id` or `createdAt`. */
  lemma {:induction false} EmptySetListIffOnlySkipped(p: Patch)
    ensures BoundEntries(p) == [] <==> forall i :: 0 <= i < |p| ==> Skipped(p[i])
  {
    if p != [] {
      EmptySetListIffOnlySkipped(p[..|p| - 1]);
      assert forall i :: 0 <= i < |p| - 1 ==> p[..|p| - 1][i] == p[i];
    }
  }

  /** `updates[key]`, the last entry with that key. */
  function Lookup(p: Patch, key: string): (r: Option<Entry>)
    ensures r.Some? ==> KeyName(r.value) == key
  {
    if p == [] then None
    else if KeyName(p[|p| - 1]) == key then Some(p[|p| - 1])
    else Lookup(p[..|p| - 1], key)
  }

  /** The entry found is one of the patch's, and nothing is found exactly when no entry has the key. */
  lemma {:induction false} LookupSpec(p: Patch, key: string)
    ensures Lookup(p, key).Some? ==> Lookup(p, key).value in p
    ensures Lookup(p, key).None? <==> forall i :: 0 <= i < |p| ==> KeyName(p[i]) != key
  {
    if p != [] {
      var q := p[..|p| - 1];
      LookupSpec(q, key);
      if KeyName(p[|p| - 1]) != key {
        if Lookup(q, key).Some? {
          var i :| 0 <= i < |q| && q[i] == Lookup(q, key).value;
          assert p[i] == q[i];
        }
        forall i | 0 <= i < |p| - 1 ensures p[i] == q[i] { }
      }
    }
  }

  function Apply(row: Project, e: SetEntry): Project {
    match e
    case NameEntry(v) => row.(name := v)
    case ColorEntry(v) => row.(color := v)
  }

  function ApplyAll(row: Project, fs: seq<SetEntry>): Project {
    if fs == [] then row else Apply(ApplyAll(row, fs[..|fs| - 1]), fs[|fs| - 1])
  }

  /** The row `updateProject` leaves behind. */
  function UpdatedProject(row: Project, p: Patch): Project {
    ApplyAll(row, BoundEntries(p))
  }

  lemma ApplyAllSnoc(row: Project, fs: seq<SetEntry>, e: SetEntry)
    ensures ApplyAll(row, fs + [e]) == Apply(ApplyAll(row, fs), e)
  {
    assert (fs + [e])[..|fs|] == fs;
  }

  /** `updateProject` keeps `id` and `created_at`. */
  lemma {:induction false} UpdateProjectKeepsIdentity(row: Project, fs: seq<SetEntry>)
    ensures ApplyAll(row, fs).id == row.id
    ensures ApplyAll(row, fs).createdAt == row.createdAt
  {
    if fs != [] {
      UpdateProjectKeepsIdentity(row, fs[..|fs| - 1]);
    }
  }

  /** `updateProject` writes `name` and `color` with the patch's values where it has them. */
  lemma {:induction false} UpdateProjectColumns(row: Project, p: Patch)
    ensures UpdatedProject(row, p).name ==
      if Lookup(p, "name").Some? then Lookup(p, "name").value.name else row.name
    ensures UpdatedProject(row, p).color ==
      if Lookup(p, "color").Some? then Lookup(p, "color").value.color else row.color
  {
    if p != [] {
      var q, e := p[..|p| - 1], p[|p| - 1];
      UpdateProjectColumns(row, q);
      if Skipped(e) {
        assert BoundEntries(p) == BoundEntries(q);
      } else {
        assert BoundEntries(p) == BoundEntries(q) + [e];
        ApplyAllSnoc(row, BoundEntries(q), e);
      }
    }
  }
}

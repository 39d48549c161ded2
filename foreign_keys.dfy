/**
 * The actions declared on the `tasks` table's foreign keys
 * (src/services/database.ts:53-54): deleting a task deletes the tasks whose
 * `parent_task_id` names it, and theirs in turn (ON DELETE CASCADE);
 * deleting a project sets `project_id` to NULL on its tasks
 * (ON DELETE SET NULL).
 */
module ForeignKeys {
  import opened Wrappers
  import opened Types

  /** A row whose parent is in `s`. */
  predicate ChildOf(r: Task, s: set<int>) {
    r.parentTaskId.Some? && r.parentTaskId.value in s
  }

  /** A set of ids that the cascade cannot extend: every row whose parent is in it is in it. */
  predicate CascadeClosed(rows: seq<Task>, s: set<int>) {
    forall i :: 0 <= i < |rows| && ChildOf(rows[i], s) ==> rows[i].id in s
  }

  /** One round of the cascade: `s` together with the ids of the rows whose parent is in `s`. */
  function Grow(rows: seq<Task>, s: set<int>): (g: set<int>)
    ensures s <= g
    ensures forall i :: 0 <= i < |rows| && ChildOf(rows[i], s) ==> rows[i].id in g
  {
    s + set r | r in rows && ChildOf(r, s) :: r.id
  }

  /** Rounds of the cascade until nothing more is reached, or the rounds run out. */
  function Closure(rows: seq<Task>, s: set<int>, rounds: nat): set<int>
    decreases rounds
  {
    if rounds == 0 || CascadeClosed(rows, s) then s else Closure(rows, Grow(rows, s), rounds - 1)
  }

  /** The ids a `DELETE FROM tasks WHERE id = root` removes once the cascade has run. */
  function Doomed(rows: seq<Task>, root: int): set<int> {
    Closure(rows, {root}, |rows|)
  }

  /** The number of rows whose id is not in `s`. */
  function Outside(rows: seq<Task>, s: set<int>): (n: nat)
    ensures n <= |rows|
  {
    if rows == [] then 0
    else Outside(rows[..|rows| - 1], s) + (if rows[|rows| - 1].id in s then 0 else 1)
  }

  lemma {:induction false} OutsideShrinks(rows: seq<Task>, s: set<int>, g: set<int>)
    requires s <= g
    ensures Outside(rows, g) <= Outside(rows, s)
  {
    if rows != [] {
      OutsideShrinks(rows[..|rows| - 1], s, g);
    }
  }

  lemma {:induction false} OutsideShrinksStrictly(rows: seq<Task>, s: set<int>, g: set<int>, i: int)
    requires s <= g
    requires 0 <= i < |rows| && rows[i].id in g && rows[i].id !in s
    ensures Outside(rows, g) < Outside(rows, s)
  {
    var front := rows[..|rows| - 1];
    if i == |rows| - 1 {
      OutsideShrinks(front, s, g);
    } else {
      assert front[i] == rows[i];
      OutsideShrinksStrictly(front, s, g, i);
    }
  }

  lemma {:induction false} NoneOutside(rows: seq<Task>, s: set<int>)
    requires Outside(rows, s) == 0
    ensures forall i :: 0 <= i < |rows| ==> rows[i].id in s
  {
    if rows != [] {
      NoneOutside(rows[..|rows| - 1], s);
      assert forall i :: 0 <= i < |rows| - 1 ==> rows[..|rows| - 1][i] == rows[i];
    }
  }

  lemma {:induction false} ClosureStops(rows: seq<Task>, s: set<int>, rounds: nat)
    ensures s <= Closure(rows, s, rounds)
    ensures CascadeClosed(rows, Closure(rows, s, rounds))
      || Outside(rows, Closure(rows, s, rounds)) + rounds <= Outside(rows, s)
    decreases rounds
  {
    if rounds > 0 && !CascadeClosed(rows, s) {
      var g := Grow(rows, s);
      var i :| 0 <= i < |rows| && ChildOf(rows[i], s) && rows[i].id !in s;
      OutsideShrinksStrictly(rows, s, g, i);
      ClosureStops(rows, g, rounds - 1);
    }
  }

  /** No row outside the deleted set still points at a deleted parent. */
  lemma DoomedIsClosed(rows: seq<Task>, root: int)
    ensures root in Doomed(rows, root)
    ensures CascadeClosed(rows, Doomed(rows, root))
  {
    var d := Doomed(rows, root);
    ClosureStops(rows, {root}, |rows|);
    if !CascadeClosed(rows, d) {
      NoneOutside(rows, d);
    }
  }

  lemma {:induction false} ClosureWithin(rows: seq<Task>, s: set<int>, rounds: nat, t: set<int>)
    requires s <= t
    requires CascadeClosed(rows, t)
    ensures Closure(rows, s, rounds) <= t
    decreases rounds
  {
    if rounds > 0 && !CascadeClosed(rows, s) {
      assert Grow(rows, s) <= t by {
        forall y | y in Grow(rows, s) ensures y in t {
          if y !in s {
            var r :| r in rows && ChildOf(r, s) && r.id == y;
            var i :| 0 <= i < |rows| && rows[i] == r;
            assert ChildOf(rows[i], t);
          }
        }
      }
      ClosureWithin(rows, Grow(rows, s), rounds - 1, t);
    }
  }

  /**
   * The cascade deletes nothing it need not: every set that holds the
   * deleted id and is closed under "child of" holds all of `Doomed`. With
   * `DoomedIsClosed`, `Doomed` is the least such set, that is, the id and
   * its descendants through `parent_task_id`.
   */
  lemma DoomedIsLeast(rows: seq<Task>, root: int, t: set<int>)
    requires root in t
    requires CascadeClosed(rows, t)
    ensures Doomed(rows, root) <= t
  {
    ClosureWithin(rows, {root}, |rows|, t);
  }

  /** ON DELETE SET NULL: the tasks of the deleted project lose their project and nothing else. */
  function ClearProject(tasks: seq<Task>, pid: int): (r: seq<Task>)
    ensures |r| == |tasks|
    ensures forall i :: 0 <= i < |tasks| ==> r[i].projectId != Some(pid)
    ensures forall i :: 0 <= i < |tasks| ==>
      r[i] == if tasks[i].projectId == Some(pid) then tasks[i].(projectId := None) else tasks[i]
  {
    seq(|tasks|, i requires 0 <= i < |tasks| =>
      if tasks[i].projectId == Some(pid) then tasks[i].(projectId := None) else tasks[i])
  }
}

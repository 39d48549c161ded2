/**
 * The key handler of `useKeyboardShortcuts`
 * (src/hooks/useKeyboardShortcuts.ts): the first shortcut in list order
 * whose key matches case-insensitively and whose three modifier flags equal
 * the event's runs, once, and the event's default action is prevented.
 */
module KeyboardShortcuts {
  import opened Wrappers
  import opened Text

  /** A shortcut; an absent modifier flag is None. The callback is whatever value stands for it. */
  datatype Shortcut<A> = Shortcut(
    key: string,
    ctrlKey: Option<bool>,
    altKey: Option<bool>,
    shiftKey: Option<bool>,
    callback: A,
    description: string)

  datatype KeyEvent = KeyEvent(key: string, ctrlKey: bool, altKey: bool, shiftKey: bool)

  /** `!!flag`: an absent flag reads as false. */
  predicate Flag(o: Option<bool>) {
    o == Some(true)
  }

  /** The `find` callback. */
  predicate Matches<A>(e: KeyEvent, s: Shortcut<A>) {
    && Lower(e.key) == Lower(s.key)
    && e.ctrlKey == Flag(s.ctrlKey)
    && e.altKey == Flag(s.altKey)
    && e.shiftKey == Flag(s.shiftKey)
  }

  /** `shortcuts.find(...)` from position `from` on: the position of the first match. */
  function FindMatch<A>(shortcuts: seq<Shortcut<A>>, e: KeyEvent, from: nat): (r: Option<nat>)
    requires from <= |shortcuts|
    ensures r.Some? ==>
      && from <= r.value < |shortcuts|
      && Matches(e, shortcuts[r.value])
      && forall j :: from <= j < r.value ==> !Matches(e, shortcuts[j])
    ensures r.None? <==> forall j :: from <= j < |shortcuts| ==> !Matches(e, shortcuts[j])
    decreases |shortcuts| - from
  {
    if from == |shortcuts| then None
    else if Matches(e, shortcuts[from]) then Some(from)
    else FindMatch(shortcuts, e, from + 1)
  }

  /** What one key press does: whether the default is prevented, and the callbacks that run, in order. */
  datatype Dispatch<A> = Dispatch(prevented: bool, ran: seq<A>)

  /** `handleKeyDown`. */
  function HandleKeyDown<A>(shortcuts: seq<Shortcut<A>>, e: KeyEvent): (d: Dispatch<A>)
    ensures d.prevented <==> exists j :: 0 <= j < |shortcuts| && Matches(e, shortcuts[j])
    ensures d.prevented ==> exists j :: (
      && 0 <= j < |shortcuts|
      && Matches(e, shortcuts[j])
      && (forall k :: 0 <= k < j ==> !Matches(e, shortcuts[k]))
      && d.ran == [shortcuts[j].callback])
    ensures !d.prevented ==> d.ran == []
  {
    var m := FindMatch(shortcuts, e, 0);
    if m.Some? then Dispatch(true, [shortcuts[m.value].callback]) else Dispatch(false, [])
  }

  /** A modifier held on top of a shortcut's own set defeats the match: the sets must be equal. */
  lemma ExtraModifierDefeatsMatch<A>(e: KeyEvent, s: Shortcut<A>)
    requires (e.ctrlKey && !Flag(s.ctrlKey)) || (e.altKey && !Flag(s.altKey)) || (e.shiftKey && !Flag(s.shiftKey))
    ensures !Matches(e, s)
  {
  }

  /** The actions of the application's shortcut table (src/App.tsx:53-97). */
  datatype AppAction = ShowAddTask | ShowAddProject | ToggleSidebar | ToggleTheme | ShowStatus(status: string)

  function AppShortcuts(): seq<Shortcut<AppAction>> {
    [ Shortcut("n", Some(true), None, None, ShowAddTask, "Create new task"),
      Shortcut("p", Some(true), None, Some(true), ShowAddProject, "Create new project"),
      Shortcut("b", Some(true), None, None, ToggleSidebar, "Toggle sidebar"),
      Shortcut("t", Some(true), None, None, ToggleTheme, "Toggle theme"),
      Shortcut("1", Some(true), None, None, ShowStatus("all"), "View all tasks"),
      Shortcut("2", Some(true), None, None, ShowStatus("pending"), "View pending tasks"),
      Shortcut("3", Some(true), None, None, ShowStatus("completed"), "View completed tasks") ]
  }

  /** In the application's table, Ctrl+N opens the new-task dialog. */
  lemma CtrlNOpensAddTask()
    ensures HandleKeyDown(AppShortcuts(), KeyEvent("n", true, false, false)) == Dispatch(true, [ShowAddTask])
  {
    assert Lower("n") == "n";
    assert Matches(KeyEvent("n", true, false, false), AppShortcuts()[0]);
  }

  /** Ctrl+Shift+N, reported with key 'N', runs nothing and is not prevented: no entry has exactly those modifiers. */
  lemma CtrlShiftNRunsNothing()
    ensures HandleKeyDown(AppShortcuts(), KeyEvent("N", true, false, true)) == Dispatch(false, [])
  {
    assert Lower("N") == "n";
  }

  /** Ctrl+Shift+P, reported with key 'P', opens the new-project dialog. */
  lemma CtrlShiftPOpensAddProject()
    ensures HandleKeyDown(AppShortcuts(), KeyEvent("P", true, false, true)) == Dispatch(true, [ShowAddProject])
  {
    assert Lower("P") == "p";
    assert !Matches(KeyEvent("P", true, false, true), AppShortcuts()[0]);
    assert Matches(KeyEvent("P", true, false, true), AppShortcuts()[1]);
  }
}

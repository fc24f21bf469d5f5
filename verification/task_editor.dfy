/** The inline editor of the action-plan table (components/NoteDisplay.tsx):
    the component keeps the record's plan together with `editingIdx` and
    `editBuffer`, and every write addresses the plan by original index. */
module TaskEditor {
  import opened Types
  import opened ActionPlan

  /** `editingIdx` and `editBuffer`: both null, or both set. */
  datatype Editor = Idle | Editing(index: nat, buffer: Task)

  /** The action plan on display and the state of its inline editor. */
  datatype Panel = Panel(plan: seq<Task>, editor: Editor)

  /** The editor, when open, points at a task of the plan. */
  predicate WellFormed(p: Panel) {
    p.editor.Editing? ==> p.editor.index < |p.plan|
  }

  /** `startEditing(originalIdx, task)`: the buffer starts as a copy of the task. */
  function StartEditing(p: Panel, i: nat): (r: Panel)
    requires i < |p.plan|
    ensures r.plan == p.plan && WellFormed(r)
    ensures r.editor.Editing? && r.editor.index == i && r.editor.buffer == p.plan[i]
  {
    Panel(p.plan, Editing(i, p.plan[i]))
  }

  /** `cancelEditing`: the plan is untouched. */
  function CancelEditing(p: Panel): (r: Panel)
    ensures r.plan == p.plan && r.editor.Idle? && WellFormed(r)
  {
    Panel(p.plan, Idle)
  }

  /** `saveTask`: with no edit open nothing happens; otherwise the buffer
      replaces the task at the edited index, every other task is kept, and
      the editor closes. */
  function SaveTask(p: Panel): (r: Panel)
    requires WellFormed(p)
    ensures p.editor.Idle? ==> r == p
    ensures p.editor.Editing? ==>
      && |r.plan| == |p.plan|
      && r.plan[p.editor.index] == p.editor.buffer
      && (forall j :: 0 <= j < |p.plan| && j != p.editor.index ==> r.plan[j] == p.plan[j])
      && r.editor.Idle?
  {
    match p.editor
    case Idle => p
    case Editing(i, buffer) => Panel(WriteTask(p.plan, i, buffer), Idle)
  }

  /** `toggleTaskCompletion(i)` while editing: task `i` flips as
      `ToggleCompletion` says, and the editor is left as it is. */
  function TogglePanel(p: Panel, i: nat): (r: Panel)
    requires i < |p.plan|
    ensures r.plan == ToggleCompletion(p.plan, i)
    ensures IsDone(r.plan[i]) <==> !IsDone(p.plan[i])
    ensures r.editor == p.editor && |r.plan| == |p.plan|
    ensures WellFormed(p) ==> WellFormed(r)
  {
    Panel(ToggleCompletion(p.plan, i), p.editor)
  }

  /** The position task `i` takes once the completed tasks are cleared: the
      number of active tasks in front of it. */
  function ActiveBefore(plan: seq<Task>, i: nat): nat
    requires i <= |plan|
  {
    |ClearCompleted(plan[..i])|
  }

  /** An active task is found, after clearing, at `ActiveBefore`. */
  lemma ClearedPosition(plan: seq<Task>, i: nat)
    requires i < |plan| && !IsDone(plan[i])
    ensures ActiveBefore(plan, i) < |ClearCompleted(plan)|
    ensures ClearCompleted(plan)[ActiveBefore(plan, i)] == plan[i]
  {
    assert plan == plan[..i] + ([plan[i]] + plan[i + 1..]);
    ClearCompletedConcat(plan[..i], [plan[i]] + plan[i + 1..]);
    ClearCompletedConcat([plan[i]], plan[i + 1..]);
    assert ClearCompleted([plan[i]]) == [plan[i]];
  }

  /** `clearCompletedTasks` as written: the plan is filtered, but
      `editingIdx` keeps its old value, which may now address another task. */
  function ClearCompletedTasksAsWritten(p: Panel): (r: Panel)
    ensures r.editor == p.editor
    ensures r.plan == ClearCompleted(p.plan)
    ensures forall t :: t in r.plan <==> t in p.plan && !IsDone(t)
  {
    Panel(ClearCompleted(p.plan), p.editor)
  }

  /** `clearCompletedTasks` with the editor moved along: an edit of an active
      task follows that task to its new position, and an edit of a task that
      is removed is closed. */
  function ClearCompletedTasks(p: Panel): (r: Panel)
    requires WellFormed(p)
    ensures r.plan == ClearCompleted(p.plan)
    ensures WellFormed(r)
    ensures p.editor.Idle? ==> r.editor.Idle?
    ensures p.editor.Editing? && IsDone(p.plan[p.editor.index]) ==> r.editor.Idle?
    ensures p.editor.Editing? && !IsDone(p.plan[p.editor.index]) ==>
      && r.editor.Editing?
      && r.editor.buffer == p.editor.buffer
      && r.plan[r.editor.index] == p.plan[p.editor.index]
  {
    match p.editor
    case Idle => Panel(ClearCompleted(p.plan), Idle)
    case Editing(i, buffer) =>
      if IsDone(p.plan[i]) then Panel(ClearCompleted(p.plan), Idle)
      else
        ClearedPosition(p.plan, i);
        Panel(ClearCompleted(p.plan), Editing(ActiveBefore(p.plan, i), buffer))
  }

  /** Clearing around an active task keeps that task between the cleared
      parts before and after it. */
  lemma ClearAroundActive(pre: seq<Task>, x: Task, post: seq<Task>)
    requires !IsDone(x)
    ensures ClearCompleted(pre + ([x] + post)) == ClearCompleted(pre) + ([x] + ClearCompleted(post))
  {
    assert ([x] + post)[1..] == post;
    ClearCompletedConcat(pre, [x] + post);
  }

  /** Replacing an active task by an active task commutes with clearing. */
  lemma ClearCompletedUpdate(plan: seq<Task>, i: nat, b: Task)
    requires i < |plan| && !IsDone(plan[i]) && !IsDone(b)
    ensures ActiveBefore(plan, i) < |ClearCompleted(plan)|
    ensures ClearCompleted(plan[i := b]) == ClearCompleted(plan)[ActiveBefore(plan, i) := b]
  {
    var pre, post := plan[..i], plan[i + 1..];
    ReplaceMiddle(pre, plan[i], post, b);
    assert plan == pre + ([plan[i]] + post);
    ClearAroundActive(pre, plan[i], post);
    ClearAroundActive(pre, b, post);
    ReplaceMiddle(ClearCompleted(pre), plan[i], ClearCompleted(post), b);
  }

  /** Replacing the element between two parts. */
  lemma ReplaceMiddle<T>(a: seq<T>, x: T, c: seq<T>, y: T)
    ensures (a + ([x] + c))[|a| := y] == a + ([y] + c)
  {
  }

  /** With the editor moved along, clearing and then saving gives the same
      plan as saving and then clearing: the edit lands on the task that was
      being edited. */
  lemma ClearThenSaveCommutes(p: Panel)
    requires WellFormed(p) && p.editor.Editing?
    requires !IsDone(p.plan[p.editor.index]) && !IsDone(p.editor.buffer)
    ensures SaveTask(ClearCompletedTasks(p)).plan == ClearCompleted(SaveTask(p).plan)
  {
    ClearCompletedUpdate(p.plan, p.editor.index, p.editor.buffer);
  }

  /** Editing the second of three tasks whose first is completed, then
      clearing completed tasks, then saving: as written, the stale index now
      addresses the third task, which the save overwrites and loses, while the
      unedited second task survives. With the editor moved along the save
      replaces the task that was being edited. */
  lemma StaleEditFinding(done0: Task, t1: Task, t2: Task, edited: Task)
    requires IsDone(done0) && !IsDone(t1) && !IsDone(t2) && !IsDone(edited)
    requires t2 != t1 && t2 != edited
    ensures var p := Panel([done0, t1, t2], Editing(1, edited));
      var asWritten := SaveTask(ClearCompletedTasksAsWritten(p)).plan;
      && asWritten == [t1, edited]
      && t2 !in asWritten
      && SaveTask(ClearCompletedTasks(p)).plan == [edited, t2]
      && ClearCompleted(SaveTask(p).plan) == [edited, t2]
  {
    StaleAsWritten(done0, t1, t2, edited);
    StaleCorrected(done0, t1, t2, edited);
    SaveThenClear(done0, t1, t2, edited);
  }

  /** Saving the edit in place, then clearing, keeps the edit and the third task. */
  lemma SaveThenClear(done0: Task, t1: Task, t2: Task, edited: Task)
    requires IsDone(done0) && !IsDone(edited) && !IsDone(t2)
    ensures ClearCompleted(SaveTask(Panel([done0, t1, t2], Editing(1, edited))).plan) == [edited, t2]
  {
    ClearFirstDone(done0, edited, t2);
    assert WriteTask([done0, t1, t2], 1, edited) == [done0, edited, t2];
  }

  /** As written: the stale index 1 now addresses the third task. */
  lemma StaleAsWritten(done0: Task, t1: Task, t2: Task, edited: Task)
    requires IsDone(done0) && !IsDone(t1) && !IsDone(t2)
    ensures var q := ClearCompletedTasksAsWritten(Panel([done0, t1, t2], Editing(1, edited)));
      q.plan == [t1, t2] && SaveTask(q).plan == [t1, edited]
  {
    ClearFirstDone(done0, t1, t2);
    assert WriteTask([t1, t2], 1, edited) == [t1, edited];
  }

  /** Corrected: the edit moves to index 0, where its task now is. */
  lemma StaleCorrected(done0: Task, t1: Task, t2: Task, edited: Task)
    requires IsDone(done0) && !IsDone(t1) && !IsDone(t2)
    ensures SaveTask(ClearCompletedTasks(Panel([done0, t1, t2], Editing(1, edited)))).plan == [edited, t2]
  {
    var plan := [done0, t1, t2];
    ClearFirstDone(done0, t1, t2);
    assert plan[..1] == [done0] && [done0][1..] == [];
    assert ActiveBefore(plan, 1) == 0;
    assert WriteTask([t1, t2], 0, edited) == [edited, t2];
  }

  /** Clearing a completed task in front of two active ones leaves those two. */
  lemma ClearFirstDone(done0: Task, a: Task, b: Task)
    requires IsDone(done0) && !IsDone(a) && !IsDone(b)
    ensures ClearCompleted([done0, a, b]) == [a, b]
  {
    var plan := [done0, a, b];
    assert plan[1..] == [a, b] && [a, b][1..] == [b] && [b][1..] == [];
  }
}

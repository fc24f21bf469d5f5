/** The transforms of one record's action plan in
    components/NoteDisplay.tsx: splitting it into active and completed
    tasks for display, toggling completion, clearing completed tasks, and
    the sorted view built from the two partitions. */
module ActionPlan {
  import opened Types
  import opened Text
  import opened TaskSort

  /** `actionPlan.map((task, originalIndex) => ({ ...task, originalIndex }))`. */
  function Tag(plan: seq<Task>): (r: seq<Indexed>)
    ensures |r| == |plan|
    ensures forall i :: 0 <= i < |r| ==> r[i] == Indexed(plan[i], i)
  {
    seq(|plan|, i requires 0 <= i < |plan| => Indexed(plan[i], i))
  }

  /** The tasks of a tagged sequence, without their indices. */
  function Tasks(s: seq<Indexed>): (r: seq<Task>)
    ensures |r| == |s|
    ensures forall i :: 0 <= i < |s| ==> r[i] == s[i].task
  {
    seq(|s|, i requires 0 <= i < |s| => s[i].task)
  }

  /** Dropping the positions again gives back the plan: tagging loses
      nothing. */
  lemma TagThenTasks(plan: seq<Task>)
    ensures Tasks(Tag(plan)) == plan
  {
  }

  /** `items.filter(t => !t.completed)` when `done` is false and
      `items.filter(t => t.completed)` when it is true. */
  function Where(s: seq<Indexed>, done: bool): (r: seq<Indexed>)
    ensures |r| <= |s|
    ensures forall x :: x in r <==> x in s && IsDone(x.task) == done
  {
    if |s| == 0 then []
    else if IsDone(s[0].task) == done then [s[0]] + Where(s[1..], done)
    else Where(s[1..], done)
  }

  /** Filtering keeps ascending original indices ascending. */
  lemma {:induction false} WhereKeepsOrder(s: seq<Indexed>, done: bool)
    requires IndexOrdered(s)
    ensures IndexOrdered(Where(s, done))
  {
    if |s| > 0 {
      var rest := Where(s[1..], done);
      IndexOrderedTail(s);
      WhereKeepsOrder(s[1..], done);
      if IsDone(s[0].task) == done {
        forall y | y in rest ensures s[0].originalIndex < y.originalIndex {
          var k :| 0 <= k < |s[1..]| && s[1..][k] == y;
          assert s[k + 1] == y;
        }
        IndexOrderedCons(s[0], rest);
      }
    }
  }

  lemma IndexOrderedTail(s: seq<Indexed>)
    requires IndexOrdered(s) && |s| > 0
    ensures IndexOrdered(s[1..])
  {
    forall i, j | 0 <= i < j < |s[1..]| ensures s[1..][i].originalIndex < s[1..][j].originalIndex {
      assert s[1..][i] == s[i + 1] && s[1..][j] == s[j + 1];
    }
  }

  lemma IndexOrderedCons(y: Indexed, t: seq<Indexed>)
    requires IndexOrdered(t)
    requires forall z :: z in t ==> y.originalIndex < z.originalIndex
    ensures IndexOrdered([y] + t)
  {
    var r := [y] + t;
    forall i, j | 0 <= i < j < |r| ensures r[i].originalIndex < r[j].originalIndex {
      if i == 0 {
        assert r[j] in t;
      } else {
        assert r[i] == t[i - 1] && r[j] == t[j - 1];
      }
    }
  }

  /** Every element lands in exactly one of the two filters. */
  lemma {:induction false} WhereSplits(s: seq<Indexed>)
    ensures |Where(s, false)| + |Where(s, true)| == |s|
  {
    if |s| > 0 {
      WhereSplits(s[1..]);
    }
  }

  /** The two tables the component renders. */
  datatype Partitioned = Partitioned(active: seq<Indexed>, completed: seq<Indexed>)

  /** The split at the top of `sortedActionPlan`: each task keeps its
      original index, appears in exactly one partition, and both partitions
      list their tasks in original order. */
  function Partition(plan: seq<Task>): (r: Partitioned)
    ensures forall k :: 0 <= k < |plan| ==> (Indexed(plan[k], k) in r.active <==> !IsDone(plan[k]))
    ensures forall k :: 0 <= k < |plan| ==> (Indexed(plan[k], k) in r.completed <==> IsDone(plan[k]))
    ensures forall x :: x in r.active ==>
              x.originalIndex < |plan| && x.task == plan[x.originalIndex] && !IsDone(x.task)
    ensures forall x :: x in r.completed ==>
              x.originalIndex < |plan| && x.task == plan[x.originalIndex] && IsDone(x.task)
    ensures IndexOrdered(r.active) && IndexOrdered(r.completed)
    ensures |r.active| + |r.completed| == |plan|
  {
    var tagged := Tag(plan);
    assert forall k :: 0 <= k < |plan| ==> Indexed(plan[k], k) in tagged by {
      forall k | 0 <= k < |plan| ensures Indexed(plan[k], k) in tagged {
        assert tagged[k] == Indexed(plan[k], k);
      }
    }
    WhereSplits(tagged);
    WhereKeepsOrder(tagged, false);
    WhereKeepsOrder(tagged, true);
    Partitioned(Where(tagged, false), Where(tagged, true))
  }

  /** `sortedActionPlan`: each partition sorted by the current column and
      direction. */
  function SortedActionPlan(plan: seq<Task>, st: SortState): (r: Partitioned)
    ensures multiset(r.active) == multiset(Partition(plan).active)
    ensures multiset(r.completed) == multiset(Partition(plan).completed)
    ensures |r.active| + |r.completed| == |plan|
  {
    var p := Partition(plan);
    Partitioned(SortBy(st, p.active), SortBy(st, p.completed))
  }

  /** The sorted view is a rearrangement of the partitions: each sorted
      table holds exactly its partition's tasks, in comparator order, with
      equal tasks in original order whichever the direction. */
  lemma SortedActionPlanCorrect(plan: seq<Task>, st: SortState)
    ensures var p, v := Partition(plan), SortedActionPlan(plan, st);
      && multiset(v.active) == multiset(p.active) && SortedBy(st, v.active) && StableBy(st, v.active)
      && multiset(v.completed) == multiset(p.completed) && SortedBy(st, v.completed)
      && StableBy(st, v.completed)
      && |v.active| + |v.completed| == |plan|
      && forall k :: 0 <= k < |plan| ==>
           (Indexed(plan[k], k) in v.active <==> !IsDone(plan[k]))
           && (Indexed(plan[k], k) in v.completed <==> IsDone(plan[k]))
  {
    var p := Partition(plan);
    SortCorrect(st, p.active);
    SortCorrect(st, p.completed);
    var v := SortedActionPlan(plan, st);
    forall k | 0 <= k < |plan|
      ensures Indexed(plan[k], k) in v.active <==> !IsDone(plan[k])
      ensures Indexed(plan[k], k) in v.completed <==> IsDone(plan[k])
    {
      assert Indexed(plan[k], k) in v.active <==> Indexed(plan[k], k) in multiset(p.active);
      assert Indexed(plan[k], k) in v.completed <==> Indexed(plan[k], k) in multiset(p.completed);
    }
  }

  /** A worked example: Low, High, Medium, High sorted by
      priority, highest first, gives both High tasks in their original order,
      then Medium, then Low. */
  lemma PriorityExample(low: Task, high1: Task, medium: Task, high2: Task)
    requires low == Task("a", None, "Low", None)
    requires high1 == Task("b", None, "High", None)
    requires medium == Task("c", None, "Medium", None)
    requires high2 == Task("d", None, "High", None)
    ensures SortedActionPlan([low, high1, medium, high2], InitialSort).active
            == [Indexed(high1, 1), Indexed(high2, 3), Indexed(medium, 2), Indexed(low, 0)]
  {
    var plan := [low, high1, medium, high2];
    var a, b, c, d := Indexed(low, 0), Indexed(high1, 1), Indexed(medium, 2), Indexed(high2, 3);
    assert Tag(plan) == [a, b, c, d];
    ExampleAllActive(a, b, c, d);
    ExampleSorted(a, b, c, d);
  }

  lemma ExampleAllActive(a: Indexed, b: Indexed, c: Indexed, d: Indexed)
    requires !IsDone(a.task) && !IsDone(b.task) && !IsDone(c.task) && !IsDone(d.task)
    ensures Where([a, b, c, d], false) == [a, b, c, d]
  {
    assert [c, d][1..] == [d];
    assert Where([d], false) == [d];
    assert Where([c, d], false) == [c, d];
    assert [b, c, d][1..] == [c, d];
    assert Where([b, c, d], false) == [b, c, d];
    assert [a, b, c, d][1..] == [b, c, d];
  }

  lemma ExampleSorted(a: Indexed, b: Indexed, c: Indexed, d: Indexed)
    requires a.task.priority == "Low" && b.task.priority == "High"
    requires c.task.priority == "Medium" && d.task.priority == "High"
    ensures SortBy(InitialSort, [a, b, c, d]) == [b, d, c, a]
  {
    ExampleSortedTail(a, b, c, d);
    ExampleInsertLow(a, b, c, d);
    assert [a, b, c, d][1..] == [b, c, d];
  }

  lemma ExampleSortedTail(a: Indexed, b: Indexed, c: Indexed, d: Indexed)
    requires a.task.priority == "Low" && b.task.priority == "High"
    requires c.task.priority == "Medium" && d.task.priority == "High"
    ensures SortBy(InitialSort, [b, c, d]) == [b, d, c]
  {
    ExampleComparisons(a, b, c, d);
    assert [c, d][1..] == [d];
    assert SortBy(InitialSort, [d]) == [d];
    assert Insert(InitialSort, c, [d]) == [d, c];
    assert SortBy(InitialSort, [c, d]) == [d, c];
    assert [b, c, d][1..] == [c, d];
  }

  lemma ExampleInsertLow(a: Indexed, b: Indexed, c: Indexed, d: Indexed)
    requires a.task.priority == "Low" && b.task.priority == "High"
    requires c.task.priority == "Medium" && d.task.priority == "High"
    ensures Insert(InitialSort, a, [b, d, c]) == [b, d, c, a]
  {
    ExampleComparisons(a, b, c, d);
    assert [b, d, c][1..] == [d, c];
    assert [d, c][1..] == [c];
    assert Insert(InitialSort, a, [c]) == [c, a];
    assert Insert(InitialSort, a, [d, c]) == [d, c, a];
  }

  lemma ExampleComparisons(a: Indexed, b: Indexed, c: Indexed, d: Indexed)
    requires a.task.priority == "Low" && b.task.priority == "High"
    requires c.task.priority == "Medium" && d.task.priority == "High"
    ensures SortFn(InitialSort, c, d) > 0 && SortFn(InitialSort, b, d) == 0
    ensures SortFn(InitialSort, a, b) > 0 && SortFn(InitialSort, a, c) > 0 && SortFn(InitialSort, a, d) > 0
  {
    assert Rank("Low") < Rank("Medium") < Rank("High");
    KeyCmpAntisymmetric(ByPriority, c.task, d.task);
    KeyCmpAntisymmetric(ByPriority, a.task, b.task);
    KeyCmpAntisymmetric(ByPriority, a.task, c.task);
    KeyCmpAntisymmetric(ByPriority, a.task, d.task);
  }

  // ---------------------------------------------------------------------
  // Edits addressed by original index
  // ---------------------------------------------------------------------

  /** `toggleTaskCompletion(i)`: only task `i` changes, and of it only the
      completion flag, which flips (an absent flag becomes true). */
  function ToggleCompletion(plan: seq<Task>, i: nat): (r: seq<Task>)
    requires i < |plan|
    ensures |r| == |plan|
    ensures forall j :: 0 <= j < |plan| && j != i ==> r[j] == plan[j]
    ensures r[i].task == plan[i].task && r[i].assignee == plan[i].assignee
    ensures r[i].priority == plan[i].priority && r[i].completed.Some?
    ensures IsDone(r[i]) <==> !IsDone(plan[i])
  {
    plan[i := plan[i].(completed := Some(!IsDone(plan[i])))]
  }

  /** Toggling moves the task to the other partition and leaves every other
      task where it was; toggling twice restores the completion status. */
  lemma ToggleSwitchesPartition(plan: seq<Task>, i: nat)
    requires i < |plan|
    ensures var after := ToggleCompletion(plan, i);
      && (Indexed(after[i], i) in Partition(after).active <==> Indexed(plan[i], i) in Partition(plan).completed)
      && (forall k :: 0 <= k < |plan| && k != i ==>
            (Indexed(after[k], k) in Partition(after).active <==> Indexed(plan[k], k) in Partition(plan).active))
      && IsDone(ToggleCompletion(after, i)[i]) == IsDone(plan[i])
  {
  }

  /** `saveTask` once its guard has passed: the edit buffer replaces task
      `i`, and nothing else changes. */
  function WriteTask(plan: seq<Task>, i: nat, buffer: Task): (r: seq<Task>)
    requires i < |plan|
    ensures |r| == |plan|
    ensures r[i] == buffer
    ensures forall j :: 0 <= j < |plan| && j != i ==> r[j] == plan[j]
  {
    plan[i := buffer]
  }

  /** `clearCompletedTasks` once confirmed: `actionPlan.filter(t => !t.completed)`. */
  function ClearCompleted(plan: seq<Task>): (r: seq<Task>)
    ensures |r| <= |plan|
    ensures forall t :: t in r <==> t in plan && !IsDone(t)
  {
    if |plan| == 0 then []
    else if IsDone(plan[0]) then ClearCompleted(plan[1..])
    else [plan[0]] + ClearCompleted(plan[1..])
  }

  /** Clearing distributes over concatenation, so the kept tasks stay in
      their original relative order. */
  lemma {:induction false} ClearCompletedConcat(a: seq<Task>, b: seq<Task>)
    ensures ClearCompleted(a + b) == ClearCompleted(a) + ClearCompleted(b)
  {
    if |a| > 0 {
      var ab := a + b;
      assert ab[0] == a[0] && ab[1..] == a[1..] + b;
      ClearCompletedConcat(a[1..], b);
      if !IsDone(a[0]) {
        assert ClearCompleted(ab) == [a[0]] + ClearCompleted(a[1..] + b);
      }
    } else {
      assert a + b == b;
    }
  }

  /** Clearing leaves exactly the active partition's tasks, in original order. */
  lemma ClearCompletedIsActivePartition(plan: seq<Task>)
    ensures ClearCompleted(plan) == Tasks(Partition(plan).active)
  {
    var t := Tag(plan);
    assert Tasks(t) == plan;
    WhereAgreesWithClear(t);
  }

  lemma {:induction false} WhereAgreesWithClear(s: seq<Indexed>)
    ensures Tasks(Where(s, false)) == ClearCompleted(Tasks(s))
  {
    if |s| > 0 {
      WhereAgreesWithClear(s[1..]);
      TasksHead(s);
      var rest := ClearCompleted(Tasks(s[1..]));
      if IsDone(s[0].task) {
        assert ClearCompleted(Tasks(s)) == rest;
      } else {
        assert ClearCompleted(Tasks(s)) == [s[0].task] + rest;
        assert Where(s, false) == [s[0]] + Where(s[1..], false);
        TasksCons(s[0], Where(s[1..], false));
      }
    }
  }

  lemma TasksHead(s: seq<Indexed>)
    requires |s| > 0
    ensures |Tasks(s)| > 0 && Tasks(s)[0] == s[0].task && Tasks(s)[1..] == Tasks(s[1..])
  {
  }

  lemma TasksCons(x: Indexed, s: seq<Indexed>)
    ensures Tasks([x] + s) == [x.task] + Tasks(s)
  {
    TasksConcat([x], s);
  }

  /** Dropping the positions distributes over concatenation. */
  lemma TasksConcat(a: seq<Indexed>, b: seq<Indexed>)
    ensures Tasks(a + b) == Tasks(a) + Tasks(b)
  {
  }

  /** Clearing twice is clearing once. */
  lemma {:induction false} ClearCompletedIdempotent(plan: seq<Task>)
    ensures ClearCompleted(ClearCompleted(plan)) == ClearCompleted(plan)
  {
    if |plan| > 0 {
      ClearCompletedIdempotent(plan[1..]);
      if !IsDone(plan[0]) {
        assert ([plan[0]] + ClearCompleted(plan[1..]))[1..] == ClearCompleted(plan[1..]);
      }
    }
  }
}

/** The ordering of the action-plan table (components/NoteDisplay.tsx):
    the priority ranks, the `sortFn` comparator for each sort key and
    direction, the stable sort applied to each partition, and the two-state
    sort toggle. */
module TaskSort {
  import opened Types
  import opened Text

  datatype SortKey = ByTask | ByAssignee | ByPriority
  datatype Direction = Asc | Desc

  /** The column the table is sorted by and in which direction. */
  datatype SortState = SortState(key: SortKey, dir: Direction)

  /** The table opens sorted by priority, highest first. */
  const InitialSort := SortState(ByPriority, Desc)

  /** A task together with its position in the record's action plan, so that
      edits made in a sorted view still address the right task. */
  datatype Indexed = Indexed(task: Task, originalIndex: nat)

  // ---------------------------------------------------------------------
  // Sort toggle
  // ---------------------------------------------------------------------

  function Flip(d: Direction): Direction {
    if d == Asc then Desc else Asc
  }

  /** `toggleSort`: clicking the current column flips the direction, clicking
      another column sorts by it ascending. */
  function ToggleSort(st: SortState, key: SortKey): (r: SortState)
    ensures r.key == key
    ensures st.key == key ==> r.dir != st.dir
    ensures st.key != key ==> r.dir == Asc
  {
    if st.key == key then SortState(key, Flip(st.dir)) else SortState(key, Asc)
  }

  /** Clicking the same column twice returns to the state before; from the
      initial state a first click on priority sorts ascending. */
  lemma ToggleSortTwice(st: SortState, key: SortKey)
    ensures st.key == key ==> ToggleSort(ToggleSort(st, key), key) == st
    ensures st.key != key ==> ToggleSort(ToggleSort(st, key), key) == SortState(key, Desc)
    ensures ToggleSort(InitialSort, ByPriority) == SortState(ByPriority, Asc)
  {
  }

  // ---------------------------------------------------------------------
  // The comparator
  // ---------------------------------------------------------------------

  /** `PRIORITY_ORDER[p] ?? 0`, where only the three own keys of the table
      count (see `PriorityFinding` for what the lookup does with inherited
      property names). Labels are matched case-sensitively. */
  function Rank(priority: string): (r: nat)
    ensures r <= 3
    ensures r == 3 <==> priority == "High"
    ensures r == 2 <==> priority == "Medium"
    ensures r == 1 <==> priority == "Low"
  {
    if priority == "High" then 3
    else if priority == "Medium" then 2
    else if priority == "Low" then 1
    else 0
  }

  /** The ascending comparison of `sortFn` before the direction is applied. */
  function KeyCmp(key: SortKey, a: Task, b: Task): (r: int)
    ensures key == ByPriority ==> (r == 0 <==> a.priority == b.priority)
    ensures key == ByPriority && Rank(a.priority) < Rank(b.priority) ==> r < 0
    ensures key == ByTask ==> (r == 0 <==> Lower(a.task) == Lower(b.task))
    ensures key == ByAssignee ==> (r == 0 <==> Lower(AssigneeText(a)) == Lower(AssigneeText(b)))
  {
    StrCmpZeroIffEqual(a.priority, b.priority);
    StrCmpZeroIffEqual(Lower(a.task), Lower(b.task));
    StrCmpZeroIffEqual(Lower(AssigneeText(a)), Lower(AssigneeText(b)));
    match key
    case ByPriority =>
      var d := Rank(a.priority) - Rank(b.priority);
      if d == 0 then StrCmp(a.priority, b.priority) else d
    case ByTask => StrCmp(Lower(a.task), Lower(b.task))
    case ByAssignee => StrCmp(Lower(AssigneeText(a)), Lower(AssigneeText(b)))
  }

  /** `sortFn`: descending only negates the ascending comparison, so it
      compares the two tasks the other way round, and the direction never
      changes which tasks count as equal. */
  function SortFn(st: SortState, a: Indexed, b: Indexed): (r: int)
    ensures r == 0 <==> KeyCmp(st.key, a.task, b.task) == 0
    ensures st.dir == Asc ==> r == KeyCmp(st.key, a.task, b.task)
    ensures st.dir == Desc ==> r == KeyCmp(st.key, b.task, a.task)
  {
    KeyCmpAntisymmetric(st.key, a.task, b.task);
    var c := KeyCmp(st.key, a.task, b.task);
    if st.dir == Asc then c else -c
  }

  /** By priority, a higher rank sorts later in ascending order; within a
      rank the raw labels decide, and only identical labels compare equal. */
  lemma PriorityComparison(a: Task, b: Task)
    ensures KeyCmp(ByPriority, a, b) < 0 <==>
              Rank(a.priority) < Rank(b.priority)
              || (Rank(a.priority) == Rank(b.priority) && StrCmp(a.priority, b.priority) < 0)
    ensures KeyCmp(ByPriority, a, b) == 0 <==> a.priority == b.priority
    ensures a.priority == "High" && b.priority == "Medium" ==> KeyCmp(ByPriority, a, b) > 0
    ensures a.priority == "Medium" && b.priority == "Low" ==> KeyCmp(ByPriority, a, b) > 0
    ensures a.priority == "Low" && Rank(b.priority) == 0 ==> KeyCmp(ByPriority, a, b) > 0
  {
    StrCmpZeroIffEqual(a.priority, b.priority);
  }

  /** By task text or assignee, the lower-cased texts are compared in
      ascending order (a text sorting first gives a negative result), with an
      absent assignee read as the empty string. */
  lemma TextComparison(a: Task, b: Task)
    ensures KeyCmp(ByTask, a, b) == 0 <==> Lower(a.task) == Lower(b.task)
    ensures KeyCmp(ByAssignee, a, b) == 0 <==> Lower(AssigneeText(a)) == Lower(AssigneeText(b))
    ensures KeyCmp(ByTask, a, b) < 0 <==> StrCmp(Lower(a.task), Lower(b.task)) < 0
    ensures KeyCmp(ByAssignee, a, b) < 0 <==> StrCmp(Lower(AssigneeText(a)), Lower(AssigneeText(b))) < 0
    ensures a.assignee.None? && b.assignee == Some("") ==> KeyCmp(ByAssignee, a, b) == 0
  {
    StrCmpZeroIffEqual(Lower(a.task), Lower(b.task));
    StrCmpZeroIffEqual(Lower(AssigneeText(a)), Lower(AssigneeText(b)));
  }

  lemma KeyCmpAntisymmetric(key: SortKey, a: Task, b: Task)
    ensures KeyCmp(key, a, b) == -KeyCmp(key, b, a)
  {
    match key
    case ByPriority => StrCmpAntisymmetric(a.priority, b.priority);
    case ByTask => StrCmpAntisymmetric(Lower(a.task), Lower(b.task));
    case ByAssignee => StrCmpAntisymmetric(Lower(AssigneeText(a)), Lower(AssigneeText(b)));
  }

  lemma KeyCmpTransitive(key: SortKey, a: Task, b: Task, c: Task)
    requires KeyCmp(key, a, b) <= 0 && KeyCmp(key, b, c) <= 0
    ensures KeyCmp(key, a, c) <= 0
  {
    match key
    case ByPriority =>
      if Rank(a.priority) == Rank(b.priority) == Rank(c.priority) {
        StrCmpTransitive(a.priority, b.priority, c.priority);
      }
    case ByTask => StrCmpTransitive(Lower(a.task), Lower(b.task), Lower(c.task));
    case ByAssignee =>
      StrCmpTransitive(Lower(AssigneeText(a)), Lower(AssigneeText(b)), Lower(AssigneeText(c)));
  }

  /** Swapping the arguments negates `sortFn` in either direction. */
  lemma SortFnAntisymmetric(st: SortState, a: Indexed, b: Indexed)
    ensures SortFn(st, a, b) == -SortFn(st, b, a)
  {
    KeyCmpAntisymmetric(st.key, a.task, b.task);
  }

  /** "Sorts no later than" under `sortFn` is transitive in either direction. */
  lemma SortFnTransitive(st: SortState, a: Indexed, b: Indexed, c: Indexed)
    requires SortFn(st, a, b) <= 0 && SortFn(st, b, c) <= 0
    ensures SortFn(st, a, c) <= 0
  {
    if st.dir == Asc {
      KeyCmpTransitive(st.key, a.task, b.task, c.task);
    } else {
      KeyCmpAntisymmetric(st.key, a.task, b.task);
      KeyCmpAntisymmetric(st.key, b.task, c.task);
      KeyCmpAntisymmetric(st.key, a.task, c.task);
      KeyCmpTransitive(st.key, c.task, b.task, a.task);
    }
  }

  // ---------------------------------------------------------------------
  // The stable sort
  // ---------------------------------------------------------------------

  /** Every pair appears in comparator order. */
  predicate SortedBy(st: SortState, s: seq<Indexed>) {
    forall i, j :: 0 <= i < j < |s| ==> SortFn(st, s[i], s[j]) <= 0
  }

  /** Tasks the comparator calls equal keep ascending original-index order. */
  predicate StableBy(st: SortState, s: seq<Indexed>) {
    forall i, j :: 0 <= i < j < |s| && SortFn(st, s[i], s[j]) == 0 ==>
      s[i].originalIndex < s[j].originalIndex
  }

  /** Strictly ascending original indices, as the partitions are built. */
  predicate IndexOrdered(s: seq<Indexed>) {
    forall i, j :: 0 <= i < j < |s| ==> s[i].originalIndex < s[j].originalIndex
  }

  /** Put `x` in front of the first element it does not sort after. */
  function Insert(st: SortState, x: Indexed, s: seq<Indexed>): (r: seq<Indexed>)
    ensures |r| == |s| + 1
    ensures multiset(r) == multiset(s) + multiset{x}
  {
    if |s| == 0 then [x]
    else if SortFn(st, x, s[0]) <= 0 then [x] + s
    else
      assert s == [s[0]] + s[1..];
      [s[0]] + Insert(st, x, s[1..])
  }

  /** `items.sort(sortFn)`: an insertion sort from the back, so that of two
      equal tasks the earlier one ends up first. */
  function SortBy(st: SortState, s: seq<Indexed>): (r: seq<Indexed>)
    ensures |r| == |s|
    ensures multiset(r) == multiset(s)
  {
    if |s| == 0 then []
    else
      assert s == [s[0]] + s[1..];
      Insert(st, s[0], SortBy(st, s[1..]))
  }

  lemma {:induction false} InsertSorted(st: SortState, x: Indexed, s: seq<Indexed>)
    requires SortedBy(st, s)
    ensures SortedBy(st, Insert(st, x, s))
  {
    if |s| == 0 {
    } else if SortFn(st, x, s[0]) <= 0 {
      forall z | z in s ensures SortFn(st, x, z) <= 0 {
        var k :| 0 <= k < |s| && s[k] == z;
        if k > 0 {
          SortFnTransitive(st, x, s[0], z);
        }
      }
      SortedCons(st, x, s);
    } else {
      var rest := Insert(st, x, s[1..]);
      SortedTail(st, s);
      InsertSorted(st, x, s[1..]);
      SortFnAntisymmetric(st, x, s[0]);
      forall z | z in rest ensures SortFn(st, s[0], z) <= 0 {
        assert z in multiset(rest);
        if z != x {
          assert z in multiset(s[1..]);
          var k :| 0 <= k < |s[1..]| && s[1..][k] == z;
          assert s[k + 1] == z;
        }
      }
      SortedCons(st, s[0], rest);
    }
  }

  /** Prepending keeps the order when the new head sorts before every
      element behind it. */
  lemma SortedCons(st: SortState, y: Indexed, t: seq<Indexed>)
    requires SortedBy(st, t)
    requires forall z :: z in t ==> SortFn(st, y, z) <= 0
    ensures SortedBy(st, [y] + t)
  {
    var r := [y] + t;
    forall i, j | 0 <= i < j < |r| ensures SortFn(st, r[i], r[j]) <= 0 {
      if i == 0 {
        assert r[j] in t;
      } else {
        assert r[i] == t[i - 1] && r[j] == t[j - 1];
      }
    }
  }

  lemma SortedTail(st: SortState, s: seq<Indexed>)
    requires SortedBy(st, s) && |s| > 0
    ensures SortedBy(st, s[1..])
  {
    forall i, j | 0 <= i < j < |s[1..]| ensures SortFn(st, s[1..][i], s[1..][j]) <= 0 {
      assert s[1..][i] == s[i + 1] && s[1..][j] == s[j + 1];
    }
  }

  /** Prepending keeps stability when the new head is ordered before every
      later element it compares equal to. */
  lemma StableCons(st: SortState, y: Indexed, t: seq<Indexed>)
    requires StableBy(st, t)
    requires forall z :: z in t && SortFn(st, y, z) == 0 ==> y.originalIndex < z.originalIndex
    ensures StableBy(st, [y] + t)
  {
    var r := [y] + t;
    forall i, j | 0 <= i < j < |r| && SortFn(st, r[i], r[j]) == 0
      ensures r[i].originalIndex < r[j].originalIndex
    {
      if i == 0 {
        assert r[j] in t;
      } else {
        assert r[i] == t[i - 1] && r[j] == t[j - 1];
      }
    }
  }

  lemma {:induction false} InsertStable(st: SortState, x: Indexed, s: seq<Indexed>)
    requires StableBy(st, s)
    requires forall y :: y in s ==> x.originalIndex < y.originalIndex
    ensures StableBy(st, Insert(st, x, s))
  {
    if |s| == 0 {
    } else if SortFn(st, x, s[0]) <= 0 {
      StableCons(st, x, s);
    } else {
      var rest := Insert(st, x, s[1..]);
      StableTail(st, s);
      InsertStable(st, x, s[1..]);
      SortFnAntisymmetric(st, x, s[0]);
      HeadBeforeEqualsInRest(st, x, s);
      StableCons(st, s[0], rest);
    }
  }

  lemma StableTail(st: SortState, s: seq<Indexed>)
    requires |s| > 0 && StableBy(st, s)
    ensures StableBy(st, s[1..])
  {
    forall i, j | 0 <= i < j < |s[1..]| && SortFn(st, s[1..][i], s[1..][j]) == 0
      ensures s[1..][i].originalIndex < s[1..][j].originalIndex
    {
      assert s[1..][i] == s[i + 1] && s[1..][j] == s[j + 1];
    }
  }

  /** When `x` is inserted past the head, the head still comes before every
      element of the result that it ties with. */
  lemma HeadBeforeEqualsInRest(st: SortState, x: Indexed, s: seq<Indexed>)
    requires |s| > 0 && StableBy(st, s) && SortFn(st, x, s[0]) > 0
    ensures forall z :: z in Insert(st, x, s[1..]) && SortFn(st, s[0], z) == 0 ==> s[0].originalIndex < z.originalIndex
  {
    var rest := Insert(st, x, s[1..]);
    SortFnAntisymmetric(st, x, s[0]);
    forall z | z in rest && SortFn(st, s[0], z) == 0
      ensures s[0].originalIndex < z.originalIndex
    {
      assert z in multiset(rest);
      assert z != x;
      assert z in multiset(s[1..]);
      var k :| 0 <= k < |s[1..]| && s[1..][k] == z;
      assert s[k + 1] == z;
    }
  }

  /** The sorted sequence is in comparator order. */
  lemma {:induction false} SortSorts(st: SortState, s: seq<Indexed>)
    ensures SortedBy(st, SortBy(st, s))
  {
    if |s| > 0 {
      SortSorts(st, s[1..]);
      InsertSorted(st, s[0], SortBy(st, s[1..]));
    }
  }

  /** Equal tasks keep their original order, in both directions. */
  lemma {:induction false} SortIsStable(st: SortState, s: seq<Indexed>)
    requires IndexOrdered(s)
    ensures StableBy(st, SortBy(st, s))
  {
    if |s| > 0 {
      var tail := SortBy(st, s[1..]);
      SortIsStable(st, s[1..]);
      SortSorts(st, s[1..]);
      forall y | y in tail ensures s[0].originalIndex < y.originalIndex {
        assert y in multiset(s[1..]);
        var k :| 0 <= k < |s[1..]| && s[1..][k] == y;
        assert s[k + 1] == y;
      }
      InsertStable(st, s[0], tail);
    }
  }

  /** Everything the sort promises, in one statement. */
  lemma SortCorrect(st: SortState, s: seq<Indexed>)
    requires IndexOrdered(s)
    ensures multiset(SortBy(st, s)) == multiset(s)
    ensures |SortBy(st, s)| == |s|
    ensures SortedBy(st, SortBy(st, s))
    ensures StableBy(st, SortBy(st, s))
  {
    assert |multiset(SortBy(st, s))| == |multiset(s)|;
    SortSorts(st, s);
    SortIsStable(st, s);
  }

  /** Sorted by priority, highest first: every High task precedes every
      Medium task, which precedes every Low task, which precedes every task
      with another label. */
  lemma PriorityDescendingGroups(s: seq<Indexed>)
    ensures var r := SortBy(InitialSort, s);
      forall i, j :: 0 <= i < j < |r| ==> Rank(r[i].task.priority) >= Rank(r[j].task.priority)
  {
    var r := SortBy(InitialSort, s);
    SortSorts(InitialSort, s);
    forall i, j | 0 <= i < j < |r| ensures Rank(r[i].task.priority) >= Rank(r[j].task.priority) {
      assert SortFn(InitialSort, r[i], r[j]) <= 0;
    }
  }

  // ---------------------------------------------------------------------
  // The priority lookup as written
  // ---------------------------------------------------------------------

  /** Names a plain JavaScript object inherits from `Object.prototype`, so
      that `PRIORITY_ORDER[name]` finds a function (or, for `__proto__`, an
      object) rather than `undefined`. */
  predicate IsInheritedName(p: string) {
    p in {"constructor", "__proto__", "hasOwnProperty", "isPrototypeOf",
          "propertyIsEnumerable", "toString", "toLocaleString", "valueOf",
          "__defineGetter__", "__defineSetter__", "__lookupGetter__", "__lookupSetter__"}
  }

  /** `PRIORITY_ORDER[p] ?? 0` as written: `None` stands for a lookup that
      found an inherited member, which `??` keeps and which turns the
      subtraction in `sortFn` into NaN. */
  function RankAsWritten(p: string): (r: Option<int>)
    ensures r.None? <==> IsInheritedName(p)
    ensures r.Some? ==> r.value == Rank(p)
  {
    if IsInheritedName(p) then None else Some(Rank(p))
  }

  /** The ascending priority comparison as written. A NaN difference is not
      `=== 0`, so it is returned as is, and `Array.prototype.sort` reads a
      NaN comparison as "equal". */
  function PriorityCmpAsWritten(a: Task, b: Task): (r: int)
    ensures !IsInheritedName(a.priority) && !IsInheritedName(b.priority) ==>
              r == KeyCmp(ByPriority, a, b)
    ensures IsInheritedName(a.priority) || IsInheritedName(b.priority) ==> r == 0
  {
    match (RankAsWritten(a.priority), RankAsWritten(b.priority))
    case (Some(x), Some(y)) => if x - y == 0 then StrCmp(a.priority, b.priority) else x - y
    case _ => 0
  }

  /** A task labelled "toString" compares equal to both a High and a Low
      task although High and Low differ, so the comparator as written is not
      consistent and the resulting order is left to the JavaScript engine.
      With the lookup restricted to the table's own keys the label ranks
      below Low, like every other unknown label. */
  lemma PriorityFinding(high: Task, low: Task, odd: Task)
    requires high.priority == "High" && low.priority == "Low" && odd.priority == "toString"
    ensures PriorityCmpAsWritten(high, odd) == 0 && PriorityCmpAsWritten(odd, low) == 0
    ensures PriorityCmpAsWritten(high, low) > 0
    ensures KeyCmp(ByPriority, high, odd) > 0 && KeyCmp(ByPriority, odd, low) < 0
  {
    assert IsInheritedName(odd.priority);
    assert !IsInheritedName(high.priority) && !IsInheritedName(low.priority);
  }
}

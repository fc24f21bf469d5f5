/** The vault screen (components/NoteList.tsx): the dashboard counts over all
    stored meetings and the search box that filters the list. */
module NoteList {
  import opened Types
  import opened Text
  import opened ActionPlan

  /** `MeetingStats`. The average is kept as an exact rational. */
  datatype Stats = Stats(totalMeetings: nat, totalTasks: nat, completedTasks: nat, avgSentiment: real)

  // ---------------------------------------------------------------------
  // Counting
  // ---------------------------------------------------------------------

  /** `actionPlan.filter(t => t.completed).length`, the completed share of
      one plan; the list shows it per meeting and the dashboard sums it. */
  function CountDone(plan: seq<Task>): (r: nat)
    ensures r <= |plan|
  {
    if |plan| == 0 then 0
    else (if IsDone(plan[0]) then 1 else 0) + CountDone(plan[1..])
  }

  /** The completed tasks and the tasks that survive clearing make up the
      whole plan. */
  lemma {:induction false} CountDoneComplementsClear(plan: seq<Task>)
    ensures CountDone(plan) + |ClearCompleted(plan)| == |plan|
  {
    if |plan| > 0 {
      CountDoneComplementsClear(plan[1..]);
    }
  }

  /** Every task of the plan is completed exactly when all are counted. */
  lemma {:induction false} CountDoneAllIffAllDone(plan: seq<Task>)
    ensures CountDone(plan) == |plan| <==> forall k :: 0 <= k < |plan| ==> IsDone(plan[k])
  {
    if |plan| > 0 {
      CountDoneAllIffAllDone(plan[1..]);
      assert forall k :: 1 <= k < |plan| ==> plan[1..][k - 1] == plan[k];
      if CountDone(plan) == |plan| {
        assert IsDone(plan[0]);
      }
    }
  }

  /** Completing (or reopening) one task moves the count by exactly one. */
  lemma {:induction false} ToggleMovesCountByOne(plan: seq<Task>, i: nat)
    requires i < |plan|
    ensures CountDone(ToggleCompletion(plan, i)) == CountDone(plan) + (if IsDone(plan[i]) then -1 else 1)
  {
    var after := ToggleCompletion(plan, i);
    if i == 0 {
      assert after[1..] == plan[1..];
    } else {
      assert after[1..] == ToggleCompletion(plan[1..], i - 1);
      ToggleMovesCountByOne(plan[1..], i - 1);
    }
  }

  /** `notes.length` summed over `note.actionPlan.length`. */
  function TotalTasks(notes: seq<Record>): nat {
    if |notes| == 0 then 0
    else TotalTasks(notes[..|notes| - 1]) + |notes[|notes| - 1].actionPlan|
  }

  /** The completed tasks of every meeting. */
  function TotalDone(notes: seq<Record>): nat {
    if |notes| == 0 then 0
    else TotalDone(notes[..|notes| - 1]) + CountDone(notes[|notes| - 1].actionPlan)
  }

  /** The sum of the sentiment scores. */
  function TotalSentiment(notes: seq<Record>): int {
    if |notes| == 0 then 0
    else TotalSentiment(notes[..|notes| - 1]) + notes[|notes| - 1].sentimentScore
  }

  /** The completed tasks of the vault are among its tasks. */
  lemma {:induction false} DoneWithinTotal(notes: seq<Record>)
    ensures TotalDone(notes) <= TotalTasks(notes)
  {
    if |notes| > 0 {
      DoneWithinTotal(notes[..|notes| - 1]);
    }
  }

  /** The counts of two lists of meetings add up: the dashboard does not
      depend on how the list is split. */
  lemma {:induction false} TotalsConcat(a: seq<Record>, b: seq<Record>)
    ensures TotalTasks(a + b) == TotalTasks(a) + TotalTasks(b)
    ensures TotalDone(a + b) == TotalDone(a) + TotalDone(b)
    ensures TotalSentiment(a + b) == TotalSentiment(a) + TotalSentiment(b)
  {
    if |b| == 0 {
      assert a + b == a;
    } else {
      var c := a + b;
      assert c[..|c| - 1] == a + b[..|b| - 1];
      assert c[|c| - 1] == b[|b| - 1];
      TotalsConcat(a, b[..|b| - 1]);
    }
  }

  /** Saving a meeting adds its tasks and its completed tasks to the
      dashboard. */
  lemma SavedNoteCounts(n: Record, notes: seq<Record>)
    ensures TotalTasks([n] + notes) == |n.actionPlan| + TotalTasks(notes)
    ensures TotalDone([n] + notes) == CountDone(n.actionPlan) + TotalDone(notes)
  {
    TotalsConcat([n], notes);
    assert [n][..0] == [];
  }

  /** The `stats` memo: one pass over the meetings. With no meetings the
      average is 0; otherwise it is the mean score. */
  method ComputeStats(notes: seq<Record>) returns (st: Stats)
    ensures st.totalMeetings == |notes|
    ensures st.totalTasks == TotalTasks(notes)
    ensures st.completedTasks == TotalDone(notes)
    ensures st.completedTasks <= st.totalTasks
    ensures |notes| == 0 ==> st.avgSentiment == 0.0
    ensures |notes| > 0 ==> st.avgSentiment * |notes| as real == TotalSentiment(notes) as real
  {
    var totalTasks: nat := 0;
    var completedTasks: nat := 0;
    var totalSentiment: int := 0;
    var i := 0;
    while i < |notes|
      invariant 0 <= i <= |notes|
      invariant totalTasks == TotalTasks(notes[..i])
      invariant completedTasks == TotalDone(notes[..i])
      invariant totalSentiment == TotalSentiment(notes[..i])
    {
      assert notes[..i + 1][..i] == notes[..i];
      totalTasks := totalTasks + |notes[i].actionPlan|;
      completedTasks := completedTasks + CountDone(notes[i].actionPlan);
      totalSentiment := totalSentiment + notes[i].sentimentScore;
      i := i + 1;
    }
    assert notes[..i] == notes;
    DoneWithinTotal(notes);
    var avg := if |notes| > 0 then totalSentiment as real / |notes| as real else 0.0;
    st := Stats(|notes|, totalTasks, completedTasks, avg);
  }

  // ---------------------------------------------------------------------
  // Search
  // ---------------------------------------------------------------------

  /** A meeting matches a lower-cased term when its title, its summary or
      one of its key takeaways contains the term, ignoring case: the term
      occurs at some position of the lower-cased text. */
  function Matches(note: Record, term: string): (r: bool)
    ensures r <==>
      || (exists i :: OccursAt(Lower(note.title), term, i))
      || (exists i :: OccursAt(Lower(note.summary), term, i))
      || (exists k, i :: 0 <= k < |note.keyTakeaways| && OccursAt(Lower(note.keyTakeaways[k]), term, i))
  {
    MatchesIff(note, term);
    || Contains(Lower(note.title), term)
    || Contains(Lower(note.summary), term)
    || exists k :: 0 <= k < |note.keyTakeaways| && Contains(Lower(note.keyTakeaways[k]), term)
  }

  /** The scanning search and the positional one agree on every field. */
  lemma MatchesIff(note: Record, term: string)
    ensures (|| Contains(Lower(note.title), term)
             || Contains(Lower(note.summary), term)
             || exists k :: 0 <= k < |note.keyTakeaways| && Contains(Lower(note.keyTakeaways[k]), term))
        <==> (|| (exists i :: OccursAt(Lower(note.title), term, i))
              || (exists i :: OccursAt(Lower(note.summary), term, i))
              || (exists k, i :: 0 <= k < |note.keyTakeaways| && OccursAt(Lower(note.keyTakeaways[k]), term, i)))
  {
    ContainsIffOccurs(Lower(note.title), term);
    ContainsIffOccurs(Lower(note.summary), term);
    MatchesOccurs(note, term);
  }

  /** Some key takeaway includes the term exactly when the term occurs in
      one of them at some position. */
  lemma MatchesOccurs(note: Record, term: string)
    ensures (exists k :: 0 <= k < |note.keyTakeaways| && Contains(Lower(note.keyTakeaways[k]), term))
        <==> (exists k, i :: 0 <= k < |note.keyTakeaways| && OccursAt(Lower(note.keyTakeaways[k]), term, i))
  {
    var kt := note.keyTakeaways;
    if k :| 0 <= k < |kt| && Contains(Lower(kt[k]), term) {
      OccursOf(Lower(kt[k]), term);
      var i :| OccursAt(Lower(kt[k]), term, i);
      assert 0 <= k < |kt| && OccursAt(Lower(kt[k]), term, i);
    }
    if k, i :| 0 <= k < |kt| && OccursAt(Lower(kt[k]), term, i) {
      ContainsIffOccurs(Lower(kt[k]), term);
      assert 0 <= k < |kt| && Contains(Lower(kt[k]), term);
    }
  }

  lemma OccursOf(hay: string, term: string)
    requires Contains(hay, term)
    ensures exists i :: OccursAt(hay, term, i)
  {
    ContainsIffOccurs(hay, term);
  }

  /** `notes.filter(...)` with the match above. */
  function Filter(notes: seq<Record>, term: string): (r: seq<Record>)
    ensures |r| <= |notes|
    ensures forall n :: n in r <==> n in notes && Matches(n, term)
  {
    if |notes| == 0 then []
    else if Matches(notes[0], term) then [notes[0]] + Filter(notes[1..], term)
    else Filter(notes[1..], term)
  }

  /** `filteredNotes`: a blank search shows every meeting in order; any
      other search keeps the meetings matching the lower-cased term. The
      term is lower-cased but not trimmed. */
  function FilteredNotes(notes: seq<Record>, searchTerm: string): (r: seq<Record>)
    ensures Blank(searchTerm) ==> r == notes
    ensures !Blank(searchTerm) ==> forall n :: n in r <==> n in notes && Matches(n, Lower(searchTerm))
    ensures !Blank(searchTerm) ==> r == Filter(notes, Lower(searchTerm))
  {
    TrimEmptyIffBlank(searchTerm);
    if Trim(searchTerm) == [] then notes else Filter(notes, Lower(searchTerm))
  }

  /** Filtering distributes over concatenation, so the kept meetings stay in
      their stored order (newest first). */
  lemma {:induction false} FilterConcat(a: seq<Record>, b: seq<Record>, term: string)
    ensures Filter(a + b, term) == Filter(a, term) + Filter(b, term)
  {
    if |a| > 0 {
      var ab := a + b;
      assert ab[0] == a[0] && ab[1..] == a[1..] + b;
      FilterConcat(a[1..], b, term);
      if Matches(a[0], term) {
        assert Filter(ab, term) == [a[0]] + Filter(a[1..] + b, term);
      } else {
        assert Filter(ab, term) == Filter(a[1..] + b, term);
      }
    } else {
      assert a + b == b;
    }
  }

  /** Searching the search result again changes nothing. */
  lemma {:induction false} FilterIdempotent(notes: seq<Record>, term: string)
    ensures Filter(Filter(notes, term), term) == Filter(notes, term)
  {
    if |notes| > 0 {
      FilterIdempotent(notes[1..], term);
      if Matches(notes[0], term) {
        assert ([notes[0]] + Filter(notes[1..], term))[1..] == Filter(notes[1..], term);
      }
    }
  }

  /** Lower-casing never turns a character into whitespace or back. */
  lemma BlankIgnoresCase(s: string)
    ensures Blank(Lower(s)) <==> Blank(s)
  {
  }

  /** The search does not depend on the case of what is typed. */
  lemma SearchIgnoresCase(notes: seq<Record>, searchTerm: string)
    ensures FilteredNotes(notes, Lower(searchTerm)) == FilteredNotes(notes, searchTerm)
  {
    BlankIgnoresCase(searchTerm);
    TrimEmptyIffBlank(searchTerm);
    TrimEmptyIffBlank(Lower(searchTerm));
    LowerIdempotent(searchTerm);
  }

  /** A substring of a substring is a substring. */
  lemma ContainsTransitive(hay: string, mid: string, needle: string)
    requires Contains(hay, mid) && Contains(mid, needle)
    ensures Contains(hay, needle)
  {
    ContainsIffOccurs(hay, mid);
    ContainsIffOccurs(mid, needle);
    var i :| OccursAt(hay, mid, i);
    var j :| OccursAt(mid, needle, j);
    forall k | 0 <= k < |needle|
      ensures hay[i + j + k] == needle[k]
    {
      assert hay[i + j + k] == hay[i..i + |mid|][j + k];
      assert needle[k] == mid[j..j + |needle|][k];
    }
    assert hay[i + j..i + j + |needle|] == needle;
    assert OccursAt(hay, needle, i + j);
    ContainsIffOccurs(hay, needle);
  }

  /** Typing more narrows the list: a meeting matching a longer term that
      contains a shorter one matches the shorter term too. */
  lemma NarrowingTerm(note: Record, longer: string, shorter: string)
    requires Contains(longer, shorter) && Matches(note, longer)
    ensures Matches(note, shorter)
  {
    if Contains(Lower(note.title), longer) {
      ContainsTransitive(Lower(note.title), longer, shorter);
    } else if Contains(Lower(note.summary), longer) {
      ContainsTransitive(Lower(note.summary), longer, shorter);
    } else {
      var k :| 0 <= k < |note.keyTakeaways| && Contains(Lower(note.keyTakeaways[k]), longer);
      ContainsTransitive(Lower(note.keyTakeaways[k]), longer, shorter);
    }
  }
}

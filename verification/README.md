# MeetingMind core in Dafny

MeetingMind turns meeting transcripts into summaries with an action plan. It keeps the analysed
meetings, its "vault", in the browser's `localStorage`. This project models the deterministic
core around that vault:

- **Storage** — the record store and settings store of `services/storageService.ts`. This covers
  saving, patching, deleting, clearing and finding records, reading and writing settings, and
  exporting and importing a whole backup. `localStorage` is two cells, one per key. A cell is
  unset, holds a parsed value, or holds text that does not parse.
- **TaskSort** and **ActionPlan** — the action-plan table of `components/NoteDisplay.tsx`:
  - the priority ranks and the `sortFn` comparator;
  - the stable sort applied to the active and the completed partition;
  - the two-state sort toggle;
  - completion toggling and clearing completed tasks.
- **TaskEditor** — the inline task editor of the same component, addressed by original index.
- **CsvExport** — the spreadsheet export of an action plan. It is paired with a reader for the
  same format, so that a round trip can be stated.
- **NoteList** — the dashboard counts and the search filter of `components/NoteList.tsx`.
- **Types** and **Text** — the entities of `types.ts`, and the string operations the views use.

Every operation is a pure function from the state before to the state after. A JavaScript
exception is modelled as an `Err` result, or as an import that reports failure and writes nothing.

## Model

| member | source | states |
|---|---|---|
| Types.AssigneeText | components/NoteDisplay.tsx:94 | an absent assignee reads as the empty string, a present one as itself |
| Storage.Merge | services/storageService.ts:26 | each field the patch carries overwrites the record's field; every field it omits is kept |
| Storage.MergeNoChanges | services/storageService.ts:26 | spreading an empty patch leaves the record unchanged |
| Storage.MergeIdempotent | services/storageService.ts:26 | spreading the same patch twice equals spreading it once |
| Storage.MergeWhere | services/storageService.ts:26 | the list keeps its length and order; records with the id are patched, all others kept; an absent id changes nothing |
| Storage.RemoveId | services/storageService.ts:37 | a record survives exactly when its id differs; an absent id changes nothing |
| Storage.RemoveIdConcat | services/storageService.ts:37 | removal distributes over concatenation, so survivors keep their relative order |
| Storage.FindById | services/storageService.ts:46 | none found exactly when no record has the id; otherwise the first record with that id |
| Storage.Reparse | services/storageService.ts:65-77 | the backup written by the export parses back with both fields present, so the list check at line 71 and the settings check at line 77 both pass |
| Storage.GetNotes | services/storageService.ts:30-33 | a missing key reads as the empty list and a stored list as itself; unparseable text fails with the notes key |
| Storage.GetSettings | services/storageService.ts:49-52 | a missing key reads as `{}` and stored settings as themselves; unparseable text fails with the settings key |
| Storage.SaveNote | services/storageService.ts:18-22 | the new record is placed first and the stored ones follow in order; settings are untouched; corrupt notes fail with nothing written |
| Storage.UpdateNote | services/storageService.ts:24-28 | the list keeps its length and order; each record with the id is merged with the patch and the rest are unchanged; corrupt notes fail |
| Storage.DeleteNote | services/storageService.ts:35-39 | the stored list becomes exactly the earlier list filtered by id, order kept: a record survives exactly when its id differs; settings are untouched; corrupt notes fail |
| Storage.ClearAllNotes | services/storageService.ts:41-43 | the notes then read as the empty list, even after corrupt content; settings are untouched |
| Storage.GetNoteById | services/storageService.ts:45-47 | the result is the first stored record with the id; none is found exactly when no stored record has it; corrupt notes fail |
| Storage.SaveSettings | services/storageService.ts:54-56 | the settings then read back as exactly the object saved, with no merge; notes are untouched |
| Storage.ExportDatabase | services/storageService.ts:58-66 | a backup is produced exactly when both keys parse; it carries their contents, version "1.0" and the given clock time |
| Storage.ImportDatabase | services/storageService.ts:68-85 | succeeds exactly when the file parsed and carries a notes array; failure leaves the store as it was; success stores the notes, and the settings only when present |
| Storage.ClearThenList | services/storageService.ts:41-47 | after clearing, listing gives `[]` and looking up any id finds nothing |
| Storage.SettingsRoundTrip | services/storageService.ts:49-56 | saving then reading settings gives back what was saved; a fresh store reads `{}` |
| Storage.DeleteThenFind | services/storageService.ts:35-47 | after a delete, a lookup of the deleted id finds nothing |
| Storage.AbsentIdIsNoOp | services/storageService.ts:24-39 | deleting or updating an id no record has leaves the list unchanged |
| Storage.ExportImportRoundTrip | services/storageService.ts:58-85 | importing an exported backup into any store succeeds and restores the exported notes and settings |
| Storage.RejectedImportWritesNothing | services/storageService.ts:69-74 | an unparseable file, or one without a notes array, is rejected and neither key is written |
| Storage.SaveSaveDeleteScenario | services/storageService.ts:18-39 | save a, save b, list gives [b, a]; deleting a leaves [b] |
| Text.Lower | components/NoteDisplay.tsx:148-149 | keeps the length; each character is lower-cased on its own |
| Text.LowerIdempotent | components/NoteList.tsx:86 | lower-casing twice equals lower-casing once |
| Text.StrCmp | components/NoteDisplay.tsx:145 | a three-way comparison whose result lies in -1..1 |
| Text.StrCmpZeroIffEqual | components/NoteDisplay.tsx:145 | two strings compare equal exactly when they are identical |
| Text.StrCmpAntisymmetric | components/NoteDisplay.tsx:150 | swapping the arguments negates the comparison |
| Text.StrCmpTransitive | components/NoteDisplay.tsx:150 | "not after" is transitive |
| Text.TrimEmptyIffBlank | components/NoteList.tsx:85 | a trimmed term is empty exactly when every character is whitespace |
| Text.TrimStartKeepsNonWhitespaceHead | components/NoteList.tsx:85 | what trimming the start leaves begins with a non-whitespace character |
| Text.ContainsIffOccurs | components/NoteList.tsx:87-90 | `includes` holds exactly when the needle occurs at some position |
| TaskSort.ToggleSort | components/NoteDisplay.tsx:181-188 | the clicked column becomes the key; the same column flips the direction, another column starts ascending |
| TaskSort.ToggleSortTwice | components/NoteDisplay.tsx:44-45 | two clicks on the current column restore the state; from the initial priority/descending state a priority click gives ascending |
| TaskSort.Rank | components/NoteDisplay.tsx:15-19 | High ranks 3, Medium 2, Low 1, any other label 0 |
| TaskSort.PriorityComparison | components/NoteDisplay.tsx:140-146 | a higher rank sorts later ascending, ties go by label, and only identical labels compare equal; High > Medium > Low > unknown |
| TaskSort.TextComparison | components/NoteDisplay.tsx:147-151 | task and assignee columns compare lower-cased text in ascending order: the result is negative exactly when the first text sorts first, and zero exactly when the texts are equal; an absent assignee equals "" |
| TaskSort.KeyCmpAntisymmetric | components/NoteDisplay.tsx:138-151 | each column's comparison is antisymmetric |
| TaskSort.KeyCmpTransitive | components/NoteDisplay.tsx:138-151 | each column's comparison is transitive |
| TaskSort.SortFnAntisymmetric | components/NoteDisplay.tsx:138-153 | `sortFn` is antisymmetric in both directions |
| TaskSort.SortFnTransitive | components/NoteDisplay.tsx:138-153 | `sortFn` is transitive in both directions |
| TaskSort.InsertSorted | components/NoteDisplay.tsx:156 | inserting into a sorted sequence keeps it sorted |
| TaskSort.InsertStable | components/NoteDisplay.tsx:156 | inserting an element with the smallest index keeps equal elements in index order |
| TaskSort.SortSorts | components/NoteDisplay.tsx:156-157 | the sort's output is ordered by `sortFn` |
| TaskSort.SortIsStable | components/NoteDisplay.tsx:156-157 | tasks that compare equal keep their original order, in either direction |
| TaskSort.SortCorrect | components/NoteDisplay.tsx:155-158 | the sort is a permutation of its input, ordered and stable |
| TaskSort.PriorityDescendingGroups | components/NoteDisplay.tsx:44-45 | in the initial view every High precedes every Medium, which precedes every Low, which precedes other labels |
| TaskSort.RankAsWritten | components/NoteDisplay.tsx:141-142 | an inherited property name yields no number; every other label gets its table rank |
| TaskSort.PriorityCmpAsWritten | components/NoteDisplay.tsx:141-146 | with an inherited name on either side the comparison reads as equal; otherwise it agrees with the table comparison |
| TaskSort.PriorityFinding | components/NoteDisplay.tsx:141-145 | as written, "toString" is equal to both High and Low while High > Low; the corrected comparison ranks it below Low |
| TaskSort.KeyCmp | components/NoteDisplay.tsx:138-151 | by priority two tasks compare equal exactly when their labels are equal, and a lower rank compares below; by task or assignee they are equal exactly when the lower-cased texts are |
| TaskSort.SortFn | components/NoteDisplay.tsx:138-153 | ascending is the key comparison; descending is the key comparison with the two tasks swapped; the direction never changes which tasks are equal |
| TaskSort.Insert | components/NoteDisplay.tsx:156-157 | inserting adds exactly the one element: the result is the input plus it, as a multiset |
| TaskSort.SortBy | components/NoteDisplay.tsx:156-157 | sorting keeps the length and is a permutation of its input |
| ActionPlan.SortedActionPlan | components/NoteDisplay.tsx:132-159 | each table holds the same tasks as its partition, as a multiset, and the two tables together are as long as the plan |
| ActionPlan.Tag | components/NoteDisplay.tsx:133 | each task is paired with its position |
| ActionPlan.TagThenTasks | components/NoteDisplay.tsx:133 | dropping the positions again gives back the plan: tagging loses no task and reorders nothing |
| ActionPlan.Where | components/NoteDisplay.tsx:135-136 | an element is kept exactly when its completion matches the filter |
| ActionPlan.WhereKeepsOrder | components/NoteDisplay.tsx:135-136 | filtering keeps ascending original indices |
| ActionPlan.WhereSplits | components/NoteDisplay.tsx:135-136 | the two filters together are as long as the plan |
| ActionPlan.Partition | components/NoteDisplay.tsx:133-136 | each task with its index is in the active partition exactly when not completed, and in the completed one exactly when completed; both keep original order; sizes add up |
| ActionPlan.SortedActionPlanCorrect | components/NoteDisplay.tsx:132-159 | each sorted table is an ordered, stable permutation of its partition, and every task lands in the table matching its status |
| ActionPlan.PriorityExample | components/NoteDisplay.tsx:44-45 | Low, High, Medium, High in the initial view shows indices 1, 3, 2, 0 |
| ActionPlan.ToggleCompletion | components/NoteDisplay.tsx:114-123 | only task i changes, and only its completion flips; an absent flag becomes true |
| ActionPlan.ToggleSwitchesPartition | components/NoteDisplay.tsx:114-136 | toggling moves the task to the other table, keeps every other task in its table, and toggling twice restores the status |
| ActionPlan.WriteTask | components/NoteDisplay.tsx:173-174 | the buffer replaces task i and every other task is kept |
| ActionPlan.ClearCompleted | components/NoteDisplay.tsx:127 | a task survives exactly when it is not completed |
| ActionPlan.ClearCompletedConcat | components/NoteDisplay.tsx:127 | clearing distributes over concatenation, so survivors keep their order |
| ActionPlan.ClearCompletedIsActivePartition | components/NoteDisplay.tsx:127-135 | clearing leaves exactly the active partition's tasks, in original order |
| ActionPlan.ClearCompletedIdempotent | components/NoteDisplay.tsx:125-130 | clearing twice equals clearing once |
| TaskEditor.StartEditing | components/NoteDisplay.tsx:161-164 | the editor opens on index i with a copy of task i; the plan is unchanged |
| TaskEditor.CancelEditing | components/NoteDisplay.tsx:166-169 | the editor closes and the plan is unchanged |
| TaskEditor.SaveTask | components/NoteDisplay.tsx:171-179 | with no edit open nothing changes; otherwise the buffer replaces the edited task, all others are kept and the editor closes |
| TaskEditor.TogglePanel | components/NoteDisplay.tsx:114-123 | the plan becomes the toggled plan, so task i's completion flips and every other task is kept; the editor is left as it was and still points inside the plan |
| TaskEditor.ClearedPosition | components/NoteDisplay.tsx:127 | after clearing, an active task is found at the count of active tasks before it |
| TaskEditor.ClearCompletedTasksAsWritten | components/NoteDisplay.tsx:125-130 | as written, the plan becomes the order-keeping filter of its active tasks while the editor index stays unchanged |
| TaskEditor.ClearCompletedTasks | components/NoteDisplay.tsx:125-130 | corrected: the plan loses its completed tasks; an edit of an active task follows it to its new index and an edit of a removed task closes |
| TaskEditor.ClearCompletedUpdate | components/NoteDisplay.tsx:125-179 | replacing an active task with an active task commutes with clearing, at the shifted index |
| TaskEditor.ClearThenSaveCommutes | components/NoteDisplay.tsx:125-179 | with the editor moved along, clear-then-save gives the same plan as save-then-clear |
| TaskEditor.StaleEditFinding | components/NoteDisplay.tsx:125-179 | as written, editing task 1 of [done, t1, t2], clearing, then saving gives [t1, edited] and loses t2; corrected gives [edited, t2] |
| CsvExport.Escape | components/NoteDisplay.tsx:93-95 | the escaped text is never shorter than the input |
| CsvExport.EscapeQuoteFree | components/NoteDisplay.tsx:93-95 | text without a double quote is left as it is |
| CsvExport.EscapeConcat | components/NoteDisplay.tsx:93-95 | escaping distributes over concatenation |
| CsvExport.Quote | components/NoteDisplay.tsx:93-95 | a field is wrapped in double quotes, and stripping them and collapsing doubled quotes gives back the text |
| CsvExport.Status | components/NoteDisplay.tsx:92 | the status column reads `Completed` exactly when the task is completed, and `Active` otherwise |
| CsvExport.Row | components/NoteDisplay.tsx:91-100 | a row is the status, then the quoted task, assignee and priority, each after a comma |
| CsvExport.QuoteExample | components/NoteDisplay.tsx:93 | `say "go"` is written as `"say ""go"""` |
| CsvExport.Rows | components/NoteDisplay.tsx:91-96 | one row per task |
| CsvExport.ReadEscaped | components/NoteDisplay.tsx:93-95 | reading an escaped body back up to its closing quote recovers the text and the rest |
| CsvExport.FieldRoundTrip | components/NoteDisplay.tsx:93-95 | a quoted field reads back as its original text, followed by what came after |
| CsvExport.RowRoundTrip | components/NoteDisplay.tsx:91-100 | a row reads back as the task's status, text, assignee and priority |
| CsvExport.RowsRoundTrip | components/NoteDisplay.tsx:98-101 | the line-feed-separated rows read back as the tasks' views in plan order |
| CsvExport.HeaderLineIsJoin | components/NoteDisplay.tsx:90-99 | the header line is `Status,Task,Assignee,Priority` |
| CsvExport.Csv | components/NoteDisplay.tsx:98-103 | the text begins with the byte-order mark and the header line, and each task's row follows on its own line-feed-prefixed line |
| CsvExport.CsvRoundTrip | components/NoteDisplay.tsx:89-103 | the export starts with the byte-order mark and header, and reading it back gives one view per task, in order, with nothing lost |
| CsvExport.ViewsAgree | components/NoteDisplay.tsx:91-96 | each row view carries its task's completion, text, assignee (absent as "") and priority |
| NoteList.CountDone | components/NoteList.tsx:199 | a plan's completed count never exceeds its length |
| NoteList.CountDoneComplementsClear | components/NoteList.tsx:199 | completed count plus the tasks that survive clearing equals the plan length |
| NoteList.CountDoneAllIffAllDone | components/NoteList.tsx:199 | the count equals the length exactly when every task is completed |
| NoteList.ToggleMovesCountByOne | components/NoteList.tsx:199 | toggling one task changes the completed count by exactly one, in the matching direction |
| NoteList.DoneWithinTotal | components/NoteList.tsx:16-34 | the completed tasks never outnumber the tasks |
| NoteList.TotalsConcat | components/NoteList.tsx:16-34 | the dashboard sums are additive over concatenated lists |
| NoteList.SavedNoteCounts | components/NoteList.tsx:16-34 | saving a meeting adds its task count and completed count to the totals |
| NoteList.ComputeStats | components/NoteList.tsx:16-34 | the pass counts meetings, tasks and completed tasks (completed ≤ tasks); the average is 0 without meetings, otherwise the mean score |
| NoteList.Matches | components/NoteList.tsx:87-91 | a meeting matches exactly when the term occurs at some position of its lower-cased title, its lower-cased summary or one of its lower-cased key takeaways |
| NoteList.Filter | components/NoteList.tsx:87-91 | a meeting is kept exactly when its title, summary or a takeaway contains the term, ignoring case |
| NoteList.FilteredNotes | components/NoteList.tsx:84-92 | a blank search shows all meetings in order; otherwise the order-preserving filter keeping exactly the meetings matching the lower-cased, untrimmed term |
| NoteList.FilterConcat | components/NoteList.tsx:87-91 | filtering distributes over concatenation, so results keep the stored order |
| NoteList.FilterIdempotent | components/NoteList.tsx:87-91 | filtering the result again changes nothing |
| NoteList.BlankIgnoresCase | components/NoteList.tsx:85-86 | lower-casing does not change whether a term is blank |
| NoteList.SearchIgnoresCase | components/NoteList.tsx:84-92 | typing the term in another case gives the same list |
| NoteList.ContainsTransitive | components/NoteList.tsx:87-90 | a substring of a substring is a substring |
| NoteList.NarrowingTerm | components/NoteList.tsx:87-91 | a meeting matching a longer term also matches any term contained in it |

## Left out

- JSON text: `JSON.stringify` and `JSON.parse` are not modelled character by character. A stored key
  is one of three cases: missing or empty, a value of the expected shape, or text that does not
  parse. A key holding valid JSON of another shape (say `notes` holding an object) is not modelled.
- `Date.now()` in `exportDatabase` is the parameter `now`.
- Quota errors of `setItem` are not modelled. That includes the partial import when the second
  `setItem` throws after the first one has written.
- Keys of `localStorage` other than the two the service uses are not modelled.
- `Storage.ImportDatabase`: the parsed file is an `Upload` whose `notes` is absent whenever the
  field is missing, falsy or not an array. Array elements that are not records are not modelled;
  the code does not check them either.
- `Storage.Merge`: a patch that carries a field explicitly set to `undefined` is modelled only for
  `source`. Every other field of a patch is either present with a value or absent.
- The gating on `onUpdate` and on `confirm(...)` is not modelled. Toggling, clearing and saving
  are modelled as if an update handler is present and the user confirmed.
- `App.tsx` passing the updated record to `updateNote` is not modelled; it is the store's
  `UpdateNote` with the whole record as the patch.
- `Text.StrCmp` stands in for `localeCompare`. It is a plain ordinal order, so locale collation is
  not modelled. The properties proved of the comparator are those any consistent total order has.
- `Text.Lower` stands in for `toLowerCase` and maps only `A`..`Z`. Unicode case mapping is not
  modelled.
- `NoteList.ComputeStats`: the average is the exact rational mean. Rounding with `toFixed(1)` and
  binary floating point are not modelled. Sentiment scores are integers.
- `getPriorityStyle`, clipboard copying, Teams sync, printing and the `Blob`/download mechanics are
  not modelled. So are the CSV file name and every piece of rendering.
- TaskSort.KeyCmp, TaskSort.SortBy and ActionPlan.SortedActionPlan use the corrected rank: a label that
  names one of the 12 members inherited from `Object.prototype` ranks 0. The code's `?? 0` lookup
  finds those members instead, and the comparison becomes NaN. The behaviour as written is
  modelled by `TaskSort.RankAsWritten` and `TaskSort.PriorityCmpAsWritten` (see Findings).
- `CsvExport.Csv`: lines are joined with a bare line feed as the code does. Rule 1 of section 2 of
  RFC 4180 asks for CRLF; the model follows the code.
- The edit buffer copies the displayed row, so the saved task also carries a stray
  `originalIndex` field. The model stores the task fields only.
- `TaskEditor.SaveTask` requires the edit index to be inside the plan. The code also accepts a
  stale index at or beyond the end: an index equal to the length appends the buffer as a new
  task, and a larger one extends the array with holes. Only the stale index that still lies
  inside the plan is modelled (see Findings).
- `services/geminiService.ts`, `services/teamsService.ts`, `components/Recorder.tsx`,
  `components/Header.tsx` and `App.tsx` are not part of this model. The services and the
  recorder do I/O (the model API, the webhook, the microphone); `App.tsx` wires the screens
  together, and `components/Header.tsx` is markup only.
- Stored data that does not parse makes `getNotes` and `getSettings` throw, and nothing in the
  service catches it. The model makes these reads fail rather than read as empty.

## Findings

| source | as written | input that shows it | evidently intended | confidence | as-written member | corrected member |
|---|---|---|---|---|---|---|
| components/NoteDisplay.tsx:141-145 | `PRIORITY_ORDER[a.priority] ?? 0` also finds members inherited from `Object.prototype`. For such a label the subtraction is NaN, which the sort reads as "equal". | tasks labelled "High", "toString" and "Low": "toString" equals both, but High > Low, so the comparator is inconsistent and the order is left to the engine | only the table's own keys rank; any other label ranks 0, below Low | not executed; follows from the JavaScript lookup and sort semantics | TaskSort.PriorityFinding | TaskSort.KeyCmpTransitive |
| components/NoteDisplay.tsx:125-130, 171-179 | `clearCompletedTasks` filters the plan but keeps `editingIdx`. A later `saveTask` writes the buffer at the old index, which now addresses another task. | plan [done, t1, t2], editing t1 (index 1), clear completed, save: the result is [t1, edited] and t2 is lost | the edit follows its task, so the result is [edited, t2] | not executed; follows from the code paths | TaskEditor.StaleEditFinding | TaskEditor.ClearThenSaveCommutes |

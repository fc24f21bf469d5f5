/** The record store and settings store of services/storageService.ts.

    `localStorage` is abstracted to the two keys the service uses, each
    holding what `JSON.parse` would make of the stored text: nothing
    (`getItem` returned null or ""), a value of the expected shape, or text
    that does not parse. Every operation is a pure function from the store
    before to the store after; a `JSON.parse` that throws becomes `Err`, and
    an operation that throws before writing leaves nothing written. */
module Storage {
  import opened Types

  const STORAGE_KEY := "meeting_mind_notes"
  const SETTINGS_KEY := "meeting_mind_settings"
  const BACKUP_VERSION := "1.0"

  /** The parsed content of one storage key. */
  datatype Cell<T> = Unset | Holds(value: T) | Unparseable

  /** The two keys of `localStorage` the service reads and writes. */
  datatype Store = Store(notes: Cell<seq<Record>>, settings: Cell<Settings>)

  /** A browser profile where nothing has been stored yet. */
  const Fresh := Store(Unset, Unset)

  /** `JSON.parse` threw on the text stored under `key`. */
  datatype StoreError = Corrupt(key: string)

  /** `Partial<MeetingRecord>`: `Some` marks a field present in the object
      being spread. `source` is itself optional, so a patch can also carry it
      explicitly absent. */
  datatype Patch = Patch(
    id: Option<string>,
    timestamp: Option<int>,
    title: Option<string>,
    source: Option<Option<string>>,
    transcript: Option<string>,
    summary: Option<string>,
    keyTakeaways: Option<seq<string>>,
    actionPlan: Option<seq<Task>>,
    sentimentScore: Option<int>,
    professionalGrade: Option<string>)

  /** The empty object `{}` as a patch. */
  const NoChanges := Patch(None, None, None, None, None, None, None, None, None, None)

  /** `DatabaseBackup` as `exportDatabase` builds it, before `JSON.stringify`. */
  datatype Backup = Backup(notes: seq<Record>, settings: Settings, version: string, exportDate: int)

  /** What `JSON.parse` makes of an uploaded backup file, as far as
      `importDatabase` looks at it: `notes` is `None` when the field is
      missing, falsy or not an array; `settings` is `None` when it is
      missing or falsy. */
  datatype Upload = Upload(notes: Option<seq<Record>>, settings: Option<Settings>)

  /** The boolean `importDatabase` returns together with the store after it. */
  datatype ImportResult = ImportResult(ok: bool, store: Store)

  // ---------------------------------------------------------------------
  // Operations on the record list itself
  // ---------------------------------------------------------------------

  /** `{ ...n, ...p }`: every field present in the patch overwrites the
      record's field, every other field is kept. */
  function Merge(n: Record, p: Patch): (r: Record)
    ensures p.id.Some? ==> r.id == p.id.value
    ensures p.id.None? ==> r.id == n.id
    ensures p.timestamp.Some? ==> r.timestamp == p.timestamp.value
    ensures p.timestamp.None? ==> r.timestamp == n.timestamp
    ensures p.title.Some? ==> r.title == p.title.value
    ensures p.title.None? ==> r.title == n.title
    ensures p.source.Some? ==> r.source == p.source.value
    ensures p.source.None? ==> r.source == n.source
    ensures p.transcript.Some? ==> r.transcript == p.transcript.value
    ensures p.transcript.None? ==> r.transcript == n.transcript
    ensures p.summary.Some? ==> r.summary == p.summary.value
    ensures p.summary.None? ==> r.summary == n.summary
    ensures p.keyTakeaways.Some? ==> r.keyTakeaways == p.keyTakeaways.value
    ensures p.keyTakeaways.None? ==> r.keyTakeaways == n.keyTakeaways
    ensures p.actionPlan.Some? ==> r.actionPlan == p.actionPlan.value
    ensures p.actionPlan.None? ==> r.actionPlan == n.actionPlan
    ensures p.sentimentScore.Some? ==> r.sentimentScore == p.sentimentScore.value
    ensures p.sentimentScore.None? ==> r.sentimentScore == n.sentimentScore
    ensures p.professionalGrade.Some? ==> r.professionalGrade == p.professionalGrade.value
    ensures p.professionalGrade.None? ==> r.professionalGrade == n.professionalGrade
  {
    Record(
      Pick(p.id, n.id),
      Pick(p.timestamp, n.timestamp),
      Pick(p.title, n.title),
      Pick(p.source, n.source),
      Pick(p.transcript, n.transcript),
      Pick(p.summary, n.summary),
      Pick(p.keyTakeaways, n.keyTakeaways),
      Pick(p.actionPlan, n.actionPlan),
      Pick(p.sentimentScore, n.sentimentScore),
      Pick(p.professionalGrade, n.professionalGrade))
  }

  /** The value a spread leaves in one field. */
  function Pick<T>(patched: Option<T>, current: T): T {
    match patched
    case Some(v) => v
    case None => current
  }

  /** Spreading `{}` changes nothing. */
  lemma MergeNoChanges(n: Record)
    ensures Merge(n, NoChanges) == n
  {
  }

  /** Spreading the same patch twice is spreading it once. */
  lemma MergeIdempotent(n: Record, p: Patch)
    ensures Merge(Merge(n, p), p) == Merge(n, p)
  {
  }

  /** `existing.map(n => n.id === id ? { ...n, ...patch } : n)`. */
  function MergeWhere(notes: seq<Record>, id: string, p: Patch): (r: seq<Record>)
    ensures |r| == |notes|
    ensures forall i :: 0 <= i < |notes| && notes[i].id != id ==> r[i] == notes[i]
    ensures forall i :: 0 <= i < |notes| && notes[i].id == id ==> r[i] == Merge(notes[i], p)
    ensures (forall i :: 0 <= i < |notes| ==> notes[i].id != id) ==> r == notes
  {
    seq(|notes|, i requires 0 <= i < |notes| => if notes[i].id == id then Merge(notes[i], p) else notes[i])
  }

  /** `existing.filter(n => n.id !== id)`. */
  function RemoveId(notes: seq<Record>, id: string): (r: seq<Record>)
    ensures |r| <= |notes|
    ensures forall x :: x in r <==> x in notes && x.id != id
    ensures (forall i :: 0 <= i < |notes| ==> notes[i].id != id) ==> r == notes
  {
    if |notes| == 0 then []
    else if notes[0].id == id then RemoveId(notes[1..], id)
    else [notes[0]] + RemoveId(notes[1..], id)
  }

  /** Filtering distributes over concatenation, so the records it keeps stay
      in their original relative order. */
  lemma {:induction false} RemoveIdConcat(a: seq<Record>, b: seq<Record>, id: string)
    ensures RemoveId(a + b, id) == RemoveId(a, id) + RemoveId(b, id)
  {
    if |a| > 0 {
      assert (a + b)[1..] == a[1..] + b;
      RemoveIdConcat(a[1..], b, id);
    } else {
      assert a + b == b;
    }
  }

  /** `existing.find(n => n.id === id)`: the first record with that id. */
  function FindById(notes: seq<Record>, id: string): (r: Option<Record>)
    ensures r.None? <==> forall i :: 0 <= i < |notes| ==> notes[i].id != id
    ensures r.Some? ==> exists k :: 0 <= k < |notes| && notes[k] == r.value && r.value.id == id
                                    && forall j :: 0 <= j < k ==> notes[j].id != id
  {
    if |notes| == 0 then None
    else if notes[0].id == id then Some(notes[0])
    else
      var r := FindById(notes[1..], id);
      assert r.Some? ==> exists k :: 0 <= k < |notes[1..]| && notes[1..][k] == r.value
                                     && forall j :: 0 <= j < k ==> notes[1..][j].id != id;
      if r.Some? then
        var k :| 0 <= k < |notes[1..]| && notes[1..][k] == r.value
                 && forall j :: 0 <= j < k ==> notes[1..][j].id != id;
        assert notes[k + 1] == r.value;
        assert forall j :: 0 <= j < k + 1 ==> notes[j].id != id by {
          forall j | 0 <= j < k + 1 ensures notes[j].id != id {
            if j > 0 { assert notes[j] == notes[1..][j - 1]; }
          }
        }
        r
      else r
  }

  // ---------------------------------------------------------------------
  // The service's operations on the store
  // ---------------------------------------------------------------------

  /** `getNotes`: an empty or absent key reads as `[]`; unparseable text
      makes `JSON.parse` throw, and nothing catches it. */
  function GetNotes(s: Store): (r: Result<seq<Record>, StoreError>)
    ensures r.Err? <==> s.notes.Unparseable?
    ensures r.Err? ==> r.error == Corrupt(STORAGE_KEY)
    ensures s.notes.Unset? ==> r == Ok([])
    ensures s.notes.Holds? ==> r == Ok(s.notes.value)
  {
    match s.notes
    case Unset => Ok([])
    case Holds(v) => Ok(v)
    case Unparseable => Err(Corrupt(STORAGE_KEY))
  }

  /** `getSettings`: a missing key reads as `{}`; unparseable text throws. */
  function GetSettings(s: Store): (r: Result<Settings, StoreError>)
    ensures r.Err? <==> s.settings.Unparseable?
    ensures r.Err? ==> r.error == Corrupt(SETTINGS_KEY)
    ensures s.settings.Unset? ==> r == Ok(EmptySettings)
    ensures s.settings.Holds? ==> r == Ok(s.settings.value)
  {
    match s.settings
    case Unset => Ok(EmptySettings)
    case Holds(v) => Ok(v)
    case Unparseable => Err(Corrupt(SETTINGS_KEY))
  }

  /** Overwrite the notes key with a complete collection. */
  function WriteNotes(s: Store, notes: seq<Record>): (r: Store)
    ensures GetNotes(r) == Ok(notes)
    ensures r.settings == s.settings
  {
    s.(notes := Holds(notes))
  }

  /** `saveNote`: the new record goes first, the earlier ones follow in
      their order. Fails, writing nothing, when the stored notes do not parse. */
  function SaveNote(s: Store, note: Record): (r: Result<Store, StoreError>)
    ensures r.Err? <==> GetNotes(s).Err?
    ensures r.Err? ==> r.error == Corrupt(STORAGE_KEY)
    ensures r.Ok? ==> GetNotes(r.value).Ok? && GetNotes(r.value).value == [note] + GetNotes(s).value
    ensures r.Ok? ==> |GetNotes(r.value).value| == |GetNotes(s).value| + 1
    ensures r.Ok? ==> r.value.settings == s.settings
  {
    match GetNotes(s)
    case Err(e) => Err(e)
    case Ok(existing) => Ok(WriteNotes(s, [note] + existing))
  }

  /** `updateNote`: every record whose id matches gets the patch spread
      over it; all others, and the order, are kept. */
  function UpdateNote(s: Store, id: string, p: Patch): (r: Result<Store, StoreError>)
    ensures r.Err? <==> GetNotes(s).Err?
    ensures r.Ok? ==> GetNotes(r.value).Ok? && r.value.settings == s.settings
    ensures r.Ok? ==> var before, after := GetNotes(s).value, GetNotes(r.value).value;
      && |after| == |before|
      && (forall i :: 0 <= i < |before| && before[i].id != id ==> after[i] == before[i])
      && (forall i :: 0 <= i < |before| && before[i].id == id ==> after[i] == Merge(before[i], p))
  {
    match GetNotes(s)
    case Err(e) => Err(e)
    case Ok(existing) => Ok(WriteNotes(s, MergeWhere(existing, id, p)))
  }

  /** `deleteNote`: drops exactly the records with that id. */
  function DeleteNote(s: Store, id: string): (r: Result<Store, StoreError>)
    ensures r.Err? <==> GetNotes(s).Err?
    ensures r.Ok? ==> GetNotes(r.value).Ok? && r.value.settings == s.settings
    ensures r.Ok? ==> forall x :: x in GetNotes(r.value).value <==> x in GetNotes(s).value && x.id != id
    ensures r.Ok? ==> GetNotes(r.value).value == RemoveId(GetNotes(s).value, id)
  {
    match GetNotes(s)
    case Err(e) => Err(e)
    case Ok(existing) => Ok(WriteNotes(s, RemoveId(existing, id)))
  }

  /** `clearAllNotes`: removes the key, which then reads as `[]`; this
      succeeds even when the old content was unparseable. */
  function ClearAllNotes(s: Store): (r: Store)
    ensures GetNotes(r) == Ok([])
    ensures r.settings == s.settings
  {
    s.(notes := Unset)
  }

  /** `getNoteById`. */
  function GetNoteById(s: Store, id: string): (r: Result<Option<Record>, StoreError>)
    ensures r.Err? <==> GetNotes(s).Err?
    ensures r.Ok? && r.value.Some? ==> r.value.value in GetNotes(s).value && r.value.value.id == id
    ensures r.Ok? ==> (r.value.None? <==> forall x :: x in GetNotes(s).value ==> x.id != id)
    ensures r.Ok? ==> r.value == FindById(GetNotes(s).value, id)
  {
    match GetNotes(s)
    case Err(e) => Err(e)
    case Ok(existing) => Ok(FindById(existing, id))
  }

  /** `saveSettings`: the whole settings object is replaced, never merged. */
  function SaveSettings(s: Store, settings: Settings): (r: Store)
    ensures GetSettings(r) == Ok(settings)
    ensures r.notes == s.notes
  {
    s.(settings := Holds(settings))
  }

  /** `exportDatabase` before `JSON.stringify`; `now` is `Date.now()`.
      Either read may throw, and then nothing is exported. */
  function ExportDatabase(s: Store, now: int): (r: Result<Backup, StoreError>)
    ensures r.Ok? <==> GetNotes(s).Ok? && GetSettings(s).Ok?
    ensures r.Ok? ==> r.value.notes == GetNotes(s).value && r.value.settings == GetSettings(s).value
    ensures r.Ok? ==> r.value.version == BACKUP_VERSION && r.value.exportDate == now
  {
    match GetNotes(s)
    case Err(e) => Err(e)
    case Ok(notes) =>
      match GetSettings(s)
      case Err(e) => Err(e)
      case Ok(settings) => Ok(Backup(notes, settings, BACKUP_VERSION, now))
  }

  /** `importDatabase`: `parsed` is `None` when `JSON.parse` threw or
      produced something without fields. Validation precedes every write;
      on failure the store is untouched. Settings are written only when the
      backup carries them. */
  function ImportDatabase(s: Store, parsed: Option<Upload>): (r: ImportResult)
    ensures r.ok <==> parsed.Some? && parsed.value.notes.Some?
    ensures !r.ok ==> r.store == s
    ensures r.ok ==> GetNotes(r.store) == Ok(parsed.value.notes.value)
    ensures r.ok && parsed.value.settings.Some? ==> GetSettings(r.store) == Ok(parsed.value.settings.value)
    ensures r.ok && parsed.value.settings.None? ==> r.store.settings == s.settings
  {
    match parsed
    case None => ImportResult(false, s)
    case Some(backup) =>
      match backup.notes
      case None => ImportResult(false, s)
      case Some(notes) =>
        var withNotes := WriteNotes(s, notes);
        match backup.settings
        case None => ImportResult(true, withNotes)
        case Some(settings) => ImportResult(true, SaveSettings(withNotes, settings))
  }

  /** What `JSON.parse` gives back for the text `exportDatabase` produced:
      the notes array and the settings object are both present, since an
      array passes `Array.isArray` and any object, even `{}`, is truthy. */
  function Reparse(b: Backup): (r: Upload)
    ensures r.notes == Some(b.notes)
    ensures r.settings == Some(b.settings)
    ensures forall s :: ImportDatabase(s, Some(r)).ok
  {
    Upload(Some(b.notes), Some(b.settings))
  }

  // ---------------------------------------------------------------------
  // Properties relating several operations
  // ---------------------------------------------------------------------

  /** After `clearAllNotes`, `getNotes` returns `[]`. */
  lemma ClearThenList(s: Store, id: string)
    ensures GetNotes(ClearAllNotes(s)) == Ok([])
    ensures GetNoteById(ClearAllNotes(s), id) == Ok(None)
  {
  }

  /** `saveSettings(x)` then `getSettings()` returns exactly `x`, whatever was
      stored before, and a store that never saw settings reads `{}`. */
  lemma SettingsRoundTrip(s: Store, x: Settings)
    ensures GetSettings(SaveSettings(s, x)) == Ok(x)
    ensures GetSettings(Fresh) == Ok(EmptySettings)
  {
  }

  /** After a successful delete no record with that id can be found. */
  lemma DeleteThenFind(s: Store, id: string)
    requires GetNotes(s).Ok?
    ensures DeleteNote(s, id).Ok?
    ensures GetNoteById(DeleteNote(s, id).value, id) == Ok(None)
  {
  }

  /** Deleting or updating an id no record carries leaves the list as it was. */
  lemma AbsentIdIsNoOp(s: Store, id: string, p: Patch)
    requires GetNotes(s).Ok?
    requires forall x :: x in GetNotes(s).value ==> x.id != id
    ensures GetNotes(DeleteNote(s, id).value) == GetNotes(s)
    ensures GetNotes(UpdateNote(s, id, p).value) == GetNotes(s)
  {
    var notes := GetNotes(s).value;
    assert forall i :: 0 <= i < |notes| ==> notes[i].id != id by {
      forall i | 0 <= i < |notes| ensures notes[i].id != id {
        assert notes[i] in notes;
      }
    }
  }

  /** Exporting and then importing the backup, into this store or any other,
      restores exactly the notes and settings that were exported. */
  lemma ExportImportRoundTrip(s: Store, target: Store, now: int)
    requires ExportDatabase(s, now).Ok?
    ensures var r := ImportDatabase(target, Some(Reparse(ExportDatabase(s, now).value)));
      && r.ok
      && GetNotes(r.store) == GetNotes(s)
      && GetSettings(r.store) == GetSettings(s)
  {
  }

  /** A failed import never writes: a malformed file, or one whose `notes` is
      missing or not an array, leaves both keys as they were. */
  lemma RejectedImportWritesNothing(s: Store, parsed: Option<Upload>)
    requires parsed.None? || parsed.value.notes.None?
    ensures ImportDatabase(s, parsed) == ImportResult(false, s)
  {
  }

  /** Save `a`, save `b`, list, delete `a`, list: the newest record comes
      first, and deleting removes only the matching record. */
  lemma SaveSaveDeleteScenario(a: Record, b: Record)
    requires a.id == "a" && b.id == "b"
    ensures var s1 := SaveNote(Fresh, a).value;
            var s2 := SaveNote(s1, b).value;
            && GetNotes(s1) == Ok([a])
            && GetNotes(s2) == Ok([b, a])
            && GetNotes(DeleteNote(s2, "a").value) == Ok([b])
  {
    var s1 := SaveNote(Fresh, a).value;
    assert GetNotes(s1).value == [a] + [] == [a];
    var s2 := SaveNote(s1, b).value;
    assert GetNotes(s2).value == [b] + [a] == [b, a];
    assert RemoveId([b, a], "a") == [b] by {
      assert [b, a][1..] == [a];
      assert RemoveId([a], "a") == [];
    }
  }
}

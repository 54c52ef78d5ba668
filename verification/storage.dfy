/** The `StorageManager` class of the task-manager starter: persistence of a
    task array in a key-value store, with an envelope carrying derived
    metadata, a backup slot written before each save, fallback loading
    (primary, then backup, then defaults), import validation, a one-shot
    version migration and a prefix-based cleanup.

    The store is a `map<string, Text>`; tasks are parsed JSON values, since
    this class never looks at them beyond a few properties. The clock's ISO
    timestamp is the parameter `now`. Whether the browser store refuses the
    primary write (`QuotaExceededError`) is the parameter `quotaExceeded`;
    every other write succeeds. When the store is unavailable the manager runs
    in memory mode and never touches the map. */
module Storage {
  import opened Options
  import opened Seqs
  import opened Strings
  import opened Json

  const DataKey: string := "taskManager_data"
  const BackupKey: string := "taskManager_backup"
  const VersionKey: string := "taskManager_version"
  const CurrentVersion: string := "1.0.0"
  /** The prefix `cleanupOldData` looks for. */
  const KeyPrefix: string := "taskManager_"

  /** `new Date().toISOString()`: the clock's reading, never empty. */
  type Iso = s: string | |s| > 0 witness "1970-01-01T00:00:00.000Z"

  datatype StorageState = StorageState(memoryMode: bool, memoryTasks: seq<Json>, store: map<string, Text>)

  /** `localStorage.getItem(key)` is truthy: the key is set to a non-empty string. */
  predicate Present(store: map<string, Text>, key: string) {
    key in store && store[key] != Raw("")
  }

  // ------------------------------------------------------------- envelope

  /** `t.completed` is truthy. */
  predicate CompletedFlag(t: Json) {
    match Field(t, "completed")
    case Some(v) => Truthy(v)
    case None => false
  }

  /** `t.category` for every task, `None` for `undefined`. */
  function CategoryValues(tasks: seq<Json>): (r: seq<Option<Json>>)
    ensures |r| == |tasks|
    ensures forall i :: 0 <= i < |tasks| ==> r[i] == Field(tasks[i], "category")
  {
    seq(|tasks|, i requires 0 <= i < |tasks| => Field(tasks[i], "category"))
  }

  /** `[...new Set(tasks.map(t => t.category))]` as `JSON.stringify` writes
      it: distinct values in first-seen order, `undefined` written as `null`. */
  function Categories(tasks: seq<Json>): (r: seq<Json>)
    ensures |r| == |Distinct(CategoryValues(tasks))|
    ensures forall i :: 0 <= i < |r| ==> r[i] == Distinct(CategoryValues(tasks))[i].GetOr(JNull)
  {
    var d := Distinct(CategoryValues(tasks));
    seq(|d|, i requires 0 <= i < |d| => d[i].GetOr(JNull))
  }

  /** The metadata block of a saved envelope. */
  function Metadata(tasks: seq<Json>): Json {
    JObj(map[
      "totalTasks" := JNum(|tasks|),
      "completedTasks" := JNum(Count(tasks, CompletedFlag)),
      "categories" := JArr(Categories(tasks))])
  }

  /** The object `saveTasks` writes under the data key. */
  function Envelope(tasks: seq<Json>, now: Iso): (r: Json)
    ensures Field(r, "tasks") == Some(JArr(tasks))
    ensures Field(r, "version") == Some(JStr(CurrentVersion))
    ensures Field(r, "metadata") == Some(Metadata(tasks))
  {
    JObj(map[
      "tasks" := JArr(tasks),
      "timestamp" := JStr(now),
      "version" := JStr(CurrentVersion),
      "metadata" := Metadata(tasks)])
  }

  /** The saved metadata counts the tasks, counts the completed ones and
      lists each category value once, in first-seen order. */
  lemma MetadataFacts(tasks: seq<Json>)
    ensures Metadata(tasks).fields["totalTasks"] == JNum(|tasks|)
    ensures Metadata(tasks).fields["completedTasks"].n <= |tasks|
    ensures var d := Distinct(CategoryValues(tasks));
      && NoDuplicates(d)
      && (forall c :: c in d <==> exists i :: 0 <= i < |tasks| && Field(tasks[i], "category") == c)
      && (forall i, j :: 0 <= i < j < |d| ==>
            FirstIndex(CategoryValues(tasks), d[i]) < FirstIndex(CategoryValues(tasks), d[j]))
  {
    var vs := CategoryValues(tasks);
    forall c | c in vs
      ensures exists i :: 0 <= i < |tasks| && Field(tasks[i], "category") == c
    {
      var i :| 0 <= i < |vs| && vs[i] == c;
    }
    forall c | exists i :: 0 <= i < |tasks| && Field(tasks[i], "category") == c
      ensures c in vs
    {
      var i :| 0 <= i < |tasks| && Field(tasks[i], "category") == c;
      assert vs[i] == c;
    }
  }

  /** The object `createBackup` writes: the primary text, kept as a string. */
  function BackupEnvelope(primary: Text, now: Iso): (r: Json)
    ensures Field(r, "data") == Some(JSerial(primary))
  {
    JObj(map["data" := JSerial(primary), "timestamp" := JStr(now), "version" := JStr(CurrentVersion)])
  }

  // ----------------------------------------------------------- validation

  /** A task carries own properties `id`, `title` and `completed`; a `null`
      task makes `hasOwnProperty` throw, which every caller treats as
      invalid data. */
  predicate HasTaskKeys(t: Json) {
    Has(t, "id") && Has(t, "title") && Has(t, "completed")
  }

  /** `validateData`: an object whose `tasks` is an array of tasks each
      having `id`, `title` and `completed`. Only presence is checked. */
  predicate ValidateData(d: Json) {
    match Field(d, "tasks")
    case Some(JArr(items)) => forall i :: 0 <= i < |items| ==> HasTaskKeys(items[i])
    case _ => false
  }

  /** `validateImportData`: an object whose `tasks` is an array whose
      elements all have a string `title`; nothing else is required. */
  predicate ValidateImportData(d: Json) {
    match Field(d, "tasks")
    case Some(JArr(items)) =>
      forall i :: 0 <= i < |items| ==> Has(items[i], "title") && IsString(items[i].fields["title"])
    case _ => false
  }

  /** The tasks array of a document that passed either validator. */
  function TasksOf(d: Json): seq<Json>
    requires Field(d, "tasks").Some? && d.fields["tasks"].JArr?
  {
    d.fields["tasks"].items
  }

  // --------------------------------------------------------------- backup

  /** `createBackup`: when the primary key holds a non-empty string, copy it
      into the backup slot; otherwise nothing happens. */
  function CreateBackup(s: StorageState, now: Iso): (r: StorageState)
    ensures r.memoryMode == s.memoryMode && r.memoryTasks == s.memoryTasks
    ensures !s.memoryMode && Present(s.store, DataKey) ==>
      r.store == s.store[BackupKey := Doc(BackupEnvelope(s.store[DataKey], now))]
    ensures s.memoryMode || !Present(s.store, DataKey) ==> r == s
  {
    if !s.memoryMode && Present(s.store, DataKey) then
      s.(store := s.store[BackupKey := Doc(BackupEnvelope(s.store[DataKey], now))])
    else s
  }

  // ----------------------------------------------------------------- save

  datatype SaveOutcome =
    | Saved
    | SaveFailed     // a `null` task makes the metadata computation throw
    | QuotaExceeded  // the primary write was refused; old keys were cleaned up

  /** `[...new Set(...)]` and `filter` read a property of every task, which
      throws for `null`. */
  predicate HasNullTask(tasks: seq<Json>) {
    exists i :: 0 <= i < |tasks| && tasks[i] == JNull
  }

  /** A key `cleanupOldData` removes: prefixed, but neither the data nor the
      backup key. */
  predicate Stale(key: string) {
    StartsWith(key, KeyPrefix) && key != DataKey && key != BackupKey
  }

  /** `cleanupOldData`: drop every stale key, keep everything else. */
  function CleanupOldData(store: map<string, Text>): (r: map<string, Text>)
    ensures forall k :: k in r <==> k in store && !Stale(k)
    ensures forall k :: k in r ==> r[k] == store[k]
    ensures DataKey in store ==> DataKey in r
    ensures BackupKey in store ==> BackupKey in r
    ensures VersionKey !in r
  {
    map k | k in store && !Stale(k) :: store[k]
  }

  /** `saveTasks(tasks, {createBackup: backup})`. */
  function SaveTasks(s: StorageState, tasks: seq<Json>, backup: bool, now: Iso, quotaExceeded: bool)
    : (r: (StorageState, SaveOutcome))
    ensures s.memoryMode ==> r == (s.(memoryTasks := tasks), Saved)
    ensures !s.memoryMode && HasNullTask(tasks) ==> r == (s, SaveFailed)
    ensures !s.memoryMode && !HasNullTask(tasks) ==>
      var b := if backup then CreateBackup(s, now) else s;
      if quotaExceeded then r == (b.(store := CleanupOldData(b.store)), QuotaExceeded)
      else r == (b.(store := b.store[DataKey := Doc(Envelope(tasks, now))]), Saved)
    ensures r.0.memoryMode == s.memoryMode
  {
    if s.memoryMode then (s.(memoryTasks := tasks), Saved)
    else if HasNullTask(tasks) then (s, SaveFailed)
    else
      var b := if backup then CreateBackup(s, now) else s;
      if quotaExceeded then (b.(store := CleanupOldData(b.store)), QuotaExceeded)
      else (b.(store := b.store[DataKey := Doc(Envelope(tasks, now))]), Saved)
  }

  // ----------------------------------------------------------------- load

  datatype Source = Memory | Default | LocalStorage | Backup

  datatype LoadResult = LoadResult(tasks: seq<Json>, source: Source, restored: bool)

  /** `getDefaultData`. */
  const DefaultData: LoadResult := LoadResult([], Default, false)

  /** `restoreFromBackup`: the backup's embedded primary, if there is a
      backup, it parses, its `data` string parses and the result passes
      `validateData`; the defaults in every other case. */
  function RestoreFromBackup(store: map<string, Text>): (r: LoadResult)
    ensures r.source == Backup || r == DefaultData
    ensures r.source == Backup <==>
      && Present(store, BackupKey)
      && Parse(store[BackupKey]).Some?
      && ParseValue(Field(store[BackupKey].doc, "data")).Some?
      && ValidateData(ParseValue(Field(store[BackupKey].doc, "data")).value)
    ensures r.source == Backup ==>
      r.restored && r.tasks == TasksOf(ParseValue(Field(store[BackupKey].doc, "data")).value)
  {
    if !Present(store, BackupKey) then DefaultData
    else match Parse(store[BackupKey])
      case None => DefaultData
      case Some(b) =>
        match ParseValue(Field(b, "data"))
        case None => DefaultData
        case Some(d) =>
          if ValidateData(d) then LoadResult(TasksOf(d), Backup, true) else DefaultData
  }

  /** `loadTasks`. */
  function LoadTasks(s: StorageState): (r: LoadResult)
    ensures s.memoryMode ==> r == LoadResult(s.memoryTasks, Memory, false)
    ensures !s.memoryMode && !Present(s.store, DataKey) ==> r == DefaultData
    ensures !s.memoryMode && Present(s.store, DataKey) ==>
      if s.store[DataKey].Doc? && ValidateData(s.store[DataKey].doc)
      then r == LoadResult(TasksOf(s.store[DataKey].doc), LocalStorage, false)
      else r == RestoreFromBackup(s.store)
    ensures r.source == LocalStorage || r.source == Backup ==>
      forall i :: 0 <= i < |r.tasks| ==> HasTaskKeys(r.tasks[i])
  {
    if s.memoryMode then LoadResult(s.memoryTasks, Memory, false)
    else if !Present(s.store, DataKey) then DefaultData
    else match Parse(s.store[DataKey])
      case None => RestoreFromBackup(s.store)
      case Some(d) =>
        if ValidateData(d) then LoadResult(TasksOf(d), LocalStorage, false)
        else RestoreFromBackup(s.store)
  }

  /** Tasks `loadTasks` accepts from the primary slot. */
  predicate Loadable(tasks: seq<Json>) {
    forall i :: 0 <= i < |tasks| ==> HasTaskKeys(tasks[i])
  }

  /** Saving then loading returns the saved tasks, from the primary slot,
      whenever every task has the keys `validateData` checks. */
  lemma SaveLoadRoundTrip(s: StorageState, tasks: seq<Json>, backup: bool, now: Iso)
    requires !s.memoryMode
    requires Loadable(tasks)
    ensures SaveTasks(s, tasks, backup, now, false).1 == Saved
    ensures LoadTasks(SaveTasks(s, tasks, backup, now, false).0) == LoadResult(tasks, LocalStorage, false)
  {
    assert forall i :: 0 <= i < |tasks| ==> tasks[i] != JNull;
    var r := SaveTasks(s, tasks, backup, now, false).0;
    assert r.store[DataKey] == Doc(Envelope(tasks, now));
  }

  /** In memory mode, loading returns what was last saved. */
  lemma MemoryRoundTrip(s: StorageState, tasks: seq<Json>, backup: bool, now: Iso, quotaExceeded: bool)
    requires s.memoryMode
    ensures LoadTasks(SaveTasks(s, tasks, backup, now, quotaExceeded).0) == LoadResult(tasks, Memory, false)
  {
  }

  /** A save over loadable data, followed by corruption of the primary slot,
      loads the data that was there before the save, from the backup. */
  lemma BackupRestoresPrevious(s: StorageState, previous: seq<Json>, tasks: seq<Json>,
                               t0: Iso, now: Iso, garbage: string)
    requires !s.memoryMode
    requires Loadable(previous) && Loadable(tasks)
    requires garbage != ""
    ensures var s1 := SaveTasks(s, previous, false, t0, false).0;
      var s2 := SaveTasks(s1, tasks, true, now, false).0;
      LoadTasks(s2.(store := s2.store[DataKey := Raw(garbage)])) == LoadResult(previous, Backup, true)
  {
    SaveLoadRoundTrip(s, previous, false, t0);
    var s1 := SaveTasks(s, previous, false, t0, false).0;
    SaveLoadRoundTrip(s1, tasks, true, now);
    var s2 := SaveTasks(s1, tasks, true, now, false).0;
    assert s1.store[DataKey] == Doc(Envelope(previous, t0));
    var b := CreateBackup(s1, now);
    assert b.store[BackupKey] == Doc(BackupEnvelope(Doc(Envelope(previous, t0)), now));
    assert s2.store[BackupKey] == b.store[BackupKey];
    var s3 := s2.(store := s2.store[DataKey := Raw(garbage)]);
    RestoreSavedEnvelope(s3.store, previous, t0, now);
  }

  // ------------------------------------------------------------ clear

  /** `clearAllData`: in memory mode the tasks empty; otherwise the primary
      is backed up and then removed, and nothing else changes. */
  function ClearAllData(s: StorageState, now: Iso): (r: StorageState)
    ensures s.memoryMode ==> r == s.(memoryTasks := [])
    ensures !s.memoryMode ==> r.store == CreateBackup(s, now).store - {DataKey}
    ensures !s.memoryMode ==> LoadTasks(r) == DefaultData
    ensures !s.memoryMode && Present(s.store, DataKey) ==>
      r.store[BackupKey] == Doc(BackupEnvelope(s.store[DataKey], now))
  {
    if s.memoryMode then s.(memoryTasks := [])
    else
      var b := CreateBackup(s, now);
      b.(store := b.store - {DataKey})
  }

  // ------------------------------------------------------------ import

  datatype ImportOutcome =
    | ImportRejected                              // unparseable text or wrong shape
    | Imported(save: SaveOutcome, imported: nat)  // `{...result, imported}`

  /** `importData`: unparseable or ill-shaped input is rejected with no
      write; otherwise the current primary is backed up once and the
      imported tasks replace the stored ones, saved without a second backup. */
  function ImportData(s: StorageState, text: Text, now: Iso, quotaExceeded: bool)
    : (r: (StorageState, ImportOutcome))
    ensures r.1 == ImportRejected <==> !(text.Doc? && ValidateImportData(text.doc))
    ensures r.1 == ImportRejected ==> r.0 == s
    ensures r.1.Imported? ==>
      var tasks := TasksOf(text.doc);
      && r.1.imported == |tasks|
      && (r.0, r.1.save) == SaveTasks(CreateBackup(s, now), tasks, false, now, quotaExceeded)
  {
    match Parse(text)
    case None => (s, ImportRejected)
    case Some(d) =>
      if !ValidateImportData(d) then (s, ImportRejected)
      else
        var tasks := TasksOf(d);
        var (s1, outcome) := SaveTasks(CreateBackup(s, now), tasks, false, now, quotaExceeded);
        (s1, Imported(outcome, |tasks|))
  }

  /** Imported tasks replace, not extend, what was stored. */
  lemma ImportReplaces(s: StorageState, text: Text, now: Iso)
    requires !s.memoryMode
    requires text.Doc? && ValidateImportData(text.doc) && Loadable(TasksOf(text.doc))
    ensures LoadTasks(ImportData(s, text, now, false).0) == LoadResult(TasksOf(text.doc), LocalStorage, false)
  {
    SaveLoadRoundTrip(CreateBackup(s, now), TasksOf(text.doc), false, now);
  }

  /** A backup slot holding a saved envelope of loadable tasks restores them. */
  lemma RestoreSavedEnvelope(store: map<string, Text>, previous: seq<Json>, t0: Iso, now: Iso)
    requires Loadable(previous)
    requires BackupKey in store && store[BackupKey] == Doc(BackupEnvelope(Doc(Envelope(previous, t0)), now))
    ensures RestoreFromBackup(store) == LoadResult(previous, Backup, true)
  {
    assert ParseValue(Field(store[BackupKey].doc, "data")) == Some(Envelope(previous, t0));
  }

  /** The two validators disagree: an import whose tasks carry only a
      `title` is accepted and saved, but the next load rejects the saved
      envelope and falls back to the backup, which holds the data from before
      the import. */
  lemma ImportWithoutIdsLostOnLoad(s: StorageState, previous: seq<Json>, t0: Iso, now: Iso)
    requires !s.memoryMode && Loadable(previous)
    requires DataKey in s.store && s.store[DataKey] == Doc(Envelope(previous, t0))
    ensures var text := Doc(JObj(map["tasks" := JArr([JObj(map["title" := JStr("x")])])]));
      var (s1, outcome) := ImportData(s, text, now, false);
      && outcome == Imported(Saved, 1)
      && LoadTasks(s1) == LoadResult(previous, Backup, true)
  {
    var task := JObj(map["title" := JStr("x")]);
    var text := Doc(JObj(map["tasks" := JArr([task])]));
    assert ValidateImportData(text.doc);
    assert !HasNullTask([task]);
    var b := CreateBackup(s, now);
    var s1 := SaveTasks(b, [task], false, now, false).0;
    assert ImportData(s, text, now, false) == (s1, Imported(Saved, 1));
    assert s1.store[DataKey] == Doc(Envelope([task], now));
    assert !HasTaskKeys(task);
    assert !ValidateData(Envelope([task], now));
    assert s1.store[BackupKey] == Doc(BackupEnvelope(Doc(Envelope(previous, t0)), now));
    RestoreSavedEnvelope(s1.store, previous, t0, now);
  }

  /** `validateImportData` strengthened with the keys `validateData` checks,
      so that whatever is imported can be loaded back. */
  predicate ValidateImportDataStrict(d: Json) {
    ValidateImportData(d) && Loadable(TasksOf(d))
  }

  /** `importData` with the strengthened validator: an accepted import is
      exactly what the next load returns. */
  function ImportDataStrict(s: StorageState, text: Text, now: Iso, quotaExceeded: bool)
    : (r: (StorageState, ImportOutcome))
    ensures r.1 == ImportRejected <==> !(text.Doc? && ValidateImportDataStrict(text.doc))
    ensures r.1 == ImportRejected ==> r.0 == s
    ensures r.1.Imported? && !s.memoryMode && !quotaExceeded ==>
      r.1.save == Saved && LoadTasks(r.0) == LoadResult(TasksOf(text.doc), LocalStorage, false)
  {
    if text.Doc? && ValidateImportDataStrict(text.doc) then
      if !s.memoryMode && !quotaExceeded then
        ImportReplaces(s, text, now);
        SaveLoadRoundTrip(CreateBackup(s, now), TasksOf(text.doc), false, now);
        ImportData(s, text, now, quotaExceeded)
      else ImportData(s, text, now, quotaExceeded)
    else (s, ImportRejected)
  }

  // ------------------------------------------------------------ export

  /** `exportData`: the loaded tasks with their count and categories;
      `None` when a `null` task makes the category listing throw. */
  function ExportData(s: StorageState, now: Iso): (r: Option<Text>)
    ensures r.None? <==> HasNullTask(LoadTasks(s).tasks)
    ensures r.Some? ==> r.value.Doc? && Field(r.value.doc, "tasks") == Some(JArr(LoadTasks(s).tasks))
  {
    var tasks := LoadTasks(s).tasks;
    if HasNullTask(tasks) then None
    else
      Some(Doc(JObj(map[
        "tasks" := JArr(tasks),
        "exportDate" := JStr(now),
        "version" := JStr(CurrentVersion),
        "metadata" := JObj(map["totalTasks" := JNum(|tasks|), "categories" := JArr(Categories(tasks))])])))
  }

  // --------------------------------------------------------- migration

  /** `!task[key]`: absent or falsy. */
  predicate Missing(t: Json, key: string) {
    match Field(t, key)
    case Some(v) => !Truthy(v)
    case None => true
  }

  /** Set `key` to `v` when it is missing, keep it otherwise. */
  function FillIn(t: Json, key: string, v: Json): (r: Json)
    requires t.JObj?
    ensures r.JObj? && r.fields.Keys == t.fields.Keys + {key}
    ensures Missing(t, key) ==> r.fields[key] == v
    ensures !Missing(t, key) ==> r == t
    ensures forall k :: k in t.fields && k != key ==> r.fields[k] == t.fields[k]
  {
    if Missing(t, key) then JObj(t.fields[key := v]) else t
  }

  /** What `migrateData` does to one task object. */
  function Backfill(t: Json, now: Iso): (r: Json)
    requires t.JObj?
    ensures r.JObj? && r.fields.Keys == t.fields.Keys + {"createdAt", "category", "priority"}
    ensures !Missing(r, "createdAt") && !Missing(r, "category") && !Missing(r, "priority")
    ensures Missing(t, "createdAt") ==> r.fields["createdAt"] == JStr(now)
    ensures Missing(t, "category") ==> r.fields["category"] == JStr("Generale")
    ensures Missing(t, "priority") ==> r.fields["priority"] == JStr("media")
    ensures forall k :: k in t.fields && !Missing(t, k) ==> r.fields[k] == t.fields[k]
    ensures forall k :: k in t.fields && k != "createdAt" && k != "category" && k != "priority" ==>
      r.fields[k] == t.fields[k]
  {
    var a := FillIn(t, "createdAt", JStr(now));
    var b := FillIn(a, "category", JStr("Generale"));
    FillIn(b, "priority", JStr("media"))
  }

  /** Assigning a property throws for a `null` or primitive task (class
      bodies run in strict mode), so migration only proceeds when every
      task is an object. */
  predicate AllObjects(tasks: seq<Json>) {
    forall i :: 0 <= i < |tasks| ==> tasks[i].JObj?
  }

  function BackfillAll(tasks: seq<Json>, now: Iso): (r: seq<Json>)
    requires AllObjects(tasks)
    ensures |r| == |tasks|
    ensures forall i :: 0 <= i < |tasks| ==> r[i] == Backfill(tasks[i], now)
  {
    seq(|tasks|, i requires 0 <= i < |tasks| => Backfill(tasks[i], now))
  }

  /** Back-filling keeps every key, so tasks `loadTasks` accepted stay
      acceptable. */
  lemma BackfillLoadable(tasks: seq<Json>, now: Iso)
    requires AllObjects(tasks) && Loadable(tasks)
    ensures Loadable(BackfillAll(tasks, now))
    ensures !HasNullTask(BackfillAll(tasks, now))
  {
    var r := BackfillAll(tasks, now);
    forall i | 0 <= i < |r|
      ensures HasTaskKeys(r[i]) && r[i] != JNull
    {
      assert r[i].fields.Keys == tasks[i].fields.Keys + {"createdAt", "category", "priority"};
    }
  }

  /** `migrateData`: load, back-fill `createdAt`, `category` and `priority`
      where missing, and save without a new backup. An assignment to a task
      that is not an object throws and the catch swallows it, so nothing
      is written. */
  function MigrateData(s: StorageState, now: Iso, quotaExceeded: bool): (r: StorageState)
    ensures r.memoryMode == s.memoryMode
    ensures !AllObjects(LoadTasks(s).tasks) ==> r == s
    ensures AllObjects(LoadTasks(s).tasks) && (s.memoryMode || !quotaExceeded) ==>
      LoadTasks(r) == LoadResult(BackfillAll(LoadTasks(s).tasks, now),
                                 if s.memoryMode then Memory else LocalStorage, false)
    ensures !s.memoryMode ==> (BackupKey in r.store <==> BackupKey in s.store)
    ensures !s.memoryMode && BackupKey in s.store ==> r.store[BackupKey] == s.store[BackupKey]
    ensures !s.memoryMode && quotaExceeded ==>
      forall k :: k in r.store ==> k in s.store && r.store[k] == s.store[k]
    ensures !s.memoryMode && AllObjects(LoadTasks(s).tasks) && quotaExceeded ==>
      r.store == CleanupOldData(s.store)
    ensures !s.memoryMode && AllObjects(LoadTasks(s).tasks) && !quotaExceeded ==>
      forall k :: k != DataKey ==> (k in r.store <==> k in s.store) && (k in s.store ==> r.store[k] == s.store[k])
  {
    var loaded := LoadTasks(s);
    if AllObjects(loaded.tasks) then
      var filled := BackfillAll(loaded.tasks, now);
      if s.memoryMode then
        MemoryRoundTrip(s, filled, false, now, quotaExceeded);
        SaveTasks(s, filled, false, now, quotaExceeded).0
      else
        assert Loadable(loaded.tasks);
        BackfillLoadable(loaded.tasks, now);
        if quotaExceeded then SaveTasks(s, filled, false, now, true).0
        else
          SaveLoadRoundTrip(s, filled, false, now);
          SaveTasks(s, filled, false, now, false).0
    else s
  }

  /** Whether `checkAndMigrateVersion` would migrate. */
  predicate NeedsMigration(store: map<string, Text>) {
    !(VersionKey in store && store[VersionKey] == Raw(CurrentVersion))
  }

  /** `checkAndMigrateVersion`: migrate exactly when the stored version is
      absent or different, then record the current version. */
  function CheckAndMigrateVersion(s: StorageState, now: Iso, quotaExceeded: bool): (r: StorageState)
    ensures !NeedsMigration(s.store) ==> r == s
    ensures NeedsMigration(s.store) ==>
      r.store == MigrateData(s, now, quotaExceeded).store[VersionKey := Raw(CurrentVersion)]
    ensures !NeedsMigration(r.store)
  {
    if !NeedsMigration(s.store) then s
    else
      var m := MigrateData(s, now, quotaExceeded);
      m.(store := m.store[VersionKey := Raw(CurrentVersion)])
  }

  /** A second version check right after the first does nothing. */
  lemma MigrationRunsOnce(s: StorageState, now: Iso, later: Iso, q1: bool, q2: bool)
    ensures var once := CheckAndMigrateVersion(s, now, q1);
      CheckAndMigrateVersion(once, later, q2) == once
  {
  }

  /** After a successful migration of loadable data, every task in the
      primary slot has a truthy `createdAt`, `category` and `priority`. */
  lemma MigrationFillsFields(s: StorageState, now: Iso)
    requires !s.memoryMode
    requires NeedsMigration(s.store)
    requires Present(s.store, DataKey) && s.store[DataKey].Doc? && ValidateData(s.store[DataKey].doc)
    ensures var r := CheckAndMigrateVersion(s, now, false);
      var loaded := LoadTasks(r);
      && loaded.source == LocalStorage
      && |loaded.tasks| == |TasksOf(s.store[DataKey].doc)|
      && forall i :: 0 <= i < |loaded.tasks| ==>
           !Missing(loaded.tasks[i], "createdAt") && !Missing(loaded.tasks[i], "category")
           && !Missing(loaded.tasks[i], "priority")
  {
    var tasks := TasksOf(s.store[DataKey].doc);
    assert LoadTasks(s).tasks == tasks;
    assert AllObjects(tasks);
    var filled := BackfillAll(tasks, now);
    assert Loadable(filled);
    var m := SaveTasks(s, filled, false, now, false).0;
    SaveLoadRoundTrip(s, filled, false, now);
    var r := CheckAndMigrateVersion(s, now, false);
    assert r.store == m.store[VersionKey := Raw(CurrentVersion)];
    assert r.store[DataKey] == m.store[DataKey];
  }

  // ------------------------------------------------------ initialisation

  /** `initializeStorage`: an unavailable store selects memory mode with
      no tasks; otherwise the version check runs and a backup is taken if
      none exists. */
  function Initialize(available: bool, store: map<string, Text>, now: Iso, quotaExceeded: bool)
    : (r: StorageState)
    ensures !available ==> r == StorageState(true, [], store)
    ensures available ==> !r.memoryMode && !NeedsMigration(r.store)
    ensures available ==>
      var c := CheckAndMigrateVersion(StorageState(false, [], store), now, quotaExceeded);
      r == if Present(c.store, BackupKey) then c else CreateBackup(c, now)
  {
    if !available then StorageState(true, [], store)
    else
      var c := CheckAndMigrateVersion(StorageState(false, [], store), now, quotaExceeded);
      if Present(c.store, BackupKey) then c else CreateBackup(c, now)
  }
}

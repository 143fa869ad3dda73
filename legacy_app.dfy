/** The first version of the service (app.py), kept alongside the
    repositories: a document of files and entries only, with handlers that
    read it, change one collection and write it back. Its records have their
    own shape: files belong to no user, and an entry carries the clock text of
    its creation instead of an owner. */
module LegacyApp {
  import opened Wrappers
  import opened Text
  import opened Collections
  import opened Records
  import opened Clock

  datatype LegacyFile = LegacyFile(
    id: Id, name: string, icon: string, color: string, createdAt: Timestamp, updatedAt: Timestamp)

  datatype LegacyEntry = LegacyEntry(
    id: Id, fileId: Id, time: string, date: Timestamp, mood: string, elements: seq<Element>)

  function LegacyFileKey(f: LegacyFile): Id { f.id }
  function LegacyEntryKey(e: LegacyEntry): Id { e.id }
  function LegacyEntryFile(e: LegacyEntry): Id { e.fileId }

  /** The document: `{"files": [...], "entries": [...]}`. */
  datatype LegacyData = LegacyData(files: seq<LegacyFile>, entries: seq<LegacyEntry>)

  /** `DEFAULT_DATA`: two empty collections and no users collection. */
  const DefaultData: LegacyData := LegacyData([], [])

  /** `load_data()`: the stored document, or the default when the file is
      missing or does not parse (`persisted` is None). */
  function LoadData(persisted: Option<LegacyData>): (d: LegacyData)
    ensures persisted.None? ==> d.files == [] && d.entries == []
    ensures persisted.Some? ==> d == persisted.value
  {
    if persisted.Some? then persisted.value else DefaultData
  }

  /** The document in memory, standing for the JSON file each handler reads
      and writes back. */
  class LegacyStore {
    var files: seq<LegacyFile>
    var entries: seq<LegacyEntry>

    function Content(): LegacyData
      reads this
    {
      LegacyData(files, entries)
    }

    constructor Load(persisted: Option<LegacyData>)
      ensures Content() == LoadData(persisted)
    {
      var d := LoadData(persisted);
      files, entries := d.files, d.entries;
    }
  }

  // ---- Files ----

  const DefaultName: string := "ملف جديد"
  const DefaultIcon: string := "📁"
  const DefaultColor: string := "#9d4edd"

  /** The body of a file creation; absent keys are `None`. */
  datatype FileRequest = FileRequest(name: Option<string>, icon: Option<string>, color: Option<string>)

  function OrDefault<T>(o: Option<T>, default: T): (r: T)
    ensures o.Some? ==> r == o.value
    ensures o.None? ==> r == default
  {
    if o.Some? then o.value else default
  }

  /** `create_file()`: a new file with a fresh id, the requested or default
      name, icon and colour, and both timestamps the creation time, appended
      to the files. `generated` stands for the uuid4 text. */
  method CreateFile(store: LegacyStore, req: FileRequest, generated: Id, now: Timestamp) returns (f: LegacyFile)
    modifies store
    ensures f.id == generated && f.createdAt == now && f.updatedAt == now
    ensures f.name == OrDefault(req.name, DefaultName)
    ensures f.icon == OrDefault(req.icon, DefaultIcon) && f.color == OrDefault(req.color, DefaultColor)
    ensures store.files == old(store.files) + [f]
    ensures store.entries == old(store.entries)
  {
    f := LegacyFile(generated, OrDefault(req.name, DefaultName), OrDefault(req.icon, DefaultIcon),
      OrDefault(req.color, DefaultColor), now, now);
    store.files := store.files + [f];
  }

  /** The body of a file update: each key present replaces the stored value
      (`dict.update`), the id included. */
  datatype FileUpdate = FileUpdate(
    id: Option<Id>, name: Option<string>, icon: Option<string>, color: Option<string>, createdAt: Option<Timestamp>)

  /** The updated file: the body merged in, then `updated_at` set to now. */
  function UpdatedFile(f: LegacyFile, u: FileUpdate, now: Timestamp): (r: LegacyFile)
    ensures r.updatedAt == now
    ensures r.id == OrDefault(u.id, f.id) && r.name == OrDefault(u.name, f.name)
    ensures r.icon == OrDefault(u.icon, f.icon) && r.color == OrDefault(u.color, f.color)
    ensures r.createdAt == OrDefault(u.createdAt, f.createdAt)
  {
    LegacyFile(OrDefault(u.id, f.id), OrDefault(u.name, f.name), OrDefault(u.icon, f.icon),
      OrDefault(u.color, f.color), OrDefault(u.createdAt, f.createdAt), now)
  }

  function FileChange(u: FileUpdate, now: Timestamp): LegacyFile -> LegacyFile {
    f => UpdatedFile(f, u, now)
  }

  /** Changing the first record with a key, in place, and nothing else. */
  function UpdateFirst<T>(s: seq<T>, key: T -> Id, id: Id, change: T -> T): seq<T> {
    match FindIndex(s, key, id)
    case Some(i) => s[i := change(s[i])]
    case None => s
  }

  /** Only the first record with the key changes: the length stays, every
      other position keeps its record, and a key nobody has changes nothing. */
  lemma UpdateFirstFrame<T>(s: seq<T>, key: T -> Id, id: Id, change: T -> T, j: nat)
    requires j < |s|
    ensures |UpdateFirst(s, key, id, change)| == |s|
    ensures FindIndex(s, key, id) == Some(j) ==> UpdateFirst(s, key, id, change)[j] == change(s[j])
    ensures FindIndex(s, key, id) != Some(j) ==> UpdateFirst(s, key, id, change)[j] == s[j]
    ensures (forall k :: 0 <= k < |s| ==> key(s[k]) != id) ==> UpdateFirst(s, key, id, change) == s
  {
  }

  /** The handlers' loop: walk the collection, change the first record with
      the key and stop. */
  method UpdateFirstByScan<T>(data: seq<T>, key: T -> Id, id: Id, change: T -> T) returns (r: seq<T>, found: Option<T>)
    ensures r == UpdateFirst(data, key, id, change)
    ensures found.None? <==> Lookup(data, key, id).None?
    ensures found.Some? ==> found.value == change(Lookup(data, key, id).value)
  {
    for i := 0 to |data|
      invariant forall j :: 0 <= j < i ==> key(data[j]) != id
    {
      if key(data[i]) == id {
        var changed := change(data[i]);
        assert FindIndex(data, key, id) == Some(i);
        return data[i := changed], Some(changed);
      }
    }
    return data, None;
  }

  /** `update_file()`: a file id nobody has is not found and nothing is
      saved; otherwise the first file with it takes the body's values and a
      new `updated_at`, in place. */
  method UpdateFile(store: LegacyStore, fileId: Id, u: FileUpdate, now: Timestamp) returns (r: Option<LegacyFile>)
    modifies store
    ensures r.None? <==> Lookup(old(store.files), LegacyFileKey, fileId).None?
    ensures r.Some? ==> r.value == UpdatedFile(Lookup(old(store.files), LegacyFileKey, fileId).value, u, now)
    ensures store.files == UpdateFirst(old(store.files), LegacyFileKey, fileId, FileChange(u, now))
    ensures store.entries == old(store.entries)
  {
    var files, found := UpdateFirstByScan(store.files, LegacyFileKey, fileId, FileChange(u, now));
    store.files := files;
    r := found;
  }

  /** `delete_file()`: the files with the id go, and so does every entry
      filed under that id, in one write; success is reported whether or not
      anything matched. */
  method DeleteFile(store: LegacyStore, fileId: Id) returns (success: bool)
    modifies store
    ensures success
    ensures store.files == Filter(old(store.files), KeyIsNot(LegacyFileKey, fileId))
    ensures store.entries == Filter(old(store.entries), KeyIsNot(LegacyEntryFile, fileId))
  {
    store.files := Filter(store.files, KeyIsNot(LegacyFileKey, fileId));
    store.entries := Filter(store.entries, KeyIsNot(LegacyEntryFile, fileId));
    success := true;
  }

  /** After `delete_file()` no file with the id remains, every other file
      remains with its multiplicity and in order. */
  lemma DeleteFileRemovesFile(files: seq<LegacyFile>, fileId: Id, f: LegacyFile)
    ensures Lookup(Filter(files, KeyIsNot(LegacyFileKey, fileId)), LegacyFileKey, fileId).None?
    ensures multiset(Filter(files, KeyIsNot(LegacyFileKey, fileId)))[f] == if f.id == fileId then 0 else multiset(files)[f]
    ensures IsSubsequence(Filter(files, KeyIsNot(LegacyFileKey, fileId)), files)
  {
    RemovedNotFound(files, LegacyFileKey, fileId);
    FilterCount(files, KeyIsNot(LegacyFileKey, fileId), f);
    FilterIsSubsequence(files, KeyIsNot(LegacyFileKey, fileId));
  }

  /** After `delete_file()` no entry filed under the id remains, and every
      entry of another file remains with its multiplicity and in order. */
  lemma DeleteFileCascades(entries: seq<LegacyEntry>, fileId: Id, e: LegacyEntry)
    ensures Lookup(Filter(entries, KeyIsNot(LegacyEntryFile, fileId)), LegacyEntryFile, fileId).None?
    ensures multiset(Filter(entries, KeyIsNot(LegacyEntryFile, fileId)))[e] == if e.fileId == fileId then 0 else multiset(entries)[e]
    ensures IsSubsequence(Filter(entries, KeyIsNot(LegacyEntryFile, fileId)), entries)
  {
    RemovedNotFound(entries, LegacyEntryFile, fileId);
    FilterCount(entries, KeyIsNot(LegacyEntryFile, fileId), e);
    FilterIsSubsequence(entries, KeyIsNot(LegacyEntryFile, fileId));
  }

  // ---- Entries ----

  const DefaultMood: string := "😊"

  /** The body of an entry creation; absent keys are `None`. */
  datatype EntryRequest = EntryRequest(fileId: Option<Id>, mood: Option<string>, elements: Option<seq<Element>>)

  /** `create_entry()`: a body without `file_id` fails and saves nothing;
      otherwise one entry is appended, stamped with the creation time and its
      12-hour clock text. `hour` and `minute` are the clock reading of `now`. */
  method CreateEntry(store: LegacyStore, req: EntryRequest, generated: Id, now: Timestamp, hour: int, minute: int)
    returns (r: Option<LegacyEntry>)
    requires HourOfDay(hour) && MinuteOfHour(minute)
    modifies store
    ensures req.fileId.None? ==> r.None? && store.entries == old(store.entries)
    ensures req.fileId.Some? ==> r.Some? && store.entries == old(store.entries) + [r.value]
    ensures r.Some? ==>
      && r.value.id == generated && r.value.fileId == req.fileId.value
      && r.value.time == ClockText(hour, minute) && r.value.date == now
      && r.value.mood == OrDefault(req.mood, DefaultMood)
      && r.value.elements == OrDefault(req.elements, [])
    ensures store.files == old(store.files)
  {
    if req.fileId.None? {
      return None;
    }
    var h, ampm := ConvertHour(hour);
    var time := NatToString(h) + ":" + PadTwo(NatToString(minute)) + " " + ampm;
    var entry := LegacyEntry(generated, req.fileId.value, time, now, OrDefault(req.mood, DefaultMood),
      OrDefault(req.elements, []));
    store.entries := store.entries + [entry];
    r := Some(entry);
  }

  /** Creating an entry adds exactly one entry, at the end, and the old
      entries stay in front of it unchanged. */
  lemma CreateEntryGrowsByOne(entries: seq<LegacyEntry>, e: LegacyEntry)
    ensures |entries + [e]| == |entries| + 1
    ensures (entries + [e])[..|entries|] == entries && (entries + [e])[|entries|] == e
    ensures multiset(entries + [e]) == multiset(entries) + multiset{e}
  {
    assert (entries + [e])[..|entries|] == entries;
  }

  /** The body of an entry update: each key present replaces the stored value. */
  datatype EntryUpdate = EntryUpdate(
    id: Option<Id>, fileId: Option<Id>, time: Option<string>, date: Option<Timestamp>,
    mood: Option<string>, elements: Option<seq<Element>>)

  function UpdatedEntry(e: LegacyEntry, u: EntryUpdate): (r: LegacyEntry)
    ensures r.id == OrDefault(u.id, e.id) && r.fileId == OrDefault(u.fileId, e.fileId)
    ensures r.time == OrDefault(u.time, e.time) && r.date == OrDefault(u.date, e.date)
    ensures r.mood == OrDefault(u.mood, e.mood) && r.elements == OrDefault(u.elements, e.elements)
  {
    LegacyEntry(OrDefault(u.id, e.id), OrDefault(u.fileId, e.fileId), OrDefault(u.time, e.time),
      OrDefault(u.date, e.date), OrDefault(u.mood, e.mood), OrDefault(u.elements, e.elements))
  }

  function EntryChange(u: EntryUpdate): LegacyEntry -> LegacyEntry {
    e => UpdatedEntry(e, u)
  }

  /** An empty body leaves the entry as it was. */
  lemma EmptyEntryUpdate(e: LegacyEntry)
    ensures UpdatedEntry(e, EntryUpdate(None, None, None, None, None, None)) == e
  {
  }

  /** `update_entry()`: like `update_file()`, without a refreshed timestamp. */
  method UpdateEntry(store: LegacyStore, entryId: Id, u: EntryUpdate) returns (r: Option<LegacyEntry>)
    modifies store
    ensures r.None? <==> Lookup(old(store.entries), LegacyEntryKey, entryId).None?
    ensures r.Some? ==> r.value == UpdatedEntry(Lookup(old(store.entries), LegacyEntryKey, entryId).value, u)
    ensures store.entries == UpdateFirst(old(store.entries), LegacyEntryKey, entryId, EntryChange(u))
    ensures store.files == old(store.files)
  {
    var entries, found := UpdateFirstByScan(store.entries, LegacyEntryKey, entryId, EntryChange(u));
    store.entries := entries;
    r := found;
  }

  /** `delete_entry()`: every entry with the id goes, the rest keep their
      order; success is reported whether or not anything matched. */
  method DeleteEntry(store: LegacyStore, entryId: Id) returns (success: bool)
    modifies store
    ensures success
    ensures store.entries == Filter(old(store.entries), KeyIsNot(LegacyEntryKey, entryId))
    ensures store.files == old(store.files)
  {
    store.entries := Filter(store.entries, KeyIsNot(LegacyEntryKey, entryId));
    success := true;
  }

  /** After `delete_entry()` no entry with the id remains, every other entry
      remains with its multiplicity, and the order is kept. */
  lemma DeleteEntryRemovesAll(entries: seq<LegacyEntry>, entryId: Id, e: LegacyEntry)
    ensures Lookup(Filter(entries, KeyIsNot(LegacyEntryKey, entryId)), LegacyEntryKey, entryId).None?
    ensures multiset(Filter(entries, KeyIsNot(LegacyEntryKey, entryId)))[e] == if e.id == entryId then 0 else multiset(entries)[e]
    ensures IsSubsequence(Filter(entries, KeyIsNot(LegacyEntryKey, entryId)), entries)
  {
    RemovedNotFound(entries, LegacyEntryKey, entryId);
    FilterCount(entries, KeyIsNot(LegacyEntryKey, entryId), e);
    FilterIsSubsequence(entries, KeyIsNot(LegacyEntryKey, entryId));
  }
}

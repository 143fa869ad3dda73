/** The file (folder) repository (`File` in models/file.py). Deleting a file
    deletes every entry filed under it. */
module FileRepo {
  import opened Wrappers
  import opened Collections
  import opened Records
  import opened Document
  import EntryRepo

  const DefaultName: string := "ملف جديد"
  const DefaultIcon: string := "📁"
  const DefaultColor: string := "#9d4edd"

  /** `File(user_id, file_id)`: default name, icon and colour, both timestamps
      the construction time. `generated` stands for the uuid4 text. */
  function NewFile(userId: Id, fileId: Option<Id>, generated: Id, now: Timestamp): (f: FileRecord)
    ensures f.id == EntryRepo.ChooseId(fileId, generated) && f.userId == userId
    ensures f.name == DefaultName && f.icon == DefaultIcon && f.color == DefaultColor
    ensures f.createdAt == now && f.updatedAt == now
  {
    FileRecord(EntryRepo.ChooseId(fileId, generated), userId, DefaultName, DefaultIcon, DefaultColor, now, now)
  }

  /** `save()`: replace the stored file with the same id, or append. */
  method Save(store: Store, f: FileRecord) returns (id: Id)
    modifies store
    ensures id == f.id
    ensures store.files == Upsert(old(store.files), FileKey, f)
    ensures store.users == old(store.users) && store.entries == old(store.entries)
  {
    store.files := UpsertByScan(store.files, FileKey, f);
    id := f.id;
  }

  /** `delete()`: the file goes, and with it every entry whose `file_id` is
      this file's id, whoever owns it; users are untouched. */
  method Delete(store: Store, id: Id) returns (ok: bool)
    modifies store
    ensures ok
    ensures store.files == Filter(old(store.files), KeyIsNot(FileKey, id))
    ensures store.entries == Filter(old(store.entries), EntryNotInFile(id))
    ensures store.users == old(store.users)
  {
    store.files := Filter(store.files, KeyIsNot(FileKey, id));
    store.entries := Filter(store.entries, EntryNotInFile(id));
    ok := true;
  }

  /** `get_by_id()`: the first stored file with this id. */
  method GetById(store: Store, id: Id) returns (r: Option<FileRecord>)
    ensures r == Lookup(store.files, FileKey, id)
  {
    r := FindByScan(store.files, FileKey, id);
  }

  /** `get_user_files()`: the user's files, in document order. */
  function UserFiles(files: seq<FileRecord>, userId: Id): (r: seq<FileRecord>)
  {
    Filter(files, FileOwnedBy(userId))
  }

  /** The listing holds every file of the user, with its multiplicity, and no
      other, and keeps the document order. */
  lemma UserFilesExactly(files: seq<FileRecord>, userId: Id, x: FileRecord)
    ensures multiset(UserFiles(files, userId))[x] == if x.userId == userId then multiset(files)[x] else 0
    ensures Collections.IsSubsequence(UserFiles(files, userId), files)
  {
    FilterCount(files, FileOwnedBy(userId), x);
    FilterIsSubsequence(files, FileOwnedBy(userId));
  }

  /** `get_entries_count()`: how many stored entries name this file. */
  function EntriesCount(entries: seq<EntryRecord>, fileId: Id): (n: nat)
    ensures n <= |entries|
  {
    |Filter(entries, EntryInFile(fileId))|
  }

  /** Saving a new entry into a file raises its count by one. */
  lemma {:induction false} CountAfterAppend(entries: seq<EntryRecord>, e: EntryRecord, fileId: Id)
    ensures EntriesCount(entries + [e], fileId) ==
      EntriesCount(entries, fileId) + (if e.fileId == fileId then 1 else 0)
  {
    FilterAppend(entries, [e], EntryInFile(fileId));
    assert Filter([e], EntryInFile(fileId)) == (if e.fileId == fileId then [e] else []) + Filter([e][1..], EntryInFile(fileId));
  }

  /** After deleting a file no entry is left in it, and no entry of any other
      file was removed. */
  lemma DeleteCascades(entries: seq<EntryRecord>, fileId: Id, other: Id)
    requires other != fileId
    ensures EntriesCount(Filter(entries, EntryNotInFile(fileId)), fileId) == 0
    ensures EntriesCount(Filter(entries, EntryNotInFile(fileId)), other) == EntriesCount(entries, other)
  {
    var kept := Filter(entries, EntryNotInFile(fileId));
    assert forall i :: 0 <= i < |kept| ==> !EntryInFile(fileId)(kept[i]);
    FilterNone(kept, EntryInFile(fileId));
    FilterBoth(entries, EntryNotInFile(fileId), EntryInFile(other), EntryInFile(other));
  }

  /** Deleting a file leaves nothing with its id to be found. */
  lemma DeleteThenGetById(files: seq<FileRecord>, id: Id)
    ensures Lookup(Filter(files, KeyIsNot(FileKey, id)), FileKey, id).None?
  {
    RemovedNotFound(files, FileKey, id);
  }

  /** Saving then looking up the saved id finds exactly what was saved. */
  lemma SaveThenGetById(files: seq<FileRecord>, f: FileRecord, other: Id)
    ensures Lookup(Upsert(files, FileKey, f), FileKey, f.id) == Some(f)
    ensures other != f.id ==>
      Lookup(Upsert(files, FileKey, f), FileKey, other) == Lookup(files, FileKey, other)
  {
    UpsertThenLookup(files, FileKey, f);
    if other != f.id {
      UpsertOtherKeys(files, FileKey, f, other);
    }
  }
}

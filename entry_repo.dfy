/** The entry repository (`Entry` in models/entry.py): create, save, delete,
    look up, and list a user's entries newest first. Every operation works on
    the whole document held by the Store. */
module EntryRepo {
  import opened Wrappers
  import opened Collections
  import opened Records
  import opened Document

  const DefaultMood: string := "😊"

  /** The identifier a new record gets: the one supplied when it is a
      non-empty string, otherwise a freshly generated one. */
  function ChooseId(supplied: Option<Id>, generated: Id): (id: Id)
    ensures supplied.Some? && supplied.value != "" ==> id == supplied.value
    ensures (supplied.None? || supplied.value == "") ==> id == generated
  {
    if supplied.Some? && supplied.value != "" then supplied.value else generated
  }

  /** `Entry(user_id, file_id, entry_id)`: the default mood, no elements, both
      timestamps the construction time. `generated` stands for the uuid4 text. */
  function NewEntry(userId: Id, fileId: Id, entryId: Option<Id>, generated: Id, now: Timestamp): (e: EntryRecord)
    ensures e.id == ChooseId(entryId, generated)
    ensures e.userId == userId && e.fileId == fileId
    ensures e.mood == Some(DefaultMood) && e.elements == []
    ensures e.createdAt == now && e.updatedAt == now
  {
    EntryRecord(ChooseId(entryId, generated), userId, fileId, Some(DefaultMood), [], now, now)
  }

  /** `save()`: the entry replaces the stored one with its id, or is appended;
      the other collections are untouched. */
  method Save(store: Store, e: EntryRecord) returns (id: Id)
    modifies store
    ensures id == e.id
    ensures store.entries == Upsert(old(store.entries), EntryKey, e)
    ensures store.users == old(store.users) && store.files == old(store.files)
  {
    store.entries := UpsertByScan(store.entries, EntryKey, e);
    id := e.id;
  }

  /** `delete()`: every entry with this id goes; always reports success. */
  method Delete(store: Store, id: Id) returns (ok: bool)
    modifies store
    ensures ok
    ensures store.entries == Filter(old(store.entries), KeyIsNot(EntryKey, id))
    ensures store.users == old(store.users) && store.files == old(store.files)
  {
    store.entries := Filter(store.entries, KeyIsNot(EntryKey, id));
    ok := true;
  }

  /** `get_by_id()`: the first stored entry with this id. */
  method GetById(store: Store, id: Id) returns (r: Option<EntryRecord>)
    ensures r == Lookup(store.entries, EntryKey, id)
  {
    r := FindByScan(store.entries, EntryKey, id);
  }

  /** Saving and then looking up the saved id finds exactly what was saved;
      other ids see what they saw before. */
  lemma SaveThenGetById(entries: seq<EntryRecord>, e: EntryRecord, other: Id)
    ensures Lookup(Upsert(entries, EntryKey, e), EntryKey, e.id) == Some(e)
    ensures other != e.id ==>
      Lookup(Upsert(entries, EntryKey, e), EntryKey, other) == Lookup(entries, EntryKey, other)
  {
    UpsertThenLookup(entries, EntryKey, e);
    if other != e.id {
      UpsertOtherKeys(entries, EntryKey, e, other);
    }
  }

  /** After a delete the id is no longer found, and only that id's entries went. */
  lemma DeleteThenGetById(entries: seq<EntryRecord>, id: Id)
    ensures Lookup(Filter(entries, KeyIsNot(EntryKey, id)), EntryKey, id).None?
    ensures forall x ::
      multiset(Filter(entries, KeyIsNot(EntryKey, id)))[x] == (if x.id == id then 0 else multiset(entries)[x])
  {
    RemovedNotFound(entries, EntryKey, id);
    forall x
      ensures multiset(Filter(entries, KeyIsNot(EntryKey, id)))[x] == (if x.id == id then 0 else multiset(entries)[x])
    {
      FilterCount(entries, KeyIsNot(EntryKey, id), x);
    }
  }

  /** Ordered by `created_at`, latest first. */
  predicate NewestFirst(s: seq<EntryRecord>) {
    forall i, j :: 0 <= i < j < |s| ==> s[i].createdAt >= s[j].createdAt
  }

  /** The first n cells of the array are ordered latest first. */
  predicate NewestFirstUpTo(a: array<EntryRecord>, n: int)
    reads a
  {
    forall k, l :: 0 <= k < l < n && l < a.Length ==> a[k].createdAt >= a[l].createdAt
  }

  /** Exchange two adjacent cells; the contents as a multiset stay the same. */
  method SwapDown(a: array<EntryRecord>, j: int)
    requires 0 < j < a.Length
    modifies a
    ensures a[..] == old(a[..])[j - 1 := old(a[j])][j := old(a[j - 1])]
    ensures multiset(a[..]) == multiset(old(a[..]))
  {
    a[j - 1], a[j] := a[j], a[j - 1];
  }

  /** One pass of insertion: move a[i] left past every earlier entry created
      before it, and stop at the first one that is not. */
  method SiftLeft(a: array<EntryRecord>, i: int)
    requires 0 <= i < a.Length
    requires NewestFirstUpTo(a, i)
    modifies a
    ensures NewestFirstUpTo(a, i + 1)
    ensures multiset(a[..]) == multiset(old(a[..]))
  {
    var j := i;
    while j > 0 && a[j - 1].createdAt < a[j].createdAt
      invariant 0 <= j <= i
      invariant forall k, l :: 0 <= k < l <= i && k != j && l != j ==> a[k].createdAt >= a[l].createdAt
      invariant forall l :: j < l <= i ==> a[j].createdAt > a[l].createdAt
      invariant multiset(a[..]) == multiset(old(a[..]))
    {
      SwapDown(a, j);
      j := j - 1;
    }
  }

  /** `entries.sort(key=created_at, reverse=True)`, as an in-place insertion
      sort by adjacent swaps that never moves an entry past an equal one. */
  method SortNewestFirst(a: array<EntryRecord>)
    modifies a
    ensures NewestFirst(a[..])
    ensures multiset(a[..]) == multiset(old(a[..]))
  {
    for i := 0 to a.Length
      invariant NewestFirstUpTo(a, i)
      invariant multiset(a[..]) == multiset(old(a[..]))
    {
      SiftLeft(a, i);
    }
  }

  /** Whether a `file_id` argument narrows the listing: only a non-empty one
      does (Python truthiness). */
  predicate Narrows(fileId: Option<Id>) {
    fileId.Some? && fileId.value != ""
  }

  /** The entries `get_user_entries` selects, in document order. */
  function Selected(entries: seq<EntryRecord>, userId: Id, fileId: Option<Id>): (r: seq<EntryRecord>)
  {
    var mine := Filter(entries, EntryOwnedBy(userId));
    if Narrows(fileId) then Filter(mine, EntryInFile(fileId.value)) else mine
  }

  /** An entry is selected, as many times as it is stored, exactly when it
      belongs to the user and, if a file is given, to that file. */
  lemma {:induction false} SelectedExactly(entries: seq<EntryRecord>, userId: Id, fileId: Option<Id>, x: EntryRecord)
    ensures multiset(Selected(entries, userId, fileId))[x] ==
      if x.userId == userId && (Narrows(fileId) ==> x.fileId == fileId.value)
      then multiset(entries)[x] else 0
  {
    var mine := Filter(entries, EntryOwnedBy(userId));
    FilterCount(entries, EntryOwnedBy(userId), x);
    if Narrows(fileId) {
      FilterCount(mine, EntryInFile(fileId.value), x);
    }
  }

  /** `get_user_entries(user_id, file_id)`: the user's entries (of the file,
      when one is given), newest first. */
  method GetUserEntries(store: Store, userId: Id, fileId: Option<Id>) returns (r: seq<EntryRecord>)
    ensures multiset(r) == multiset(Selected(store.entries, userId, fileId))
    ensures NewestFirst(r)
    ensures forall i :: 0 <= i < |r| ==>
      r[i] in store.entries && r[i].userId == userId && (Narrows(fileId) ==> r[i].fileId == fileId.value)
  {
    var chosen := Filter(store.entries, EntryOwnedBy(userId));
    if Narrows(fileId) {
      chosen := Filter(chosen, EntryInFile(fileId.value));
    }
    var a := new EntryRecord[|chosen|](k requires 0 <= k < |chosen| => chosen[k]);
    assert a[..] == chosen;
    SortNewestFirst(a);
    r := a[..];
    forall i | 0 <= i < |r|
      ensures r[i] in store.entries && r[i].userId == userId && (Narrows(fileId) ==> r[i].fileId == fileId.value)
    {
      assert r[i] in multiset(r);
      SelectedExactly(store.entries, userId, fileId, r[i]);
    }
  }
}

/** The single JSON document holding every collection, and its in-memory
    copy. Each repository operation reads the whole document, changes it,
    and writes the whole of it back; the in-memory Store plays both roles. */
module Document {
  import opened Wrappers
  import opened Records

  /** The document's content: `{"users": [...], "files": [...], "entries": [...]}`. */
  datatype Snapshot = Snapshot(users: seq<UserRecord>, files: seq<FileRecord>, entries: seq<EntryRecord>)

  const EmptyDocument: Snapshot := Snapshot([], [], [])

  /** `load_data()`: the stored document, or the empty-collections default.
      `persisted` is None when the file is missing or does not parse. */
  function LoadData(persisted: Option<Snapshot>): (d: Snapshot)
    ensures persisted.None? ==> d.users == [] && d.files == [] && d.entries == []
    ensures persisted.Some? ==> d == persisted.value
  {
    match persisted
    case Some(doc) => doc
    case None => EmptyDocument
  }

  class Store {
    var users: seq<UserRecord>
    var files: seq<FileRecord>
    var entries: seq<EntryRecord>

    function Content(): Snapshot
      reads this
    {
      Snapshot(users, files, entries)
    }

    constructor Load(persisted: Option<Snapshot>)
      ensures Content() == LoadData(persisted)
    {
      var d := LoadData(persisted);
      users, files, entries := d.users, d.files, d.entries;
    }
  }
}

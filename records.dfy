/** The three kinds of record held in the journal document: users, files
    (folders) and entries, and the typed content elements of an entry. */
module Records {
  import opened Wrappers
  import opened Collections

  /** A point in time, in seconds on one clock. The original stores ISO-8601
      strings of one format, which compare in the same order as these numbers. */
  type Timestamp = int

  const SecondsPerDay: nat := 86400

  /** The calendar day of a timestamp (`datetime.date()`), as a day number. */
  function DayOf(t: Timestamp): int {
    t / SecondsPerDay
  }

  lemma DayOfMonotone(s: Timestamp, t: Timestamp)
    requires s <= t
    ensures DayOf(s) <= DayOf(t)
  {
  }

  /** One line of a checklist; a missing or falsy `checked` is false. */
  datatype ChecklistItem = ChecklistItem(text: string, checked: bool)

  /** A content block of an entry, one variant per recognised `type`. A
      checklist without `items` has an empty item list; an element whose
      `type` is missing or is none of the five is Unrecognised. */
  datatype Element =
    | TextBlock(content: string)
    | Checklist(items: seq<ChecklistItem>)
    | Highlight(content: string)
    | Problem(content: string)
    | Achievement(content: string)
    | Unrecognised

  /** The `type` tag of an element, when it is one of the five recognised ones. */
  function TypeName(e: Element): (r: Option<string>)
    ensures r.Some? <==> !e.Unrecognised?
  {
    match e
    case TextBlock(_) => Some("text")
    case Checklist(_) => Some("checklist")
    case Highlight(_) => Some("highlight")
    case Problem(_) => Some("problem")
    case Achievement(_) => Some("achievement")
    case Unrecognised => None
  }

  /** A journal entry. `mood` is None when the stored record has no mood key. */
  datatype EntryRecord = EntryRecord(
    id: Id,
    userId: Id,
    fileId: Id,
    mood: Option<string>,
    elements: seq<Element>,
    createdAt: Timestamp,
    updatedAt: Timestamp)

  /** A file: a named folder of entries. */
  datatype FileRecord = FileRecord(
    id: Id,
    userId: Id,
    name: string,
    icon: string,
    color: string,
    createdAt: Timestamp,
    updatedAt: Timestamp)

  /** A value in a user's settings mapping (theme and language are strings,
      notifications a boolean; unknown keys may hold either). */
  datatype SettingValue = Str(s: string) | Flag(b: bool)

  /** A user as stored, including the derived `full_name`. */
  datatype UserRecord = UserRecord(
    id: Id,
    firstName: string,
    lastName: string,
    fullName: string,
    email: string,
    phone: string,
    about: string,
    avatar: string,
    createdAt: Timestamp,
    lastLogin: Timestamp,
    settings: map<string, SettingValue>)

  function EntryKey(e: EntryRecord): Id { e.id }
  function FileKey(f: FileRecord): Id { f.id }
  function UserKey(u: UserRecord): Id { u.id }
  function UserEmail(u: UserRecord): string { u.email }

  /** Selectors used by the filtering comprehensions. */
  function EntryOwnedBy(userId: Id): EntryRecord -> bool { (e: EntryRecord) => e.userId == userId }
  function EntryInFile(fileId: Id): EntryRecord -> bool { (e: EntryRecord) => e.fileId == fileId }
  function EntryNotInFile(fileId: Id): EntryRecord -> bool { (e: EntryRecord) => e.fileId != fileId }
  function FileOwnedBy(userId: Id): FileRecord -> bool { (f: FileRecord) => f.userId == userId }
}

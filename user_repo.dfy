/** The user model (models/user.py): a user object whose fields are set in
    place and saved into the document, the lookups by id and by email, and
    the storage the user occupies. */
module UserRepo {
  import opened Wrappers
  import opened Text
  import opened Collections
  import opened Records
  import opened Document
  import opened FileManager
  import opened StorageManager
  import EntryRepo

  const DefaultAvatar: string := "/public/default-avatar.png"

  function DefaultSettings(): map<string, SettingValue> {
    map["theme" := Str("dark"), "notifications" := Flag(true), "language" := Str("ar")]
  }

  /** The derived `full_name`: first and last name joined by a space, with
      surrounding whitespace removed. */
  function FullName(firstName: string, lastName: string): string {
    Strip(firstName + " " + lastName)
  }

  predicate Trimmed(s: string) {
    s == [] || (s[0] !in Whitespace && s[|s| - 1] !in Whitespace)
  }

  /** The full name is the two names and the space between them, cut back at
      both ends to the first and last non-whitespace character: two trimmed
      non-empty names give "first last", one missing name gives the other. */
  lemma FullNameShape(firstName: string, lastName: string)
    ensures Trimmed(FullName(firstName, lastName))
    ensures Trimmed(firstName) && Trimmed(lastName) && firstName != [] && lastName != [] ==>
      FullName(firstName, lastName) == firstName + " " + lastName
    ensures Trimmed(firstName) && lastName == [] ==> FullName(firstName, lastName) == firstName
    ensures firstName == [] && Trimmed(lastName) ==> FullName(firstName, lastName) == lastName
  {
    StripIsInfix(firstName + " " + lastName);
    if Trimmed(firstName) && Trimmed(lastName) && firstName != [] && lastName != [] {
      var s := firstName + " " + lastName;
      assert s[0] == firstName[0] && s[|s| - 1] == lastName[|lastName| - 1];
      StripClean(s);
    }
    if Trimmed(firstName) && lastName == [] {
      FullNameOfFirstOnly(firstName);
    }
    if firstName == [] && Trimmed(lastName) {
      FullNameOfLastOnly(lastName);
    }
  }

  /** A trailing no-break space (U+00A0) is whitespace to strip(): the
      first name "x\u00a0" with no last name gives the full name "x". */
  lemma NoBreakSpaceStripped()
    ensures FullName("x" + [0xa0 as char], "") == "x"
  {
    var s := "x" + [0xa0 as char] + " " + "";
    assert LStrip(s, Whitespace) == s;
    assert s[..2] == "x" + [0xa0 as char] && s[..2][..1] == "x";
    assert RStrip(s, Whitespace) == RStrip(s[..2], Whitespace);
    assert RStrip(s[..2], Whitespace) == RStrip("x", Whitespace);
  }

  lemma FullNameOfFirstOnly(firstName: string)
    requires Trimmed(firstName)
    ensures FullName(firstName, "") == firstName
  {
    var s := firstName + " " + "";
    assert s == firstName + " ";
    assert s[..|s| - 1] == firstName;
    if firstName != [] {
      assert s[0] == firstName[0];
      assert LStrip(s, Whitespace) == s;
      assert RStrip(s, Whitespace) == RStrip(firstName, Whitespace);
    } else {
      assert s == " ";
      assert LStrip(s, Whitespace) == LStrip(s[1..], Whitespace);
    }
  }

  lemma FullNameOfLastOnly(lastName: string)
    requires Trimmed(lastName)
    ensures FullName("", lastName) == lastName
  {
    var s := "" + " " + lastName;
    assert s == " " + lastName;
    assert s[0] == ' ' && s[1..] == lastName;
    assert LStrip(s, Whitespace) == LStrip(lastName, Whitespace);
    if lastName != [] {
      assert LStrip(lastName, Whitespace) == lastName;
      assert RStrip(lastName, Whitespace) == lastName;
    }
  }

  /** A stored record with its `full_name` recomputed from its names, as
      `to_dict()` of a loaded user produces it. */
  function Normalised(u: UserRecord): UserRecord {
    u.(fullName := FullName(u.firstName, u.lastName))
  }

  /** The avatar's share of the usage: the file the `avatar` URL points at,
      unless the avatar is empty or the default image. */
  function AvatarBytes(avatar: string, disk: Disk): nat {
    if avatar != "" && avatar != DefaultAvatar then FileSize(disk, LStrip(avatar, {'/'})) else 0
  }

  class User {
    var id: Id
    var firstName: string
    var lastName: string
    var email: string
    var phone: string
    var about: string
    var avatar: string
    var createdAt: Timestamp
    var lastLogin: Timestamp
    var settings: map<string, SettingValue>

    /** `User(user_id)`: empty names and contact fields, the default avatar
        and settings, and both timestamps the construction time.
        `generated` stands for the uuid4 text. */
    constructor (userId: Option<Id>, generated: Id, now: Timestamp)
      ensures id == EntryRepo.ChooseId(userId, generated)
      ensures firstName == "" && lastName == "" && email == "" && phone == "" && about == ""
      ensures avatar == DefaultAvatar && settings == DefaultSettings()
      ensures createdAt == now && lastLogin == now
    {
      id := EntryRepo.ChooseId(userId, generated);
      firstName, lastName, email, phone, about := "", "", "", "", "";
      avatar := DefaultAvatar;
      createdAt, lastLogin := now, now;
      settings := DefaultSettings();
    }

    /** A user loaded from a stored record (`__dict__.update`). The stored
        `full_name` is not a field of the object: `to_dict()` derives it. */
    constructor FromRecord(u: UserRecord)
      ensures ToDict() == Normalised(u)
    {
      id, firstName, lastName := u.id, u.firstName, u.lastName;
      email, phone, about, avatar := u.email, u.phone, u.about, u.avatar;
      createdAt, lastLogin, settings := u.createdAt, u.lastLogin, u.settings;
    }

    /** `to_dict()`: the stored form, whose `full_name` always agrees with
        its names. */
    function ToDict(): (r: UserRecord)
      reads this
      ensures r.id == id && r.email == email
      ensures r.fullName == FullName(r.firstName, r.lastName)
      ensures Normalised(r) == r
    {
      UserRecord(id, firstName, lastName, FullName(firstName, lastName), email, phone, about, avatar,
        createdAt, lastLogin, settings)
    }

    /** `save()`: replace the stored user with this id in place, or append;
        files and entries are untouched. */
    method Save(store: Store) returns (savedId: Id)
      modifies store
      ensures savedId == id
      ensures store.users == Upsert(old(store.users), UserKey, ToDict())
      ensures store.files == old(store.files) && store.entries == old(store.entries)
    {
      store.users := UpsertByScan(store.users, UserKey, ToDict());
      savedId := id;
    }

    /** `update_last_login()`: only the login time changes, then the user is saved. */
    method UpdateLastLogin(store: Store, now: Timestamp)
      modifies this, store
      ensures lastLogin == now
      ensures ToDict() == old(ToDict()).(lastLogin := now)
      ensures store.users == Upsert(old(store.users), UserKey, ToDict())
      ensures store.files == old(store.files) && store.entries == old(store.entries)
    {
      lastLogin := now;
      var _ := Save(store);
    }

    /** `get_storage_usage()`: twice the serialised length of each of the
        user's entries, plus the avatar file when the avatar is a custom one
        and the file exists. */
    method GetStorageUsage(store: Store, jsonLength: EntryRecord -> nat, disk: Disk) returns (total: nat)
      ensures total == Footprint(Filter(store.entries, EntryOwnedBy(id)), jsonLength) + AvatarBytes(avatar, disk)
    {
      var mine := Filter(store.entries, EntryOwnedBy(id));
      total := 0;
      for i := 0 to |mine|
        invariant total == Footprint(mine[..i], jsonLength)
      {
        assert mine[..i + 1][..i] == mine[..i];
        total := total + 2 * jsonLength(mine[i]);
      }
      assert mine[..|mine|] == mine;
      if avatar != "" && avatar != DefaultAvatar {
        var path := LStrip(avatar, {'/'});
        if path in disk {
          total := total + disk[path];
        }
      }
    }

    /** `get_formatted_storage()`: the usage in the units of `format_size`. */
    method GetFormattedStorage(store: Store, jsonLength: EntryRecord -> nat, disk: Disk) returns (s: string)
      ensures s == FormatSize(Footprint(Filter(store.entries, EntryOwnedBy(id)), jsonLength) + AvatarBytes(avatar, disk))
    {
      var size := GetStorageUsage(store, jsonLength, disk);
      s := FormatSize(size);
      ghost var usage := Footprint(Filter(store.entries, EntryOwnedBy(id)), jsonLength) + AvatarBytes(avatar, disk);
      assert s == FormatSize(usage) by {
        assert size == usage;
      }
    }
  }

  /** With the default avatar, the usage is the entries' footprint alone and
      is even. */
  lemma DefaultAvatarUsageEven(entries: seq<EntryRecord>, jsonLength: EntryRecord -> nat, disk: Disk, avatar: string)
    requires avatar == DefaultAvatar || avatar == ""
    ensures (Footprint(entries, jsonLength) + AvatarBytes(avatar, disk)) % 2 == 0
  {
    FootprintEven(entries, jsonLength);
  }

  /** For a user whose avatar was uploaded, the user model and the storage
      manager measure the same total. */
  lemma UsageAgreesAfterUpload(userId: Id, disk: Disk)
    ensures AvatarBytes(AvatarUrl(userId), disk) == FileSize(disk, AvatarPath(userId))
  {
    AvatarUrlLeadsToPath(userId);
    assert AvatarUrl(userId)[8] == 'a' && DefaultAvatar[8] == 'd';
  }

  /** `get_by_id()`: a user loaded from the first stored record with this id. */
  method GetById(store: Store, userId: Id) returns (u: User?)
    ensures Lookup(store.users, UserKey, userId).None? ==> u == null
    ensures Lookup(store.users, UserKey, userId).Some? ==>
      u != null && fresh(u) && u.ToDict() == Normalised(Lookup(store.users, UserKey, userId).value)
  {
    var found := FindByScan(store.users, UserKey, userId);
    if found.Some? {
      u := new User.FromRecord(found.value);
    } else {
      u := null;
    }
  }

  /** `get_by_email()`: a user loaded from the first stored record, in
      document order, with this email. */
  method GetByEmail(store: Store, email: string) returns (u: User?)
    ensures Lookup(store.users, UserEmail, email).None? ==> u == null
    ensures Lookup(store.users, UserEmail, email).Some? ==>
      u != null && fresh(u) && u.ToDict() == Normalised(Lookup(store.users, UserEmail, email).value)
  {
    var found := FindByScan(store.users, UserEmail, email);
    if found.Some? {
      u := new User.FromRecord(found.value);
    } else {
      u := null;
    }
  }

  /** What a user saves is what a later lookup of its id loads back. */
  lemma SaveThenGetById(users: seq<UserRecord>, saved: UserRecord)
    requires Normalised(saved) == saved
    ensures Lookup(Upsert(users, UserKey, saved), UserKey, saved.id) == Some(saved)
    ensures Normalised(Lookup(Upsert(users, UserKey, saved), UserKey, saved.id).value) == saved
  {
    UpsertThenLookup(users, UserKey, saved);
  }
}

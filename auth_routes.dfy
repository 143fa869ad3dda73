/** Account handling in the authentication routes (api/auth_routes.py):
    the upload-extension check, registration with its validation and
    duplicate-email gate, the partial profile update, and the avatar upload.
    Request bodies are modelled as records of optional fields; the image
    optimiser is modelled by its outcome (the size of the JPEG it produced,
    or nothing when it failed). */
module AuthRoutes {
  import opened Wrappers
  import opened Text
  import opened Collections
  import opened Records
  import opened Document
  import opened FileManager
  import opened StorageManager
  import opened UserRepo

  // ---- Upload extensions ----

  const AllowedExtensions: set<string> := {"png", "jpg", "jpeg", "gif", "webp"}

  /** The text after the last '.', or the whole name when there is none. */
  function Extension(name: string): (r: string)
    ensures |r| <= |name| && r == name[|name| - |r|..]
    ensures '.' !in r
    ensures '.' in name ==> |r| < |name| && name[|name| - |r| - 1] == '.'
    ensures '.' !in name ==> r == name
  {
    if name == [] || name[|name| - 1] == '.' then []
    else
      assert name == name[..|name| - 1] + [name[|name| - 1]];
      Extension(name[..|name| - 1]) + [name[|name| - 1]]
  }

  /** `allowed_file()`: the name has a dot and, lower-cased, the text after
      its last dot is one of the five image extensions. */
  function AllowedFile(name: string): bool {
    '.' in name && Lower(Extension(name)) in AllowedExtensions
  }

  /** A name is allowed exactly when it has a dot at some position, no dot
      after it, and an allowed extension after it. */
  lemma AllowedFileSpec(name: string)
    ensures AllowedFile(name) <==>
      exists i :: 0 <= i < |name| && name[i] == '.' && '.' !in name[i + 1..] && Lower(name[i + 1..]) in AllowedExtensions
  {
    var e := Extension(name);
    if '.' in name {
      var i := |name| - |e| - 1;
      assert name[i + 1..] == e;
      forall j | 0 <= j < |name| && name[j] == '.' && '.' !in name[j + 1..]
        ensures j == i
      {
      }
    }
  }

  // ---- Registration ----

  /** An uploaded image: its file name and what the optimiser made of it. */
  datatype Upload = Upload(filename: string, optimized: Option<nat>)

  /** The registration form; a missing field is the empty text. */
  datatype RegisterForm = RegisterForm(
    firstName: string, lastName: string, email: string, phone: string, about: string,
    avatar: Option<Upload>)

  datatype RegisterOutcome = MissingFields | EmailTaken | Registered(user: UserRecord)

  /** The upload is stored as the avatar: a named file with an allowed
      extension that the optimiser could process. */
  predicate Accepted(up: Option<Upload>) {
    up.Some? && up.value.filename != "" && AllowedFile(up.value.filename) && up.value.optimized.Some?
  }

  /** A required field (first name, last name, email, phone) is empty. */
  predicate MissingRequired(form: RegisterForm) {
    form.firstName == "" || form.lastName == "" || form.email == "" || form.phone == ""
  }

  /** The record a successful registration stores: the form's fields, the
      uploaded avatar's URL when it was accepted (the default one otherwise),
      the default settings, and the registration time for both timestamps. */
  function Registration(form: RegisterForm, generated: Id, now: Timestamp): UserRecord {
    UserRecord(generated, form.firstName, form.lastName, FullName(form.firstName, form.lastName),
      form.email, form.phone, form.about,
      if Accepted(form.avatar) then AvatarUrl(generated) else DefaultAvatar,
      now, now, DefaultSettings())
  }

  /** The disk after registration: an accepted avatar is written under the
      new id, nothing otherwise. */
  function RegistrationDisk(disk: Disk, form: RegisterForm, generated: Id): Disk {
    if Accepted(form.avatar) then disk[AvatarPath(generated) := form.avatar.value.optimized.value] else disk
  }

  /** The user object `register()` builds before saving it. */
  method NewUser(disk: Disk, form: RegisterForm, generated: Id, now: Timestamp) returns (user: User, disk': Disk)
    ensures fresh(user)
    ensures user.ToDict() == Registration(form, generated, now)
    ensures disk' == RegistrationDisk(disk, form, generated)
  {
    disk' := disk;
    user := new User(None, generated, now);
    FillForm(user, form);
    if form.avatar.Some? {
      var file := form.avatar.value;
      if file.filename != "" && AllowedFile(file.filename) {
        if file.optimized.Some? {
          var saved := SaveAvatar(disk, user.id, file.optimized.value);
          disk' := saved.0;
          user.avatar := saved.1;
        }
      }
    }
  }

  /** The assignments of the form's fields to the new user. */
  method FillForm(user: User, form: RegisterForm)
    modifies user
    ensures user.firstName == form.firstName && user.lastName == form.lastName && user.email == form.email
    ensures user.phone == form.phone && user.about == form.about
    ensures user.id == old(user.id) && user.avatar == old(user.avatar) && user.settings == old(user.settings)
    ensures user.createdAt == old(user.createdAt) && user.lastLogin == old(user.lastLogin)
  {
    user.firstName := form.firstName;
    user.lastName := form.lastName;
    user.email := form.email;
    user.phone := form.phone;
    user.about := form.about;
  }

  /** `register()`: a form with an empty required field is refused, then a
      form whose email is already registered, in both cases saving nothing;
      otherwise the new user is saved. `generated` stands for the uuid4 text
      and `now` for the clock. */
  method Register(store: Store, disk: Disk, form: RegisterForm, generated: Id, now: Timestamp)
    returns (outcome: RegisterOutcome, disk': Disk)
    modifies store
    ensures MissingRequired(form) ==> outcome == MissingFields
    ensures !MissingRequired(form) && Lookup(old(store.users), UserEmail, form.email).Some? ==> outcome == EmailTaken
    ensures !MissingRequired(form) && Lookup(old(store.users), UserEmail, form.email).None? ==>
      outcome == Registered(Registration(form, generated, now))
    ensures !outcome.Registered? ==> store.Content() == old(store.Content()) && disk' == disk
    ensures outcome.Registered? ==>
      && store.users == Upsert(old(store.users), UserKey, outcome.user)
      && store.files == old(store.files) && store.entries == old(store.entries)
      && disk' == RegistrationDisk(disk, form, generated)
  {
    disk' := disk;
    if MissingRequired(form) {
      return MissingFields, disk';
    }
    var existing := GetByEmail(store, form.email);
    if existing != null {
      return EmailTaken, disk';
    }
    var user;
    user, disk' := NewUser(disk, form, generated, now);
    var _ := user.Save(store);
    outcome := Registered(user.ToDict());
  }

  /** A registration leaves its email taken: a second registration with the
      same email is refused. */
  lemma RegisteredEmailIsTaken(users: seq<UserRecord>, form: RegisterForm, generated: Id, now: Timestamp)
    ensures Lookup(Upsert(users, UserKey, Registration(form, generated, now)), UserEmail, form.email).Some?
  {
    var r := Registration(form, generated, now);
    var after := Upsert(users, UserKey, r);
    var k: nat := if FindIndex(users, UserKey, r.id).Some? then FindIndex(users, UserKey, r.id).value else |users|;
    assert k < |after| && after[k] == r;
    LookupSpec(after, UserEmail, form.email);
  }

  // ---- Profile update ----

  /** The JSON body of a profile update; absent keys are `None`. */
  datatype UserUpdate = UserUpdate(
    firstName: Option<string>, lastName: Option<string>, phone: Option<string>, about: Option<string>,
    settings: Option<map<string, SettingValue>>)

  /** The stored user after an update: each field present in the body
      replaces the old value, settings are merged key by key, and the full
      name follows the names. */
  function Merge(u: UserRecord, d: UserUpdate): (r: UserRecord)
    ensures r.id == u.id && r.email == u.email && r.avatar == u.avatar
    ensures r.createdAt == u.createdAt && r.lastLogin == u.lastLogin
    ensures r.firstName == (if d.firstName.Some? then d.firstName.value else u.firstName)
    ensures r.lastName == (if d.lastName.Some? then d.lastName.value else u.lastName)
    ensures r.phone == (if d.phone.Some? then d.phone.value else u.phone)
    ensures r.about == (if d.about.Some? then d.about.value else u.about)
    ensures r.fullName == FullName(r.firstName, r.lastName)
  {
    var firstName := if d.firstName.Some? then d.firstName.value else u.firstName;
    var lastName := if d.lastName.Some? then d.lastName.value else u.lastName;
    u.(firstName := firstName, lastName := lastName,
      fullName := FullName(firstName, lastName),
      phone := if d.phone.Some? then d.phone.value else u.phone,
      about := if d.about.Some? then d.about.value else u.about,
      settings := if d.settings.Some? then MergeSettings(u.settings, d.settings.value) else u.settings)
  }

  /** `dict.update()`: the new mapping's values win. */
  function MergeSettings(current: map<string, SettingValue>, update: map<string, SettingValue>): map<string, SettingValue> {
    current + update
  }

  /** `settings.update()`: keys in the body take the body's value, every
      other existing key keeps its value, and no other key appears. */
  lemma SettingsMerged(u: UserRecord, d: UserUpdate, key: string)
    ensures d.settings.Some? && key in d.settings.value ==>
      key in Merge(u, d).settings && Merge(u, d).settings[key] == d.settings.value[key]
    ensures (d.settings.None? || key !in d.settings.value) && key in u.settings ==>
      key in Merge(u, d).settings && Merge(u, d).settings[key] == u.settings[key]
    ensures key in Merge(u, d).settings ==> key in u.settings || (d.settings.Some? && key in d.settings.value)
  {
  }

  /** An empty body changes nothing but the derived full name. */
  lemma EmptyUpdateKeepsUser(u: UserRecord)
    ensures Merge(u, UserUpdate(None, None, None, None, None)) == Normalised(u)
  {
  }

  /** The assignments of `update_user()` on the loaded user: each field
      present in the body is set, and the settings are updated. */
  method ApplyUpdate(user: User, d: UserUpdate)
    modifies user
    ensures user.ToDict() == Merge(old(user.ToDict()), d)
  {
    ghost var before := user.ToDict();
    UpdateNames(user, d);
    UpdateDetails(user, d);
    assert user.ToDict() == Merge(before, d);
  }

  /** The first two assignments: the names given in the body. */
  method UpdateNames(user: User, d: UserUpdate)
    modifies user
    ensures user.firstName == (if d.firstName.Some? then d.firstName.value else old(user.firstName))
    ensures user.lastName == (if d.lastName.Some? then d.lastName.value else old(user.lastName))
    ensures user.id == old(user.id) && user.email == old(user.email) && user.phone == old(user.phone)
    ensures user.about == old(user.about) && user.avatar == old(user.avatar) && user.settings == old(user.settings)
    ensures user.createdAt == old(user.createdAt) && user.lastLogin == old(user.lastLogin)
  {
    if d.firstName.Some? {
      user.firstName := d.firstName.value;
    }
    if d.lastName.Some? {
      user.lastName := d.lastName.value;
    }
  }

  /** The remaining assignments: phone and about when given, then the
      settings merged with the body's. */
  method UpdateDetails(user: User, d: UserUpdate)
    modifies user
    ensures user.phone == (if d.phone.Some? then d.phone.value else old(user.phone))
    ensures user.about == (if d.about.Some? then d.about.value else old(user.about))
    ensures user.settings == (if d.settings.Some? then MergeSettings(old(user.settings), d.settings.value) else old(user.settings))
    ensures user.id == old(user.id) && user.email == old(user.email) && user.firstName == old(user.firstName)
    ensures user.lastName == old(user.lastName) && user.avatar == old(user.avatar)
    ensures user.createdAt == old(user.createdAt) && user.lastLogin == old(user.lastLogin)
  {
    if d.phone.Some? {
      user.phone := d.phone.value;
    }
    if d.about.Some? {
      user.about := d.about.value;
    }
    if d.settings.Some? {
      user.settings := MergeSettings(user.settings, d.settings.value);
    }
  }

  /** `update_user()`: not found when no user has the id, saving nothing;
      otherwise the merged user replaces the stored one. */
  method UpdateUser(store: Store, userId: Id, d: UserUpdate) returns (found: bool)
    modifies store
    ensures found <==> Lookup(old(store.users), UserKey, userId).Some?
    ensures !found ==> store.Content() == old(store.Content())
    ensures found ==>
      store.users == Upsert(old(store.users), UserKey, Merge(Normalised(Lookup(old(store.users), UserKey, userId).value), d))
    ensures store.files == old(store.files) && store.entries == old(store.entries)
  {
    var user := GetById(store, userId);
    if user == null {
      return false;
    }
    ApplyUpdate(user, d);
    var _ := user.Save(store);
    found := true;
  }

  // ---- Avatar upload ----

  datatype AvatarOutcome = UserNotFound | NoFile | InvalidFile | UnsupportedType | ProcessingFailed | Updated(url: string)

  /** The disk after replacing a user's avatar: the file of a custom old
      avatar is removed when it exists, then the new image is written under
      the user's id. */
  function ReplaceAvatar(disk: Disk, oldAvatar: string, userId: Id, size: nat): (d: Disk)
    ensures FileSize(d, AvatarPath(userId)) == size
  {
    var oldPath := LStrip(oldAvatar, {'/'});
    var cleared := if oldAvatar != "" && oldAvatar != DefaultAvatar && oldPath in disk then disk - {oldPath} else disk;
    cleared[AvatarPath(userId) := size]
  }

  /** Only the old avatar's file and the new one are touched, and the file
      of a custom old avatar at another path is gone afterwards. */
  lemma ReplaceAvatarFrame(disk: Disk, oldAvatar: string, userId: Id, size: nat, p: string)
    ensures p != AvatarPath(userId) && p != LStrip(oldAvatar, {'/'}) ==>
      FileSize(ReplaceAvatar(disk, oldAvatar, userId, size), p) == FileSize(disk, p)
    ensures oldAvatar != "" && oldAvatar != DefaultAvatar && p == LStrip(oldAvatar, {'/'}) && p != AvatarPath(userId) ==>
      p !in ReplaceAvatar(disk, oldAvatar, userId, size)
  {
  }

  /** The replacement step of `update_avatar()` on the loaded user. */
  method StoreAvatar(user: User, disk: Disk, size: nat) returns (disk': Disk)
    modifies user
    ensures disk' == ReplaceAvatar(disk, old(user.avatar), user.id, size)
    ensures user.ToDict() == old(user.ToDict()).(avatar := AvatarUrl(user.id))
  {
    ghost var settings := user.settings;
    disk' := disk;
    if user.avatar != "" && user.avatar != DefaultAvatar {
      var oldPath := LStrip(user.avatar, {'/'});
      if oldPath in disk' {
        disk' := disk' - {oldPath};
      }
    }
    disk' := disk'[AvatarPath(user.id) := size];
    user.avatar := AvatarUrl(user.id);
    assert user.settings == settings;
  }

  /** `update_avatar()`: the error cases in the order they are checked,
      saving nothing, then the replacement, with the user's `avatar` set to
      the new URL. */
  method UpdateAvatar(store: Store, disk: Disk, userId: Id, upload: Option<Upload>)
    returns (outcome: AvatarOutcome, disk': Disk)
    modifies store
    ensures Lookup(old(store.users), UserKey, userId).None? ==> outcome == UserNotFound
    ensures Lookup(old(store.users), UserKey, userId).Some? ==>
      outcome == (if upload.None? then NoFile
        else if upload.value.filename == "" then InvalidFile
        else if !AllowedFile(upload.value.filename) then UnsupportedType
        else if upload.value.optimized.None? then ProcessingFailed
        else Updated(AvatarUrl(userId)))
    ensures !outcome.Updated? ==> store.Content() == old(store.Content()) && disk' == disk
    ensures outcome.Updated? ==>
      var u := Normalised(Lookup(old(store.users), UserKey, userId).value);
      && disk' == ReplaceAvatar(disk, u.avatar, userId, upload.value.optimized.value)
      && store.users == Upsert(old(store.users), UserKey, u.(avatar := AvatarUrl(userId)))
      && store.files == old(store.files) && store.entries == old(store.entries)
  {
    disk' := disk;
    var user := GetById(store, userId);
    if user == null {
      return UserNotFound, disk';
    }
    LookupSpec(store.users, UserKey, userId);
    if upload.None? {
      return NoFile, disk';
    }
    var file := upload.value;
    if file.filename == "" {
      return InvalidFile, disk';
    }
    if !AllowedFile(file.filename) {
      return UnsupportedType, disk';
    }
    if file.optimized.None? {
      return ProcessingFailed, disk';
    }
    disk' := StoreAvatar(user, disk', file.optimized.value);
    var _ := user.Save(store);
    outcome := Updated(user.avatar);
  }
}

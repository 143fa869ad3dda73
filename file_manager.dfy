/** Housekeeping over directories (utils/file_manager.py): file sizes, the
    rotation of data backups, and the removal of stale avatar images. A
    directory is modelled by its listing; deleting a file removes its name. */
module FileManager {
  import opened Collections
  import opened Records
  import opened Sorting

  /** Byte sizes of the files that exist, by path. */
  type Disk = map<string, nat>

  /** `get_file_size()`: the size of an existing file, 0 for a missing one. */
  function FileSize(disk: Disk, path: string): (n: nat)
    ensures path !in disk ==> n == 0
    ensures path in disk ==> n == disk[path]
  {
    if path in disk then disk[path] else 0
  }

  const BackupPrefix: string := "mindbox_data_"
  const BackupSuffix: string := ".json"

  /** How many backups the rotation keeps. */
  const KeptBackups: nat := 10

  /** Names matched by the pattern `mindbox_data_*.json`. */
  predicate IsBackupName(n: string) {
    |n| >= |BackupPrefix| + |BackupSuffix|
    && n[..|BackupPrefix|] == BackupPrefix
    && n[|n| - |BackupSuffix|..] == BackupSuffix
  }

  /** The name of the copy made at a given `%Y%m%d_%H%M%S` stamp. */
  function BackupName(stamp: string): (n: string)
  {
    BackupPrefix + stamp + BackupSuffix
  }

  /** Every stamped copy is itself matched by the backup pattern, so it takes
      part in the rotation. */
  lemma BackupNameMatches(stamp: string)
    ensures IsBackupName(BackupName(stamp))
  {
    var n := BackupName(stamp);
    assert n[..|BackupPrefix|] == BackupPrefix;
    assert n[|n| - |BackupSuffix|..] == BackupSuffix;
  }

  function IsBackup(): string -> bool {
    n => IsBackupName(n)
  }

  function NotIn(doomed: seq<string>): string -> bool {
    n => n !in doomed
  }

  /** The listing after copying to `dest`: a copy onto an existing name
      overwrites it, otherwise the name is new. */
  function WithCopy(names: seq<string>, dest: string): (r: seq<string>)
    ensures dest in r && forall n :: n in names ==> n in r
    ensures forall n :: n in r ==> n in names || n == dest
  {
    if dest in names then names else names + [dest]
  }

  /** The backups, in sorted order: the names matching the pattern. */
  function SortedBackups(names: seq<string>): seq<string> {
    Sort(Filter(names, IsBackup()), LexLe)
  }

  /** Of a sorted list of backups, the ones the rotation deletes: all but the
      last ten (`backups[:-10]` when there are more than ten). */
  function DoomedOf(b: seq<string>): seq<string> {
    if |b| > KeptBackups then b[..|b| - KeptBackups] else []
  }

  /** Of a sorted list of backups, the ones the rotation keeps. */
  function SparedOf(b: seq<string>): seq<string> {
    if |b| > KeptBackups then b[|b| - KeptBackups..] else b
  }

  function Doomed(names: seq<string>): seq<string> {
    DoomedOf(SortedBackups(names))
  }

  function Spared(names: seq<string>): seq<string> {
    SparedOf(SortedBackups(names))
  }

  class BackupDir {
    var names: seq<string>

    constructor (names: seq<string>)
      ensures this.names == names
    {
      this.names := names;
    }
  }

  /** `backup_data()`: nothing when the data file is absent; otherwise copy it
      to a stamped name, then delete the oldest backups, in sorted-name order,
      until ten remain. */
  method BackupData(dir: BackupDir, sourceExists: bool, stamp: string)
    modifies dir
    ensures !sourceExists ==> dir.names == old(dir.names)
    ensures sourceExists ==>
      var listed := WithCopy(old(dir.names), BackupName(stamp));
      dir.names == Filter(listed, NotIn(Doomed(listed)))
  {
    if !sourceExists {
      return;
    }
    var listed := WithCopy(dir.names, BackupName(stamp));
    dir.names := listed;
    var backups := Sort(Filter(listed, IsBackup()), LexLe);
    if |backups| > KeptBackups {
      assert Doomed(listed) == backups[..|backups| - KeptBackups];
      DeleteAll(dir, backups[..|backups| - KeptBackups]);
    } else {
      assert Doomed(listed) == [];
      FilterKeepsAll(listed, NotIn([]));
    }
  }

  function NameIsNot(doomed: string): string -> bool {
    n => n != doomed
  }

  /** The unlink loop: delete the given names one at a time. */
  method DeleteAll(dir: BackupDir, doomed: seq<string>)
    modifies dir
    ensures dir.names == Filter(old(dir.names), NotIn(doomed))
  {
    ghost var listed := dir.names;
    FilterKeepsAll(listed, NotIn([]));
    for i := 0 to |doomed|
      invariant dir.names == Filter(listed, NotIn(doomed[..i]))
    {
      assert doomed[..i + 1] == doomed[..i] + [doomed[i]];
      FilterBoth(listed, NotIn(doomed[..i]), NameIsNot(doomed[i]), NotIn(doomed[..i + 1]));
      dir.names := Filter(dir.names, NameIsNot(doomed[i]));
    }
    assert doomed[..|doomed|] == doomed;
  }

  /** With ten backups or fewer the rotation deletes nothing. */
  lemma NoRotationUpToTen(listed: seq<string>)
    requires |Filter(listed, IsBackup())| <= KeptBackups
    ensures Doomed(listed) == []
    ensures Filter(listed, NotIn(Doomed(listed))) == listed
  {
    FilterKeepsAll(listed, NotIn([]));
  }

  /** The sorted backups split into the deleted prefix and the kept suffix. */
  lemma SplitOfSorted(listed: seq<string>)
    ensures SortedBackups(listed) == Doomed(listed) + Spared(listed)
    ensures |Spared(listed)| <= KeptBackups
  {
    SplitOfBackups(SortedBackups(listed));
  }

  lemma SplitOfBackups(b: seq<string>)
    ensures b == DoomedOf(b) + SparedOf(b)
    ensures |SparedOf(b)| <= KeptBackups
  {
    if |b| > KeptBackups {
      assert b == b[..|b| - KeptBackups] + b[|b| - KeptBackups..];
    }
  }

  /** After rotation every remaining backup is one of the ten greatest names. */
  lemma {:induction false} RotationKeepsOnlySpared(listed: seq<string>, x: string)
    requires x in Filter(listed, NotIn(Doomed(listed))) && IsBackupName(x)
    ensures x in Spared(listed)
  {
    var f := Filter(listed, IsBackup());
    var b := Sort(f, LexLe);
    SplitOfSorted(listed);
    assert x in f;
    assert x in multiset(b);
    assert x in b;
    assert x !in Doomed(listed);
  }

  /** Every deleted backup sorts before every kept one. */
  lemma {:induction false} RotationDeletesOldest(listed: seq<string>, x: string, y: string)
    requires x in Spared(listed) && y in Doomed(listed)
    ensures LexLe(y, x)
  {
    LexOrderIsTotalPreorder();
    SortSorted(Filter(listed, IsBackup()), LexLe);
    SortedSplit(SortedBackups(listed), x, y);
  }

  /** In a sorted list of backups, the deleted prefix sorts below the kept
      suffix. */
  lemma SortedSplit(b: seq<string>, x: string, y: string)
    requires SortedBy(b, LexLe)
    requires x in SparedOf(b) && y in DoomedOf(b)
    ensures LexLe(y, x)
  {
    var cut := |b| - KeptBackups;
    var i :| 0 <= i < cut && b[i] == y;
    var j :| cut <= j < |b| && b[j] == x;
  }

  /** At most ten distinct backup names survive the rotation. */
  lemma RotationKeepsAtMostTen(listed: seq<string>)
    ensures |set x | x in Filter(listed, NotIn(Doomed(listed))) && IsBackupName(x)| <= KeptBackups
  {
    var kept := set x | x in Filter(listed, NotIn(Doomed(listed))) && IsBackupName(x);
    forall x | x in kept
      ensures x in Spared(listed)
    {
      RotationKeepsOnlySpared(listed, x);
    }
    SubsetOfSequence(kept, Spared(listed));
    SplitOfSorted(listed);
  }

  /** An avatar image's name and last modification time. */
  class AvatarDir {
    var files: map<string, Timestamp>

    constructor (files: map<string, Timestamp>)
      ensures this.files == files
    {
      this.files := files;
    }
  }

  /** Names matched by the pattern `*.jpg`. */
  predicate IsJpg(n: string) {
    |n| >= 4 && n[|n| - 4..] == ".jpg"
  }

  /** The file name without its `.jpg` suffix; a name that is only the
      suffix is a hidden file without an extension and is its own stem. */
  function Stem(n: string): string
    requires IsJpg(n)
  {
    if n == ".jpg" then n else n[..|n| - 4]
  }

  /** The ids of every stored user. */
  function ActiveIds(users: seq<UserRecord>): (ids: set<Id>)
    ensures forall i :: 0 <= i < |users| ==> users[i].id in ids
    ensures forall id :: id in ids ==> exists i :: 0 <= i < |users| && users[i].id == id
  {
    set i | 0 <= i < |users| :: users[i].id
  }

  /** A file `clean_old_avatars` deletes: a `.jpg` whose stem is no user's id
      and that was last modified before the cutoff. */
  predicate Stale(n: string, mtime: Timestamp, active: set<Id>, cutoff: Timestamp) {
    IsJpg(n) && Stem(n) !in active && mtime < cutoff
  }

  function Survivors(files: map<string, Timestamp>, active: set<Id>, cutoff: Timestamp): (r: map<string, Timestamp>)
  {
    map n | n in files && !Stale(n, files[n], active, cutoff) :: files[n]
  }

  /** Every avatar of a stored user survives the clean-up, whatever its age,
      and so does every recent file; only stale files go. */
  lemma ActiveAvatarsSurvive(files: map<string, Timestamp>, users: seq<UserRecord>, cutoff: Timestamp, i: nat, n: string)
    requires i < |users| && n in files && IsJpg(n) && Stem(n) == users[i].id
    ensures n in Survivors(files, ActiveIds(users), cutoff)
    ensures Survivors(files, ActiveIds(users), cutoff)[n] == files[n]
  {
  }

  /** `clean_old_avatars(days)`: nothing when the directory is absent;
      otherwise delete, one at a time, every stale `.jpg`. */
  method CleanOldAvatars(dir: AvatarDir, dirExists: bool, users: seq<UserRecord>, now: Timestamp, days: int)
    modifies dir
    ensures !dirExists ==> dir.files == old(dir.files)
    ensures dirExists ==> dir.files == Survivors(old(dir.files), ActiveIds(users), now - days * SecondsPerDay)
  {
    if !dirExists {
      return;
    }
    var cutoff := now - days * SecondsPerDay;
    var active := ActiveIds(users);
    ghost var start := dir.files;
    var todo := dir.files.Keys;
    while todo != {}
      invariant todo <= start.Keys
      invariant dir.files == map n | n in start && (n in todo || !Stale(n, start[n], active, cutoff)) :: start[n]
      decreases todo
    {
      var n :| n in todo;
      if IsJpg(n) && Stem(n) !in active && dir.files[n] < cutoff {
        dir.files := map m | m in dir.files && m != n :: dir.files[m];
      }
      todo := todo - {n};
    }
  }
}

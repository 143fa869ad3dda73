/** Storage accounting (utils/storage.py and the matching methods of the user
    model): the bytes a user occupies, the human-readable size, and where an
    uploaded avatar is kept. */
module StorageManager {
  import opened Text
  import opened Collections
  import opened Records
  import opened Document
  import opened FileManager

  /** Where an avatar image for a user is written, relative to the
      application directory. */
  function AvatarPath(userId: Id): string {
    "public/avatars/" + userId + ".jpg"
  }

  /** The URL stored in the user's `avatar` field after an upload. */
  function AvatarUrl(userId: Id): string {
    "/public/avatars/" + userId + ".jpg"
  }

  /** Stripping the leading slashes off the stored URL gives back the path
      the file was written to, so both ways of measuring an uploaded avatar
      look at the same file. */
  lemma AvatarUrlLeadsToPath(userId: Id)
    ensures LStrip(AvatarUrl(userId), {'/'}) == AvatarPath(userId)
  {
    var url := AvatarUrl(userId);
    assert url == "/" + AvatarPath(userId);
    assert url[1..] == AvatarPath(userId);
    assert url[1] == 'p';
  }

  /** `save_avatar()`: the image is written to the user's path (replacing any
      earlier one) and its URL is returned. */
  function SaveAvatar(disk: Disk, userId: Id, size: nat): (r: (Disk, string))
  {
    (disk[AvatarPath(userId) := size], AvatarUrl(userId))
  }

  /** After saving, the avatar counts with exactly the size written, and no
      other file changed. */
  lemma SaveAvatarThenSize(disk: Disk, userId: Id, size: nat, other: string)
    ensures FileSize(SaveAvatar(disk, userId, size).0, AvatarPath(userId)) == size
    ensures other != AvatarPath(userId) ==> FileSize(SaveAvatar(disk, userId, size).0, other) == FileSize(disk, other)
    ensures LStrip(SaveAvatar(disk, userId, size).1, {'/'}) == AvatarPath(userId)
  {
    AvatarUrlLeadsToPath(userId);
  }

  /** `delete_old_avatar()`: remove the user's avatar file if there is one. */
  function DeleteOldAvatar(disk: Disk, userId: Id): (d: Disk)
    ensures FileSize(d, AvatarPath(userId)) == 0
    ensures forall p :: p in d <==> p in disk && p != AvatarPath(userId)
  {
    disk - {AvatarPath(userId)}
  }

  /** Twice the serialised length of each entry, summed: text is counted at
      two bytes per character. `jsonLength` stands for `len(json.dumps(e))`. */
  function Footprint(es: seq<EntryRecord>, jsonLength: EntryRecord -> nat): nat {
    if es == [] then 0 else Footprint(es[..|es| - 1], jsonLength) + 2 * jsonLength(es[|es| - 1])
  }

  /** The entries' share of the usage is always even. */
  lemma {:induction false} FootprintEven(es: seq<EntryRecord>, jsonLength: EntryRecord -> nat)
    ensures Footprint(es, jsonLength) % 2 == 0
  {
    if es != [] {
      FootprintEven(es[..|es| - 1], jsonLength);
    }
  }

  /** Each entry contributes at least twice its length, so the footprint
      grows with every entry added. */
  lemma {:induction false} FootprintAtLeast(es: seq<EntryRecord>, jsonLength: EntryRecord -> nat, i: nat)
    requires i < |es|
    ensures Footprint(es, jsonLength) >= 2 * jsonLength(es[i])
  {
    if i < |es| - 1 {
      FootprintAtLeast(es[..|es| - 1], jsonLength, i);
    }
  }

  /** `get_user_storage_usage(user_id)`: the user's entries, then the file at
      the user's avatar path if it exists, whatever the user's `avatar` says. */
  method GetUserStorageUsage(store: Store, userId: Id, jsonLength: EntryRecord -> nat, disk: Disk) returns (total: nat)
    ensures total == Footprint(Filter(store.entries, EntryOwnedBy(userId)), jsonLength) + FileSize(disk, AvatarPath(userId))
  {
    var mine := Filter(store.entries, EntryOwnedBy(userId));
    total := 0;
    for i := 0 to |mine|
      invariant total == Footprint(mine[..i], jsonLength)
    {
      assert mine[..i + 1][..i] == mine[..i];
      total := total + 2 * jsonLength(mine[i]);
    }
    assert mine[..|mine|] == mine;
    if AvatarPath(userId) in disk {
      total := total + disk[AvatarPath(userId)];
    }
  }

  datatype SizeUnit = Bytes | Kilobytes | Megabytes | Gigabytes

  const KiB: nat := 1024
  const MiB: nat := 1024 * 1024
  const GiB: nat := 1024 * 1024 * 1024

  function UnitName(u: SizeUnit): string {
    match u
    case Bytes => "B"
    case Kilobytes => "KB"
    case Megabytes => "MB"
    case Gigabytes => "GB"
  }

  /** The unit `format_size` picks; every size, negative ones included, gets
      exactly one. */
  function UnitOf(n: int): (u: SizeUnit)
    ensures u == Bytes <==> n < KiB
    ensures u == Kilobytes <==> KiB <= n < MiB
    ensures u == Megabytes <==> MiB <= n < GiB
    ensures u == Gigabytes <==> GiB <= n
  {
    if n < KiB then Bytes else if n < MiB then Kilobytes else if n < GiB then Megabytes else Gigabytes
  }

  function Scale(u: SizeUnit): (d: nat)
    ensures d > 0
  {
    match u
    case Bytes => 1
    case Kilobytes => KiB
    case Megabytes => MiB
    case Gigabytes => GiB
  }

  /** `format_size(n)` (also `get_formatted_storage` and
      `get_formatted_storage_bytes`): whole bytes below 1 KB, otherwise the
      quotient by the unit with one decimal. */
  function FormatSize(n: int): (s: string)
  {
    var u := UnitOf(n);
    if u == Bytes then IntToString(n) + " B"
    else OneDecimal(n, Scale(u)) + " " + UnitName(u)
  }

  /** Sizes below one kilobyte, negative ones included, print as the plain
      integer followed by " B"; the digits read back as the size. */
  lemma FormatSizeSmall(n: int)
    requires n < KiB
    ensures FormatSize(n) == IntToString(n) + " B"
    ensures 0 <= n ==> AllDigits(IntToString(n)) && ParseDigits(IntToString(n)) == n
  {
  }

  /** From one kilobyte up the text is "<whole>.<tenth> <unit>", where the
      tenths are n / unit rounded to the nearest tenth (ties to even), so the
      printed value is within half a tenth of the exact quotient. */
  lemma FormatSizeLarge(n: int)
    requires n >= KiB
    ensures var d := Scale(UnitOf(n));
      var t := RoundHalfEven(10 * n, d);
      && FormatSize(n) == NatToString(t / 10) + "." + [DigitChar(t % 10)] + " " + UnitName(UnitOf(n))
      && -(d as int) <= 2 * (10 * n - t * d) <= d
  {
    RoundingError(10 * n, Scale(UnitOf(n)));
  }

  lemma FormatSizeExamples()
    ensures FormatSize(0) == "0 B"
    ensures FormatSize(1023) == "1023 B"
    ensures FormatSize(1536) == "1.5 KB"
    ensures FormatSize(1048576) == "1.0 MB"
  {
    FormatsZero();
    FormatsLargestByteCount();
    FormatsKilobyteAndAHalf();
    FormatsOneMegabyte();
  }

  lemma FormatsZero()
    ensures FormatSize(0) == "0 B"
  {
    assert IntToString(0) == "0";
  }

  lemma FormatsLargestByteCount()
    ensures FormatSize(1023) == "1023 B"
  {
    assert NatToString(102) == "102";
    assert IntToString(1023) == "1023";
  }

  lemma FormatsKilobyteAndAHalf()
    ensures FormatSize(1536) == "1.5 KB"
  {
    assert RoundHalfEven(15360, 1024) == 15;
    assert NatToString(1) == "1";
  }

  lemma FormatsOneMegabyte()
    ensures FormatSize(1048576) == "1.0 MB"
  {
    assert RoundHalfEven(10485760, 1048576) == 10;
    assert NatToString(1) == "1";
  }
}

/** A FAT12 volume as the driver sees it: sectors, root directory entries, files, and the list of
    sector writes that storing a file amounts to. */
module Volume {
  import opened Bytes
  import opened Common
  import opened FatTable

  const SECTORS := 2880
  const SECTOR := 512
  const FAT_SECTORS := 9
  const FAT1_LBA := 1
  const FAT2_LBA := 10
  const ROOT_LBA := 19
  const ROOT_ENTRIES := 224
  const DATA_LBA := 33
  const LAST_CLUSTER := SECTORS - DATA_LBA + 1

  type Disk = seq<seq<byte>>

  ghost predicate IsDisk(d: Disk) {
    |d| == SECTORS && forall i :: 0 <= i < |d| ==> |d[i]| == SECTOR
  }

  /** cluster_to_lba; the unsigned wrap of clusters 0 and 1 cancels out. */
  function ClusterLba(c: int): int { DATA_LBA + c - 2 }

  // ----- root directory

  function EntrySector(e: nat): int { ROOT_LBA + e * 32 / SECTOR }
  function EntryOffset(e: nat): int { e * 32 % SECTOR }

  lemma EntryPlace(e: nat)
    requires e < ROOT_ENTRIES
    ensures ROOT_LBA <= EntrySector(e) < DATA_LBA && EntrySector(e) == ROOT_LBA + e / 16
    ensures 0 <= EntryOffset(e) && EntryOffset(e) == e % 16 * 32 && EntryOffset(e) + 32 <= SECTOR
  {
    var q, r := e / 16, e % 16;
    assert e * 32 == 512 * q + 32 * r;
  }

  /** The 32 bytes of directory entry `e`. */
  function Entry(d: Disk, e: nat): (en: seq<byte>)
    requires IsDisk(d) && e < ROOT_ENTRIES
    ensures |en| == 32
  {
    EntryPlace(e);
    d[EntrySector(e)][EntryOffset(e)..EntryOffset(e) + 32]
  }

  function Name(en: seq<byte>): seq<byte> requires |en| == 32 { en[..11] }
  function Cluster(en: seq<byte>): (c: int) requires |en| == 32 ensures 0 <= c < U16 { Get16(en, 26) }
  function Size(en: seq<byte>): (n: int) requires |en| == 32 ensures n >= 0 { Get32(en, 28) }

  /** Deleted entries, volume labels, directories and long-name pieces are passed over. */
  predicate Skipped(en: seq<byte>)
    requires |en| == 32
  {
    en[0] == 0xE5 || en[11] == 0x08 || en[11] == 0x10 || en[11] == 0x0F
  }

  predicate IsFile(en: seq<byte>)
    requires |en| == 32
  {
    en[0] != 0 && !Skipped(en)
  }

  /** The entry the directory scan finds for `name`, from entry `e` on. */
  function Lookup(d: Disk, name: seq<byte>, e: nat): (r: Option<nat>)
    requires IsDisk(d) && e <= ROOT_ENTRIES
    ensures r.Some? ==> e <= r.value < ROOT_ENTRIES && IsFile(Entry(d, r.value)) && Name(Entry(d, r.value)) == name
    decreases ROOT_ENTRIES - e
  {
    if e == ROOT_ENTRIES || Entry(d, e)[0] == 0 then None
    else if !Skipped(Entry(d, e)) && Name(Entry(d, e)) == name then Some(e)
    else Lookup(d, name, e + 1)
  }

  predicate Reusable(en: seq<byte>) requires |en| == 32 { en[0] == 0 || en[0] == 0xE5 }

  /** The first reusable entry from `e` on. */
  function FreeEntry(d: Disk, e: nat): (r: Option<nat>)
    requires IsDisk(d) && e <= ROOT_ENTRIES
    ensures r.Some? ==> e <= r.value < ROOT_ENTRIES && Reusable(Entry(d, r.value))
    ensures forall x :: e <= x < (if r.Some? then r.value else ROOT_ENTRIES) ==> !Reusable(Entry(d, x))
    decreases ROOT_ENTRIES - e
  {
    if e == ROOT_ENTRIES then None
    else if Reusable(Entry(d, e)) then Some(e)
    else FreeEntry(d, e + 1)
  }

  function Min(a: int, b: int): int { if a < b then a else b }

  /** What fat12_read_file delivers into a buffer of `len` bytes when no sector read fails. */
  function ReadFile(d: Disk, name: seq<byte>, len: nat): Option<seq<byte>>
    requires IsDisk(d)
  {
    match Lookup(d, name, 0)
    case None => None
    case Some(e) =>
      var lba := ClusterLba(Cluster(Entry(d, e)));
      if 0 <= lba < SECTORS then Some(d[lba][..Min(Min(Size(Entry(d, e)), len), SECTOR)]) else None
  }

  // ----- sector writes

  datatype SectorWrite = SectorWrite(lba: int, data: seq<byte>)

  predicate InDisk(w: SectorWrite) { 0 <= w.lba < SECTORS && |w.data| == SECTOR }

  /** A write past the end of the drive changes nothing. */
  function Put(d: Disk, w: SectorWrite): (d': Disk)
    requires IsDisk(d)
    ensures IsDisk(d')
  {
    if InDisk(w) then d[w.lba := w.data] else d
  }

  function Apply(d: Disk, ws: seq<SectorWrite>): (d': Disk)
    requires IsDisk(d)
    ensures IsDisk(d')
  {
    if ws == [] then d else Put(Apply(d, ws[..|ws| - 1]), ws[|ws| - 1])
  }

  // ----- storing a file

  function Pad(data: seq<byte>): (s: seq<byte>)
    requires |data| <= SECTOR
    ensures |s| == SECTOR && data <= s && forall i :: |data| <= i < SECTOR ==> s[i] == 0
  {
    data + seq(SECTOR - |data|, i => 0)
  }

  /** A directory entry as the driver writes it: archive attribute, no date. */
  function NewEntry(name: seq<byte>, cluster: int, size: int): (en: seq<byte>)
    requires |name| == 11 && 0 <= cluster < U16 && 0 <= size < U32
    ensures |en| == 32
  {
    name + [0x20] + seq(14, i => 0) + Bytes16(cluster) + Bytes32(size)
  }

  function FatSector(f: seq<byte>, s: int): (r: seq<byte>)
    requires |f| == FAT_BYTES && 0 <= s < FAT_SECTORS
    ensures |r| == SECTOR
  {
    f[s * SECTOR..(s + 1) * SECTOR]
  }

  /** Both copies of the table, first copy first. */
  function FatWrites(f: seq<byte>): (ws: seq<SectorWrite>)
    requires |f| == FAT_BYTES
    ensures |ws| == 18
  {
    seq(18, i requires 0 <= i < 18 => SectorWrite(FAT1_LBA + i, FatSector(f, i % 9)))
  }

  /** What fat12_write_file sets out to do: the directory entry and cluster it chose, the table
      it has in memory from then on, and the sectors it writes, in order. */
  datatype Plan = Plan(entry: nat, cluster: int, isNew: bool, fat: seq<byte>, writes: seq<SectorWrite>)

  function PlanFor(d: Disk, f: seq<byte>, name: seq<byte>, data: seq<byte>, e: nat, c: int, isNew: bool): (p: Plan)
    requires IsDisk(d) && |f| == FAT_BYTES && |name| == 11 && |data| <= SECTOR && e < ROOT_ENTRIES && 0 <= c < U16
    ensures |p.fat| == FAT_BYTES && |p.writes| == 20
  {
    EntryPlace(e);
    var f' := FatSet(f, c, END_OF_CHAIN);
    var w0 := SectorWrite(ClusterLba(c), Pad(data));
    var d1 := Put(d, w0);
    var w1 := SectorWrite(EntrySector(e), Splice(d1[EntrySector(e)], EntryOffset(e), NewEntry(name, c, |data|)));
    Plan(e, c, isNew, f', [w0, w1] + FatWrites(f'))
  }

  /** None when the directory or the disk is full. */
  function MakePlan(d: Disk, f: seq<byte>, name: seq<byte>, data: seq<byte>): (p: Option<Plan>)
    requires IsDisk(d) && |f| == FAT_BYTES && |name| == 11 && |data| <= SECTOR
    ensures p.Some? ==> |p.value.fat| == FAT_BYTES && |p.value.writes| == 20
  {
    match Lookup(d, name, 0)
    case Some(e) => Some(PlanFor(d, f, name, data, e, Cluster(Entry(d, e)), false))
    case None =>
      match FreeEntry(d, 0)
      case None => None
      case Some(e) =>
        var c := AllocCluster(f, 2);
        if c == 0 then None else Some(PlanFor(d, f, name, data, e, c, true))
  }

  /** The table in FAT1, as fat12_init loads it. */
  function FatOnDisk(d: Disk): (f: seq<byte>)
    requires IsDisk(d)
    ensures |f| == FAT_BYTES
  {
    d[1] + d[2] + d[3] + d[4] + d[5] + d[6] + d[7] + d[8] + d[9]
  }

  // ----- well-formed volumes

  /** Every file owns one data cluster, marked non-free and shared with no other file, and nothing
      follows the end of the directory. */
  ghost predicate WellFormed(d: Disk, f: seq<byte>) {
    && IsDisk(d) && |f| == FAT_BYTES
    && (forall e :: 0 <= e < ROOT_ENTRIES && IsFile(Entry(d, e)) ==>
          2 <= Cluster(Entry(d, e)) <= LAST_CLUSTER && FatGet(f, Cluster(Entry(d, e))) != 0)
    && (forall e, e' :: 0 <= e < e' < ROOT_ENTRIES && IsFile(Entry(d, e)) && IsFile(Entry(d, e')) ==>
          Cluster(Entry(d, e)) != Cluster(Entry(d, e')))
    && (forall e, e' :: 0 <= e < e' < ROOT_ENTRIES && Entry(d, e)[0] == 0 ==> Entry(d, e')[0] == 0)
  }
}

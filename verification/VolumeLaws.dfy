/** The laws of storing a file, at every prefix of its sector writes. */
module VolumeLaws {
  import opened Bytes
  import opened Common
  import opened FatTable
  import opened Volume

  // ----- the disk after the first k writes

  /** The directory sector the plan writes back. */
  function DirSector(d: Disk, name: seq<byte>, size: int, e: nat, c: int): (s: seq<byte>)
    requires IsDisk(d) && |name| == 11 && 0 <= size < U32 && e < ROOT_ENTRIES && 0 <= c < U16
    ensures |s| == SECTOR
  {
    EntryPlace(e);
    Splice(d[EntrySector(e)], EntryOffset(e), NewEntry(name, c, size))
  }

  /** Sector `lba` once the first `k` of the planned writes have reached the disk. */
  function SectorAfter(d: Disk, f': seq<byte>, name: seq<byte>, data: seq<byte>, e: nat, c: int, k: nat, lba: nat): seq<byte>
    requires IsDisk(d) && |f'| == FAT_BYTES && |name| == 11 && |data| <= SECTOR && e < ROOT_ENTRIES && 0 <= c < U16
    requires lba < SECTORS
  {
    if k >= 1 && lba == ClusterLba(c) then Pad(data)
    else if k >= 2 && lba == EntrySector(e) then DirSector(d, name, |data|, e, c)
    else if FAT1_LBA <= lba < ROOT_LBA && k >= 2 + lba then FatSector(f', (lba - 1) % 9)
    else d[lba]
  }

  lemma {:induction false} AfterWrites(d: Disk, f: seq<byte>, name: seq<byte>, data: seq<byte>, e: nat, c: int, isNew: bool, k: nat)
    requires IsDisk(d) && |f| == FAT_BYTES && |name| == 11 && |data| <= SECTOR && e < ROOT_ENTRIES
    requires 2 <= c <= LAST_CLUSTER && k <= 20
    ensures var p := PlanFor(d, f, name, data, e, c, isNew);
            forall lba :: 0 <= lba < SECTORS ==>
              Apply(d, p.writes[..k])[lba] == SectorAfter(d, p.fat, name, data, e, c, k, lba)
  {
    hide FatSector, NewEntry, Splice, Pad, FatSet;
    var p := PlanFor(d, f, name, data, e, c, isNew);
    EntryPlace(e);
    if k > 0 {
      AfterWrites(d, f, name, data, e, c, isNew, k - 1);
      assert p.writes[..k][..k - 1] == p.writes[..k - 1];
      var w := p.writes[k - 1];
      assert w.data == SectorAfter(d, p.fat, name, data, e, c, k, w.lba);
    }
  }

  // ----- directory entries after the directory write

  lemma EntrySpliced(s: seq<byte>, en: seq<byte>, o: nat, o': nat)
    requires |s| == SECTOR && |en| == 32 && o + 32 <= SECTOR && o' + 32 <= SECTOR
    requires o == o' || o + 32 <= o' || o' + 32 <= o
    ensures Splice(s, o, en)[o'..o' + 32] == if o == o' then en else s[o'..o' + 32]
  {}

  /** Before the directory write no entry differs; from then on exactly entry `e` does. */
  lemma EntriesAfter(d: Disk, f: seq<byte>, name: seq<byte>, data: seq<byte>, e: nat, c: int, isNew: bool, k: nat, x: nat)
    requires IsDisk(d) && |f| == FAT_BYTES && |name| == 11 && |data| <= SECTOR && e < ROOT_ENTRIES
    requires 2 <= c <= LAST_CLUSTER && k <= 20 && x < ROOT_ENTRIES
    ensures var p := PlanFor(d, f, name, data, e, c, isNew);
            Entry(Apply(d, p.writes[..k]), x) == if k >= 2 && x == e then NewEntry(name, c, |data|) else Entry(d, x)
  {
    hide PlanFor, Apply, NewEntry, Splice;
    AfterWrites(d, f, name, data, e, c, isNew, k);
    EntryPlace(e);
    EntryPlace(x);
    EntrySpliced(d[EntrySector(e)], NewEntry(name, c, |data|), EntryOffset(e), EntryOffset(x));
  }

  lemma NewEntryFields(name: seq<byte>, c: int, size: int)
    requires |name| == 11 && 0 <= c < U16 && 0 <= size < U32
    ensures var en := NewEntry(name, c, size);
            && Name(en) == name && en[0] == name[0] && en[11] == 0x20 && Cluster(en) == c && Size(en) == size
            && forall i :: 12 <= i < 26 ==> en[i] == 0
  {
    var en := NewEntry(name, c, size);
    assert en[26..28] == Bytes16(c);
    assert en[28..32] == Bytes32(size);
    assert forall i :: 0 <= i < 2 ==> en[26 + i] == en[26..28][i];
    assert forall i :: 0 <= i < 4 ==> en[28 + i] == en[28..32][i];
  }

  // ----- directory scans

  predicate Misses(en: seq<byte>, name: seq<byte>)
    requires |en| == 32
  {
    Skipped(en) || Name(en) != name
  }

  /** Entries before the one found are in use and do not match. */
  lemma {:induction false} LookupPasses(d: Disk, name: seq<byte>, x: nat, y: nat)
    requires IsDisk(d) && x <= y < ROOT_ENTRIES
    requires match Lookup(d, name, x)
             case Some(e) => y < e
             case None => forall z :: x <= z <= y ==> Entry(d, z)[0] != 0
    ensures Entry(d, y)[0] != 0 && Misses(Entry(d, y), name)
    decreases y - x
  {
    hide Entry;
    if x < y { LookupPasses(d, name, x + 1, y); }
  }

  lemma {:induction false} LookupFinds(d: Disk, name: seq<byte>, x: nat, e: nat)
    requires IsDisk(d) && x <= e < ROOT_ENTRIES
    requires IsFile(Entry(d, e)) && Name(Entry(d, e)) == name
    requires forall y :: x <= y < e ==> Entry(d, y)[0] != 0 && Misses(Entry(d, y), name)
    ensures Lookup(d, name, x) == Some(e)
    decreases e - x
  {
    hide Entry;
    if x < e { LookupFinds(d, name, x + 1, e); }
  }

  /** A scan does not see an edit of an entry that misses before and after, or that extends the
      directory by one entry that misses. */
  lemma {:induction false} LookupUnmoved(d: Disk, d': Disk, name: seq<byte>, e: nat, x: nat)
    requires IsDisk(d) && IsDisk(d') && x <= ROOT_ENTRIES && e < ROOT_ENTRIES
    requires forall y :: 0 <= y < ROOT_ENTRIES && y != e ==> Entry(d', y) == Entry(d, y)
    requires Entry(d', e)[0] != 0 && Misses(Entry(d', e), name)
    requires Entry(d, e)[0] == 0 || Misses(Entry(d, e), name)
    requires Entry(d, e)[0] == 0 ==> forall y :: e < y < ROOT_ENTRIES ==> Entry(d, y)[0] == 0
    ensures Lookup(d', name, x) == Lookup(d, name, x)
    decreases ROOT_ENTRIES - x
  {
    hide Entry;
    if x < ROOT_ENTRIES { LookupUnmoved(d, d', name, e, x + 1); }
  }

  lemma {:induction false} LookupSame(d: Disk, d': Disk, name: seq<byte>, x: nat)
    requires IsDisk(d) && IsDisk(d') && x <= ROOT_ENTRIES
    requires forall y :: 0 <= y < ROOT_ENTRIES ==> Entry(d', y) == Entry(d, y)
    ensures Lookup(d', name, x) == Lookup(d, name, x)
    decreases ROOT_ENTRIES - x
  {
    hide Entry;
    if x < ROOT_ENTRIES { LookupSame(d, d', name, x + 1); }
  }

  // ----- when there is room

  /** Entry `e` comes before the end mark and is a plain file called `name`. */
  ghost predicate Carries(d: Disk, name: seq<byte>, e: int)
    requires IsDisk(d) && 0 <= e < ROOT_ENTRIES
  {
    var en := Entry(d, e);
    && (forall x :: 0 <= x <= e ==> Entry(d, x)[0] != 0)
    && en[0] != 0xE5 && en[11] != 0x08 && en[11] != 0x10 && en[11] != 0x0F && en[..11] == name
  }

  /** A scan finds the first entry that carries the name, if there is one. */
  lemma LookupIs(d: Disk, name: seq<byte>, e: int)
    requires IsDisk(d) && 0 <= e < ROOT_ENTRIES
    ensures Lookup(d, name, 0) == Some(e) <==> Carries(d, name, e) && forall x :: 0 <= x < e ==> !Carries(d, name, x)
  {
    hide Entry;
    var r := Lookup(d, name, 0);
    if r.Some? {
      LookupSeen(d, name, 0);
    }
    if Carries(d, name, e) && (forall x :: 0 <= x < e ==> !Carries(d, name, x)) {
      forall y | 0 <= y < e ensures Entry(d, y)[0] != 0 && Misses(Entry(d, y), name) { assert !Carries(d, name, y); }
      LookupFinds(d, name, 0, e);
    }
  }

  lemma LookupSeen(d: Disk, name: seq<byte>, x: nat)
    requires IsDisk(d) && x < ROOT_ENTRIES && Lookup(d, name, x).Some?
    ensures forall y :: x <= y <= Lookup(d, name, x).value ==> Entry(d, y)[0] != 0
    ensures forall y :: x <= y < Lookup(d, name, x).value ==> Misses(Entry(d, y), name)
  {
    hide Entry, Lookup;
    var e := Lookup(d, name, x).value;
    forall y | x <= y < e ensures Entry(d, y)[0] != 0 && Misses(Entry(d, y), name) { LookupPasses(d, name, x, y); }
  }

  lemma {:induction false} LookupNone(d: Disk, name: seq<byte>, x: nat, e: nat)
    requires IsDisk(d) && x <= e < ROOT_ENTRIES && Lookup(d, name, x) == None
    requires forall y :: x <= y <= e ==> Entry(d, y)[0] != 0
    ensures Misses(Entry(d, e), name)
  {
    hide Entry;
    LookupPasses(d, name, x, e);
  }

  ghost predicate IsNewName(d: Disk, name: seq<byte>)
    requires IsDisk(d)
  { forall e :: 0 <= e < ROOT_ENTRIES ==> !Carries(d, name, e) }

  ghost predicate DirectoryFull(d: Disk)
    requires IsDisk(d)
  { forall e :: 0 <= e < ROOT_ENTRIES ==> Entry(d, e)[0] != 0 && Entry(d, e)[0] != 0xE5 }

  ghost predicate DiskFull(f: seq<byte>)
    requires |f| == FAT_BYTES
  { forall c :: 2 <= c < 2848 ==> FatGet(f, c) != 0 }

  /** A store finds no room exactly when the name is new and either every directory entry is in use or
      every data cluster is. */
  ghost predicate NoRoom(d: Disk, f: seq<byte>, name: seq<byte>)
    requires IsDisk(d) && |f| == FAT_BYTES
  {
    IsNewName(d, name) && (DirectoryFull(d) || DiskFull(f))
  }

  lemma PlanUnlessNoRoom(d: Disk, f: seq<byte>, name: seq<byte>, data: seq<byte>)
    requires IsDisk(d) && |f| == FAT_BYTES && |name| == 11 && |data| <= SECTOR
    ensures MakePlan(d, f, name, data).None? <==> NoRoom(d, f, name)
  {
    hide Entry, FatGet, PlanFor, Lookup, IsNewName, DirectoryFull, DiskFull, FreeEntry, AllocCluster;
    NewUnlessCarried(d, name);
    FreeUnlessFull(d, f);
  }

  lemma FreeUnlessFull(d: Disk, f: seq<byte>)
    requires IsDisk(d) && |f| == FAT_BYTES
    ensures FreeEntry(d, 0).None? <==> DirectoryFull(d)
    ensures AllocCluster(f, 2) == 0 <==> DiskFull(f)
  {
    hide Entry, FatGet;
    var e, c := FreeEntry(d, 0), AllocCluster(f, 2);
    if e.Some? { assert Reusable(Entry(d, e.value)); }
    if c != 0 { assert 2 <= c < 2848 && FatGet(f, c) == 0; }
  }

  lemma NewUnlessCarried(d: Disk, name: seq<byte>)
    requires IsDisk(d)
    ensures Lookup(d, name, 0) == None <==> IsNewName(d, name)
  {
    hide Entry, Lookup;
    if Lookup(d, name, 0).Some? {
      LookupIs(d, name, Lookup(d, name, 0).value);
    } else {
      forall e | 0 <= e < ROOT_ENTRIES ensures !Carries(d, name, e) {
        if forall x :: 0 <= x <= e ==> Entry(d, x)[0] != 0 { LookupNone(d, name, 0, e); }
      }
    }
  }

  // ----- what a plan has chosen

  lemma PlanChoice(d: Disk, f: seq<byte>, name: seq<byte>, data: seq<byte>, p: Plan)
    requires WellFormed(d, f) && |name| == 11 && |data| <= SECTOR && MakePlan(d, f, name, data) == Some(p)
    ensures p.entry < ROOT_ENTRIES && 2 <= p.cluster <= LAST_CLUSTER
    ensures p == PlanFor(d, f, name, data, p.entry, p.cluster, p.isNew)
    ensures p.isNew ==> && Lookup(d, name, 0) == None && FreeEntry(d, 0) == Some(p.entry)
                        && p.cluster == AllocCluster(f, 2) && FatGet(f, p.cluster) == 0
    ensures !p.isNew ==> && Lookup(d, name, 0) == Some(p.entry)
                         && IsFile(Entry(d, p.entry)) && Cluster(Entry(d, p.entry)) == p.cluster
  {
    hide Entry, Lookup, FreeEntry, AllocCluster, FatGet;
  }

  /** Entries before the chosen one are in use and do not carry the name. */
  lemma PlanPasses(d: Disk, f: seq<byte>, name: seq<byte>, data: seq<byte>, p: Plan, y: nat)
    requires WellFormed(d, f) && |name| == 11 && |data| <= SECTOR && MakePlan(d, f, name, data) == Some(p)
    requires p.entry < ROOT_ENTRIES && y < p.entry
    ensures Entry(d, y)[0] != 0 && Misses(Entry(d, y), name)
  {
    hide Entry, Lookup, FreeEntry, PlanFor;
    PlanChoice(d, f, name, data, p);
    LookupPasses(d, name, 0, y);
  }

  // ----- a volume to start from

  function Zeros(n: nat): (s: seq<byte>)
    ensures |s| == n && forall i :: 0 <= i < n ==> s[i] == 0
  {
    seq(n, i => 0)
  }

  /** A freshly formatted volume: empty tables, empty directory. */
  function Formatted(): (d: Disk)
    ensures IsDisk(d) && forall i :: 0 <= i < SECTORS ==> d[i] == Zeros(SECTOR)
  {
    seq(SECTORS, i => Zeros(SECTOR))
  }

  /** It is well-formed with its own table mounted, and the first file stored on it gets entry 0 and cluster 2. */
  lemma FirstFile(name: seq<byte>, data: seq<byte>)
    requires |name| == 11 && |data| <= SECTOR
    ensures WellFormed(Formatted(), Zeros(FAT_BYTES)) && FatOnDisk(Formatted()) == Zeros(FAT_BYTES)
    ensures MakePlan(Formatted(), Zeros(FAT_BYTES), name, data)
         == Some(PlanFor(Formatted(), Zeros(FAT_BYTES), name, data, 0, 2, true))
  {
    hide Formatted, PlanFor, Zeros;
    var d := Formatted();
    forall e | 0 <= e < ROOT_ENTRIES ensures Entry(d, e)[0] == 0 { EntryPlace(e); }
    assert FatGet(Zeros(FAT_BYTES), 2) == 0;
  }

  // ----- the laws

  /** At every prefix of the writes the volume is well-formed under the table held in memory. */
  lemma WritesKeepWellFormed(d: Disk, f: seq<byte>, name: seq<byte>, data: seq<byte>, p: Plan, k: nat)
    requires WellFormed(d, f) && |name| == 11 && name[0] != 0 && |data| <= SECTOR
    requires MakePlan(d, f, name, data) == Some(p) && k <= 20
    ensures WellFormed(Apply(d, p.writes[..k]), p.fat)
  {
    hide Entry, MakePlan, Apply, NewEntry, PlanFor, FatGet, Lookup;
    PlanChoice(d, f, name, data, p);
    var d' := Apply(d, p.writes[..k]);
    forall x | 0 <= x < ROOT_ENTRIES
      ensures Entry(d', x) == if k >= 2 && x == p.entry then NewEntry(name, p.cluster, |data|) else Entry(d, x)
    {
      EntriesAfter(d, f, name, data, p.entry, p.cluster, p.isNew, k, x);
    }
    NewEntryFields(name, p.cluster, |data|);
    assert p.fat == FatSet(f, p.cluster, END_OF_CHAIN) by { PlanFat(d, f, name, data, p); }
    GetOwn(f, p.cluster, END_OF_CHAIN);
    forall x | 2 <= x <= LAST_CLUSTER && x != p.cluster ensures FatGet(p.fat, x) == FatGet(f, x) {
      GetOther(f, p.cluster, END_OF_CHAIN, x);
    }
  }

  lemma PlanFat(d: Disk, f: seq<byte>, name: seq<byte>, data: seq<byte>, p: Plan)
    requires WellFormed(d, f) && |name| == 11 && |data| <= SECTOR && MakePlan(d, f, name, data) == Some(p)
    ensures p.fat == FatSet(f, p.cluster, END_OF_CHAIN)
  {
    hide Entry, WellFormed, Lookup, FreeEntry, AllocCluster, FatSet;
  }

  /** At every prefix of the writes every other file reads as before. */
  lemma OtherFilesKeepContents(d: Disk, f: seq<byte>, name: seq<byte>, data: seq<byte>, p: Plan, k: nat, other: seq<byte>, len: nat)
    requires WellFormed(d, f) && |name| == 11 && name[0] != 0 && |data| <= SECTOR
    requires MakePlan(d, f, name, data) == Some(p) && k <= 20
    requires other != name
    ensures ReadFile(Apply(d, p.writes[..k]), other, len) == ReadFile(d, other, len)
  {
    hide Entry, MakePlan, Apply, NewEntry, PlanFor, FatGet, Lookup, FreeEntry;
    PlanChoice(d, f, name, data, p);
    var d' := Apply(d, p.writes[..k]);
    forall x | 0 <= x < ROOT_ENTRIES
      ensures Entry(d', x) == if k >= 2 && x == p.entry then NewEntry(name, p.cluster, |data|) else Entry(d, x)
    {
      EntriesAfter(d, f, name, data, p.entry, p.cluster, p.isNew, k, x);
    }
    NewEntryFields(name, p.cluster, |data|);
    if k >= 2 {
      LookupUnmoved(d, d', other, p.entry, 0);
    } else {
      LookupSame(d, d', other, 0);
    }
    match Lookup(d, other, 0)
    case None =>
    case Some(e) =>
      assert IsFile(Entry(d, e)) && Name(Entry(d, e)) == other;
      var lba := ClusterLba(Cluster(Entry(d, e)));
      assert Entry(d', e) == Entry(d, e);
      OtherSectors(d, f, name, data, p, k, lba);
  }

  /** No data sector but the chosen cluster's is ever written. */
  lemma OtherSectors(d: Disk, f: seq<byte>, name: seq<byte>, data: seq<byte>, p: Plan, k: nat, lba: nat)
    requires WellFormed(d, f) && |name| == 11 && |data| <= SECTOR
    requires MakePlan(d, f, name, data) == Some(p) && k <= 20
    requires DATA_LBA <= lba < SECTORS && lba != ClusterLba(p.cluster)
    ensures Apply(d, p.writes[..k])[lba] == d[lba]
  {
    hide Entry, MakePlan, Apply, PlanFor, Lookup, FreeEntry;
    PlanChoice(d, f, name, data, p);
    EntryPlace(p.entry);
    AfterWrites(d, f, name, data, p.entry, p.cluster, p.isNew, k);
  }

  /** Where the writes land: the chosen data cluster, one root directory sector, the two tables. */
  lemma WriteTargets(d: Disk, f: seq<byte>, name: seq<byte>, data: seq<byte>, p: Plan, i: nat)
    requires WellFormed(d, f) && |name| == 11 && |data| <= SECTOR
    requires MakePlan(d, f, name, data) == Some(p) && i < 20
    ensures InDisk(p.writes[i])
    ensures i == 0 ==> p.writes[i].lba == ClusterLba(p.cluster) >= DATA_LBA
    ensures i == 1 ==> ROOT_LBA <= p.writes[i].lba < DATA_LBA
    ensures i >= 2 ==> FAT1_LBA <= p.writes[i].lba < ROOT_LBA
  {
    hide Entry, MakePlan, Lookup, FreeEntry, WellFormed;
    PlanChoice(d, f, name, data, p);
    EntryPlace(p.entry);
  }

  /** Once the directory entry is written, a scan for the name ends at it. */
  lemma LookupOwn(d: Disk, f: seq<byte>, name: seq<byte>, data: seq<byte>, p: Plan, k: nat)
    requires WellFormed(d, f) && |name| == 11 && name[0] != 0 && name[0] != 0xE5 && |data| <= SECTOR
    requires MakePlan(d, f, name, data) == Some(p) && 2 <= k <= 20
    ensures Lookup(Apply(d, p.writes[..k]), name, 0) == Some(p.entry)
    ensures Entry(Apply(d, p.writes[..k]), p.entry) == NewEntry(name, p.cluster, |data|)
  {
    hide Entry, MakePlan, Apply, NewEntry, PlanFor, FatGet, Lookup, FreeEntry;
    PlanChoice(d, f, name, data, p);
    var d' := Apply(d, p.writes[..k]);
    forall x | 0 <= x <= p.entry
      ensures Entry(d', x) == if x == p.entry then NewEntry(name, p.cluster, |data|) else Entry(d, x)
      ensures x < p.entry ==> Entry(d', x)[0] != 0 && Misses(Entry(d', x), name)
    {
      EntriesAfter(d, f, name, data, p.entry, p.cluster, p.isNew, k, x);
      if x < p.entry { PlanPasses(d, f, name, data, p, x); }
    }
    NewEntryFields(name, p.cluster, |data|);
    LookupFinds(d', name, 0, p.entry);
  }

  /** Once the directory entry is written the file reads back, unless its name is one the driver
      takes for a deleted entry. */
  lemma ReadBack(d: Disk, f: seq<byte>, name: seq<byte>, data: seq<byte>, p: Plan, k: nat, len: nat)
    requires WellFormed(d, f) && |name| == 11 && name[0] != 0 && |data| <= SECTOR
    requires MakePlan(d, f, name, data) == Some(p) && 2 <= k <= 20
    ensures name[0] != 0xE5 ==> ReadFile(Apply(d, p.writes[..k]), name, len) == Some(data[..Min(|data|, len)])
    ensures name[0] == 0xE5 ==> ReadFile(Apply(d, p.writes[..k]), name, len) == None
  {
    hide Entry, MakePlan, Apply, NewEntry, PlanFor, FatGet, Lookup, FreeEntry;
    PlanChoice(d, f, name, data, p);
    var d' := Apply(d, p.writes[..k]);
    if name[0] == 0xE5 {
      DeletedNameNotFound(d', name, 0);
      return;
    }
    LookupOwn(d, f, name, data, p, k);
    NewEntryFields(name, p.cluster, |data|);
    AfterWrites(d, f, name, data, p.entry, p.cluster, p.isNew, k);
    EntryPlace(p.entry);
    assert d'[ClusterLba(p.cluster)] == Pad(data);
    assert Pad(data)[..Min(|data|, len)] == data[..Min(|data|, len)];
  }

  lemma {:induction false} DeletedNameNotFound(d: Disk, name: seq<byte>, x: nat)
    requires IsDisk(d) && x <= ROOT_ENTRIES && |name| == 11 && name[0] == 0xE5
    ensures Lookup(d, name, x) == None
    decreases ROOT_ENTRIES - x
  {
    hide Entry;
    if x < ROOT_ENTRIES {
      DeletedNameNotFound(d, name, x + 1);
      assert Name(Entry(d, x))[0] == Entry(d, x)[0];
    }
  }

  // ----- the table on disk

  lemma FatOnDiskAt(d: Disk, s: nat)
    requires IsDisk(d) && s < FAT_SECTORS
    ensures FatSector(FatOnDisk(d), s) == d[FAT1_LBA + s]
  {}

  lemma {:induction false} SameSectorsSameFat(f: seq<byte>, g: seq<byte>, n: nat)
    requires |f| == |g| == FAT_BYTES && n <= FAT_SECTORS
    requires forall s :: 0 <= s < n ==> FatSector(f, s) == FatSector(g, s)
    ensures f[..n * SECTOR] == g[..n * SECTOR]
  {
    if n > 0 {
      SameSectorsSameFat(f, g, n - 1);
      assert f[..n * SECTOR] == f[..(n - 1) * SECTOR] + FatSector(f, n - 1);
      assert g[..n * SECTOR] == g[..(n - 1) * SECTOR] + FatSector(g, n - 1);
    }
  }

  /** Both copies on disk hold the sectors of `f`. */
  ghost predicate TablesHold(d: Disk, f: seq<byte>)
    requires IsDisk(d) && |f| == FAT_BYTES
  {
    forall s :: 0 <= s < FAT_SECTORS ==> d[FAT1_LBA + s] == d[FAT2_LBA + s] == FatSector(f, s)
  }

  lemma TablesWritten(d: Disk, f: seq<byte>, name: seq<byte>, data: seq<byte>, p: Plan)
    requires WellFormed(d, f) && |name| == 11 && |data| <= SECTOR
    requires MakePlan(d, f, name, data) == Some(p)
    ensures TablesHold(Apply(d, p.writes), p.fat)
  {
    hide Entry, MakePlan, Apply, PlanFor, Lookup, FreeEntry, FatSector, FatGet;
    PlanChoice(d, f, name, data, p);
    EntryPlace(p.entry);
    assert p.writes[..20] == p.writes;
    AfterWrites(d, f, name, data, p.entry, p.cluster, p.isNew, 20);
  }

  /** After a complete store both copies on disk are the table in memory, so a remount loads
      exactly that table. */
  lemma FatCopiesAgree(d: Disk, f: seq<byte>, name: seq<byte>, data: seq<byte>, p: Plan)
    requires WellFormed(d, f) && |name| == 11 && |data| <= SECTOR
    requires MakePlan(d, f, name, data) == Some(p)
    ensures FatOnDisk(Apply(d, p.writes)) == p.fat && TablesHold(Apply(d, p.writes), p.fat)
  {
    hide MakePlan, Apply, FatOnDisk, FatSector, Entry, FatGet;
    TablesWritten(d, f, name, data, p);
    LoadedTable(Apply(d, p.writes), p.fat);
  }

  /** fat12_init reads the table whose sectors are in FAT1. */
  lemma LoadedTable(d: Disk, f: seq<byte>)
    requires IsDisk(d) && |f| == FAT_BYTES
    requires TablesHold(d, f)
    ensures FatOnDisk(d) == f
  {
    hide FatOnDisk, FatSector;
    forall s | 0 <= s < FAT_SECTORS ensures FatSector(FatOnDisk(d), s) == FatSector(f, s) { FatOnDiskAt(d, s); }
    SameSectorsSameFat(FatOnDisk(d), f, FAT_SECTORS);
    assert FatOnDisk(d)[..FAT_BYTES] == FatOnDisk(d) && f[..FAT_BYTES] == f;
  }

  // ----- every run of stores

  /** One call of fat12_write_file, whatever sector reads and writes fail: the disk gets a prefix
      of the planned writes, and the result is the length only if it gets all of them. */
  ghost predicate StoreStep(d: Disk, f: seq<byte>, name: seq<byte>, data: seq<byte>, d': Disk, f': seq<byte>, r: int)
    requires IsDisk(d) && |f| == FAT_BYTES && |name| == 11 && |data| <= SECTOR
  {
    || (r == -1 && d' == d && f' == f)
    || (&& MakePlan(d, f, name, data).Some?
        && var p := MakePlan(d, f, name, data).value;
           && f' == p.fat
           && (r == |data| ==> d' == Apply(d, p.writes))
           && (r == -1 || r == |data|)
           && exists k :: 0 <= k <= 20 && d' == Apply(d, p.writes[..k]))
  }

  datatype Request = Request(name: seq<byte>, data: seq<byte>)
  datatype State = State(disk: Disk, fat: seq<byte>)

  predicate IsRequest(q: Request) { |q.name| == 11 && q.name[0] != 0 && |q.data| <= SECTOR }

  ghost predicate IsRun(run: seq<State>, qs: seq<Request>, rs: seq<int>) {
    && |run| == |qs| + 1 == |rs| + 1
    && (forall i :: 0 <= i < |qs| ==> IsRequest(qs[i]))
    && (forall i :: 0 <= i < |run| ==> IsDisk(run[i].disk) && |run[i].fat| == FAT_BYTES)
    && forall i :: 0 <= i < |qs| ==>
         StoreStep(run[i].disk, run[i].fat, qs[i].name, qs[i].data, run[i + 1].disk, run[i + 1].fat, rs[i])
  }

  lemma StepKeepsWellFormed(d: Disk, f: seq<byte>, name: seq<byte>, data: seq<byte>, d': Disk, f': seq<byte>, r: int)
    requires WellFormed(d, f) && |name| == 11 && name[0] != 0 && |data| <= SECTOR
    requires StoreStep(d, f, name, data, d', f', r)
    ensures WellFormed(d', f')
  {
    hide MakePlan, Apply, Entry, FatGet;
    if !(d' == d && f' == f) {
      var p := MakePlan(d, f, name, data).value;
      var k :| 0 <= k <= 20 && d' == Apply(d, p.writes[..k]);
      WritesKeepWellFormed(d, f, name, data, p, k);
    }
  }

  /** No two files ever share a cluster, at every return of every run, failures included. */
  lemma {:induction false} RunKeepsWellFormed(run: seq<State>, qs: seq<Request>, rs: seq<int>, i: nat)
    requires IsRun(run, qs, rs) && WellFormed(run[0].disk, run[0].fat) && i < |run|
    ensures WellFormed(run[i].disk, run[i].fat)
  {
    hide WellFormed, StoreStep;
    if i > 0 {
      RunKeepsWellFormed(run, qs, rs, i - 1);
      StepKeepsWellFormed(run[i - 1].disk, run[i - 1].fat, qs[i - 1].name, qs[i - 1].data, run[i].disk, run[i].fat, rs[i - 1]);
    }
  }

  /** A file that no request of the run names reads the same bytes from beginning to end. */
  lemma {:induction false} RunKeepsOtherFile(run: seq<State>, qs: seq<Request>, rs: seq<int>, i: nat, other: seq<byte>, len: nat)
    requires IsRun(run, qs, rs) && WellFormed(run[0].disk, run[0].fat) && i < |run|
    requires forall j :: 0 <= j < i ==> qs[j].name != other
    ensures ReadFile(run[i].disk, other, len) == ReadFile(run[0].disk, other, len)
  {
    hide WellFormed, ReadFile, MakePlan, Apply;
    if i > 0 {
      RunKeepsOtherFile(run, qs, rs, i - 1, other, len);
      RunKeepsWellFormed(run, qs, rs, i - 1);
      var s, q := run[i - 1], qs[i - 1];
      if run[i] != s {
        var p := MakePlan(s.disk, s.fat, q.name, q.data).value;
        var k :| 0 <= k <= 20 && run[i].disk == Apply(s.disk, p.writes[..k]);
        OtherFilesKeepContents(s.disk, s.fat, q.name, q.data, p, k, other, len);
      }
    }
  }
}

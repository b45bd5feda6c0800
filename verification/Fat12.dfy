/** The FAT12 driver over a drive whose sector reads and writes may fail at any time. */
module Fat12 {
  import opened Bytes
  import opened Common
  import opened KString
  import opened FatTable
  import opened Volume
  import opened VolumeLaws

  // ----- names

  function Upper(c: byte): byte { if 'a' as int <= c <= 'z' as int then c - 'a' as int + 'A' as int else c }

  /** The rest `s` of a name stored into the 11-byte field from position `di` on. */
  function FillName(s: seq<byte>, di: nat, dst: seq<byte>): (r: seq<byte>)
    requires |dst| == 11 && 0 !in s && 0 !in dst
    ensures |r| == 11 && 0 !in r
  {
    if s == [] || di >= 11 then dst
    else if s[0] == '.' as int then FillName(s[1..], 8, dst)
    else FillName(s[1..], di + 1, dst[di := Upper(s[0])])
  }

  function Spaces(n: nat): (s: seq<byte>)
    ensures |s| == n && 0 !in s
  {
    seq(n, i => 32)
  }

  function Fat83(name: seq<byte>): (r: seq<byte>)
    requires 0 !in name
    ensures |r| == 11 && 0 !in r && r[0] != 0
  {
    FillName(name, 0, Spaces(11))
  }

  function Uppers(s: seq<byte>): (r: seq<byte>)
    ensures |r| == |s|
  {
    seq(|s|, i requires 0 <= i < |s| => Upper(s[i]))
  }

  lemma {:induction false} FillPlain(s: seq<byte>, rest: seq<byte>, di: nat, dst: seq<byte>)
    requires |dst| == 11 && 0 !in s && 0 !in rest && 0 !in s + rest && 0 !in dst
    requires '.' as int !in s && di + |s| <= 11
    requires 0 !in Splice(dst, di, Uppers(s))
    ensures FillName(s + rest, di, dst) == FillName(rest, di + |s|, Splice(dst, di, Uppers(s)))
    decreases |s|
  {
    if s == [] {
      assert s + rest == rest;
      assert Splice(dst, di, Uppers(s)) == dst;
    } else {
      assert (s + rest)[1..] == s[1..] + rest;
      var dst' := dst[di := Upper(s[0])];
      assert Splice(dst, di, Uppers(s)) == Splice(dst', di + 1, Uppers(s[1..]));
      FillPlain(s[1..], rest, di + 1, dst');
    }
  }

  /** A name of the 8.3 shape becomes both parts in upper case, padded with spaces. */
  lemma Fat83Shape(base: seq<byte>, ext: seq<byte>)
    requires 0 !in base && 0 !in ext && '.' as int !in base && '.' as int !in ext && |base| <= 8 && |ext| <= 3
    ensures 0 !in base + ['.' as int] + ext
    ensures Fat83(base + ['.' as int] + ext) == Uppers(base) + Spaces(8 - |base|) + Uppers(ext) + Spaces(3 - |ext|)
  {
    var dot: seq<byte> := ['.' as int];
    var rest := dot + ext;
    assert base + dot + ext == base + rest;
    var d1 := Splice(Spaces(11), 0, Uppers(base));
    FillPlain(base, rest, 0, Spaces(11));
    assert rest[1..] == ext && ext + [] == ext;
    var d2 := Splice(d1, 8, Uppers(ext));
    FillPlain(ext, [], 8, d1);
    assert d2 == Uppers(base) + Spaces(8 - |base|) + Uppers(ext) + Spaces(3 - |ext|);
  }

  lemma FillFull(s: seq<byte>, dst: seq<byte>)
    requires |dst| == 11 && 0 !in s && 0 !in dst
    ensures FillName(s, 11, dst) == dst
  {}

  lemma NoNul(dst: seq<byte>, di: nat, s: seq<byte>)
    requires 0 !in dst && 0 !in s && di + |s| <= |dst|
    ensures 0 !in Uppers(s) && 0 !in Splice(dst, di, Uppers(s))
  {}

  /** Any name with at most one dot: up to 11 characters of the part before it, in upper case; if the dot
      comes before the field is full, the part after it is laid over the last three places. */
  lemma Fat83General(base: seq<byte>, tail: seq<byte>)
    requires 0 !in base && '.' as int !in base && 0 !in tail
    requires tail == [] || (tail[0] == '.' as int && '.' as int !in tail[1..])
    ensures 0 !in base + tail
    ensures var field := Splice(Spaces(11), 0, Uppers(Cut(base, 11)));
            Fat83(base + tail) == if tail == [] || |base| >= 11 then field else Splice(field, 8, Uppers(Cut(tail[1..], 3)))
  {
    hide FillName, Splice, Fat83;
    var head, over := Cut(base, 11), base[|Cut(base, 11)|..];
    assert base + tail == head + (over + tail);
    FillHead(head, over + tail);
    var field := Splice(Spaces(11), 0, Uppers(head));
    if |base| >= 11 {
      FillFull(over + tail, field);
    } else if tail == [] {
      assert over + tail == [];
      FillNone(|head|, field);
    } else {
      assert over + tail == tail;
      FillDot(tail, |head|, field);
      FillExt(tail[1..], field);
    }
  }

  lemma FillHead(head: seq<byte>, rest: seq<byte>)
    requires 0 !in head && 0 !in rest && '.' as int !in head && |head| <= 11
    ensures 0 !in head + rest && 0 !in Splice(Spaces(11), 0, Uppers(head))
    ensures Fat83(head + rest) == FillName(rest, |head|, Splice(Spaces(11), 0, Uppers(head)))
  {
    hide FillName, Splice;
    NoNul(Spaces(11), 0, head);
    FillPlain(head, rest, 0, Spaces(11));
  }

  lemma FillExt(tail: seq<byte>, field: seq<byte>)
    requires 0 !in tail && '.' as int !in tail && |field| == 11 && 0 !in field
    ensures FillName(tail, 8, field) == Splice(field, 8, Uppers(Cut(tail, 3)))
  {
    hide FillName, Splice;
    var ext := Cut(tail, 3);
    var rest := tail[|ext|..];
    assert tail == ext + rest;
    NoNul(field, 8, ext);
    FillPlain(ext, rest, 8, field);
    if |ext| == 3 { FillFull(rest, Splice(field, 8, Uppers(ext))); } else { FillNone(8 + |ext|, Splice(field, 8, Uppers(ext))); }
  }

  lemma FillNone(di: nat, dst: seq<byte>)
    requires |dst| == 11 && 0 !in dst
    ensures FillName([], di, dst) == dst
  {}

  lemma FillDot(tail: seq<byte>, di: nat, dst: seq<byte>)
    requires |dst| == 11 && 0 !in dst && 0 !in tail && tail != [] && tail[0] == '.' as int && di < 11
    ensures FillName(tail, di, dst) == FillName(tail[1..], 8, dst)
  {}

  method NameToFat83(src: seq<byte>) returns (dst: seq<byte>)
    requires 0 in src
    ensures dst == Fat83(CStr(src))
  {
    dst := Spaces(11);
    var s := CStr(src);
    var di, i := 0, 0;
    while src[i] != 0 && di < 11
      invariant 0 <= di && 0 <= i <= |s| && |dst| == 11 && 0 !in dst && 0 !in s[i..]
      invariant FillName(s[i..], di, dst) == Fat83(s)
      decreases |s| - i
    {
      assert i < |s| && s[i..][0] == s[i] == src[i] && s[i..][1..] == s[i + 1..];
      var c := src[i];
      if c == '.' as int {
        di := 8;
      } else {
        c := Upper(c);
        if di < 11 {
          dst := dst[di := c];
          di := di + 1;
        }
      }
      i := i + 1;
    }
  }

  // ----- the drive

  /** An ATA drive. `log` records the writes that reached the medium, in order; `failures`
      counts the operations that reported an error. */
  class Drive {
    var sectors: Disk
    ghost var log: seq<SectorWrite>
    ghost var failures: nat

    /** A failed read leaves the buffer alone. */
    method Read(lba: int, buf: array<byte>, at: nat) returns (ok: bool)
      requires IsDisk(sectors) && at + SECTOR <= buf.Length
      modifies buf, this`failures
      ensures ok ==> 0 <= lba < SECTORS && buf[..] == Splice(old(buf[..]), at, sectors[lba]) && failures == old(failures)
      ensures !ok ==> buf[..] == old(buf[..]) && failures == old(failures) + 1
    {
      var responds: bool := *;
      if lba < 0 || lba >= SECTORS || !responds {
        failures := failures + 1;
        return false;
      }
      var i := 0;
      while i < SECTOR
        invariant 0 <= i <= SECTOR
        invariant forall j :: 0 <= j < buf.Length ==>
          buf[j] == if at <= j < at + i then sectors[lba][j - at] else old(buf[j])
        modifies buf
      {
        buf[at + i] := sectors[lba][i];
        i := i + 1;
      }
      return true;
    }

    /** A failed write leaves the sector either old or new. */
    method Write(lba: int, data: seq<byte>) returns (ok: bool)
      requires IsDisk(sectors) && |data| == SECTOR
      modifies this
      ensures IsDisk(sectors)
      ensures ok ==> InDisk(SectorWrite(lba, data)) && failures == old(failures)
      ensures !ok ==> failures == old(failures) + 1
      ensures if ok || log != old(log)
              then log == old(log) + [SectorWrite(lba, data)] && sectors == Put(old(sectors), SectorWrite(lba, data))
              else sectors == old(sectors)
    {
      var responds: bool, flushed: bool := *, *;
      if lba < 0 || lba >= SECTORS || !responds {
        failures := failures + 1;
        return false;
      }
      sectors := sectors[lba := data];
      log := log + [SectorWrite(lba, data)];
      if !flushed {
        failures := failures + 1;
        return false;
      }
      return true;
    }
  }

  // ----- the driver

  lemma PrefixJoin(ws: seq<SectorWrite>, i: nat, n: nat)
    requires i + n <= |ws|
    ensures ws[..i] + ws[i..][..n] == ws[..i + n]
  {}

  /** What a directory scan for a name sees in an entry. */
  datatype Sighting = End | Deleted | Other | Match

  function Sight(en: seq<byte>, name: seq<byte>): Sighting
    requires |en| == 32
  {
    if en[0] == 0 then End
    else if en[0] == 0xE5 then Deleted
    else if !Skipped(en) && Name(en) == name then Match
    else Other
  }

  /** One step of the two scans. */
  lemma ScanAt(d: Disk, name: seq<byte>, e: nat)
    requires IsDisk(d) && e < ROOT_ENTRIES
    ensures var seen := Sight(Entry(d, e), name);
            && Lookup(d, name, e) == (if seen == End then None else if seen == Match then Some(e) else Lookup(d, name, e + 1))
            && FreeEntry(d, e) == (if seen == End || seen == Deleted then Some(e) else FreeEntry(d, e + 1))
  {
    hide Entry, Name;
  }

  lemma ScanEnd(d: Disk, name: seq<byte>)
    requires IsDisk(d)
    ensures Lookup(d, name, ROOT_ENTRIES) == None && FreeEntry(d, ROOT_ENTRIES) == None
  {}

  class Driver {
    const drive: Drive
    const fatBuf: array<byte>
    const sectorBuf: array<byte>
    var loaded: bool

    ghost predicate Valid()
      reads this, drive
    {
      IsDisk(drive.sectors) && fatBuf.Length == FAT_BYTES && sectorBuf.Length == SECTOR && fatBuf != sectorBuf
    }

    constructor (drive: Drive)
      requires IsDisk(drive.sectors)
      ensures Valid() && this.drive == drive && !loaded && fresh(fatBuf) && fresh(sectorBuf)
    {
      this.drive := drive;
      fatBuf := new byte[FAT_BYTES](_ => 0);
      sectorBuf := new byte[SECTOR](_ => 0);
      loaded := false;
    }

    // ----- table

    method NextCluster(c: int) returns (entry: int)
      requires Valid() && 0 <= c < U16
      ensures entry == FatGet(fatBuf[..], c)
    {
      var offset := c + c / 2;
      if offset + 1 >= fatBuf.Length { return END_OF_CHAIN; }
      entry := fatBuf[offset] as int + 256 * fatBuf[offset + 1] as int;
      if c % 2 == 1 {
        entry := entry / 16;
      } else {
        entry := entry % 4096;
      }
    }

    method SetCluster(c: int, v: int)
      requires Valid() && 0 <= c < U16 && 0 <= v < U16
      modifies fatBuf
      ensures fatBuf[..] == FatSet(old(fatBuf[..]), c, v)
    {
      var offset := c + c / 2;
      if offset + 1 >= fatBuf.Length { return; }
      if c % 2 == 1 {
        fatBuf[offset] := fatBuf[offset] % 16 + v * 16 % 256;
        fatBuf[offset + 1] := v / 16 % 256;
      } else {
        fatBuf[offset] := v % 256;
        fatBuf[offset + 1] := fatBuf[offset + 1] / 16 * 16 + v / 256 % 16;
      }
    }

    method FindFreeCluster() returns (c: int)
      requires Valid()
      ensures c == AllocCluster(fatBuf[..], 2)
    {
      c := 2;
      while c < 2848
        invariant 2 <= c <= 2848 && AllocCluster(fatBuf[..], 2) == AllocCluster(fatBuf[..], c)
      {
        var entry := NextCluster(c);
        if entry == 0 { return; }
        c := c + 1;
      }
      c := 0;
    }

    /** Writes both copies of the table; on failure only the first `k` of the 18 sectors. */
    method FlushFat() returns (ok: bool, ghost k: nat)
      requires Valid()
      modifies drive
      ensures Valid() && k <= 18 && (ok ==> k == 18)
      ensures ok <==> drive.failures == old(drive.failures)
      ensures drive.sectors == Apply(old(drive.sectors), FatWrites(fatBuf[..])[..k])
      ensures drive.log == old(drive.log) + FatWrites(fatBuf[..])[..k]
    {
      hide Apply, FatWrites, Put;
      ghost var ws := FatWrites(fatBuf[..]);
      k := 0;
      assert Apply(drive.sectors, ws[..0]) == drive.sectors by { ApplyNone(drive.sectors); }
      for copy := 0 to 2
        invariant k == 9 * copy && Valid() && drive.failures == old(drive.failures)
        invariant drive.sectors == Apply(old(drive.sectors), ws[..k]) && drive.log == old(drive.log) + ws[..k]
      {
        var base := if copy == 0 then FAT1_LBA else FAT2_LBA;
        for s := 0 to FAT_SECTORS
          invariant k == 9 * copy + s && Valid() && drive.failures == old(drive.failures)
          invariant drive.sectors == Apply(old(drive.sectors), ws[..k]) && drive.log == old(drive.log) + ws[..k]
        {
          ghost var before := drive.log;
          var written := drive.Write(base + s, fatBuf[s * SECTOR..(s + 1) * SECTOR]);
          FatWriteAt(fatBuf[..], copy, s);
          ApplyMore(old(drive.sectors), ws, k);
          if !written {
            if drive.log != before { k := k + 1; }
            return false, k;
          }
          k := k + 1;
        }
      }
      ok := true;
    }

    /** fat12_init: loads FAT1. A failed read leaves the driver's mounted state as it was. */
    method Init() returns (ok: bool)
      requires Valid()
      modifies fatBuf, this`loaded, drive`failures
      ensures Valid()
      ensures ok <==> drive.failures == old(drive.failures)
      ensures ok ==> loaded && fatBuf[..] == FatOnDisk(drive.sectors)
      ensures !ok ==> loaded == old(loaded)
      ensures !ok ==> exists s :: 0 <= s < FAT_SECTORS && fatBuf[..] == Mix(old(fatBuf[..]), FatOnDisk(drive.sectors), s * SECTOR)
    {
      hide FatOnDisk, FatSector, Splice;
      ghost var f, g := fatBuf[..], FatOnDisk(drive.sectors);
      for s := 0 to FAT_SECTORS
        invariant drive.failures == old(drive.failures)
        invariant fatBuf[..] == Mix(f, g, s * SECTOR)
        modifies fatBuf, drive`failures
      {
        var read := drive.Read(FAT1_LBA + s, fatBuf, s * SECTOR);
        if !read { return false; }
        FatOnDiskAt(drive.sectors, s);
        MixMore(f, g, s);
      }
      loaded := true;
      ok := true;
    }

    // ----- directory

    /** Reads the sector of entry `e`; afterwards the entry is at its offset in the buffer. */
    method ReadEntry(e: nat) returns (ok: bool)
      requires Valid() && e < ROOT_ENTRIES
      modifies sectorBuf, drive`failures
      ensures ok <==> drive.failures == old(drive.failures)
      ensures 0 <= EntryOffset(e) && EntryOffset(e) + 32 <= SECTOR
      ensures ok ==> sectorBuf[..] == drive.sectors[EntrySector(e)]
      ensures ok ==> sectorBuf[EntryOffset(e)..EntryOffset(e) + 32] == Entry(drive.sectors, e)
    {
      EntryPlace(e);
      ok := drive.Read(ROOT_LBA + e * 32 / SECTOR, sectorBuf, 0);
      if ok {
        assert sectorBuf[..] == drive.sectors[EntrySector(e)];
        assert sectorBuf[EntryOffset(e)..EntryOffset(e) + 32] == sectorBuf[..][EntryOffset(e)..EntryOffset(e) + 32];
      }
    }

    method MatchName(off: nat, name: seq<byte>) returns (same: bool)
      requires Valid() && off + 32 <= SECTOR && |name| == 11
      ensures same <==> Name(sectorBuf[off..off + 32]) == name
    {
      var i := 0;
      while i < 11
        invariant 0 <= i <= 11 && forall j :: 0 <= j < i ==> sectorBuf[off + j] == name[j]
      {
        if sectorBuf[off + i] != name[i] {
          assert Name(sectorBuf[off..off + 32])[i] != name[i];
          return false;
        }
        i := i + 1;
      }
      assert Name(sectorBuf[off..off + 32]) == name;
      return true;
    }

    /** The body shared by the two directory scans: reads entry `e` and says what the scan sees. */
    method Inspect(e: nat, fat83: seq<byte>) returns (ok: bool, seen: Sighting, en: seq<byte>)
      requires Valid() && e < ROOT_ENTRIES && |fat83| == 11
      modifies sectorBuf, drive`failures
      ensures ok <==> drive.failures == old(drive.failures)
      ensures ok ==> en == Entry(drive.sectors, e) && seen == Sight(en, fat83)
    {
      hide Entry, Name;
      seen, en := Other, [];
      ok := ReadEntry(e);
      if !ok { return; }
      var off := e * 32 % SECTOR;
      en := sectorBuf[off..off + 32];
      if en[0] == 0 {
        seen := End;
      } else if en[0] == 0xE5 {
        seen := Deleted;
      } else if en[11] != 0x08 && en[11] != 0x10 && en[11] != 0x0F {
        var same := MatchName(off, fat83);
        if same { seen := Match; }
      }
    }

    // ----- reading

    /** Returns the number of bytes delivered, or -1. Without a drive error -1 means that the driver
        is not mounted, that `len` is 0, or that there is no such file. */
    method ReadInto(name: seq<byte>, buf: array<byte>, len: nat) returns (n: int)
      requires Valid() && 0 in name && len <= buf.Length && buf != fatBuf && buf != sectorBuf
      modifies buf, sectorBuf, drive`failures
      ensures n == -1 ==> buf[..] == old(buf[..])
      ensures n == -1 && drive.failures == old(drive.failures) ==>
                !loaded || len == 0 || ReadFile(drive.sectors, Fat83(CStr(name)), len) == None
      ensures n != -1 ==> && loaded && 0 <= n <= len
                          && ReadFile(drive.sectors, Fat83(CStr(name)), len) == Some(buf[..n])
                          && buf[n..] == old(buf[n..])
    {
      hide Entry, Fat83, Name, Cluster, Size, Lookup, Sight, FreeEntry;
      if !loaded || len == 0 { return -1; }
      var fat83 := NameToFat83(name);
      var e, found, en := 0, false, [];
      while e < ROOT_ENTRIES && !found
        invariant 0 <= e <= ROOT_ENTRIES && drive.failures == old(drive.failures)
        invariant !found ==> Lookup(drive.sectors, fat83, 0) == Lookup(drive.sectors, fat83, e)
        invariant found ==> e < ROOT_ENTRIES && Lookup(drive.sectors, fat83, 0) == Some(e)
        invariant found ==> en == Entry(drive.sectors, e)
        decreases ROOT_ENTRIES - e, !found
        modifies sectorBuf, drive`failures
      {
        ScanAt(drive.sectors, fat83, e);
        var read, seen;
        read, seen, en := Inspect(e, fat83);
        if !read { return -1; }
        if seen == End { break; }
        found := seen == Match;
        if !found { e := e + 1; }
      }
      if !found {
        ScanEnd(drive.sectors, fat83);
        return -1;
      }
      n := Deliver(en, buf, len);
    }

    /** Copies the file of directory entry `en` out of its first sector. */
    method Deliver(en: seq<byte>, buf: array<byte>, len: nat) returns (n: int)
      requires Valid() && |en| == 32 && len <= buf.Length && buf != fatBuf && buf != sectorBuf
      modifies buf, sectorBuf, drive`failures
      ensures n == -1 || n == Min(Min(Size(en), len), SECTOR)
      ensures n == -1 ==> buf[..] == old(buf[..]) && drive.failures == old(drive.failures) + 1
      ensures n != -1 ==> && drive.failures == old(drive.failures)
                          && 0 <= ClusterLba(Cluster(en)) < SECTORS
                          && buf[..n] == drive.sectors[ClusterLba(Cluster(en))][..n]
                          && buf[n..] == old(buf[n..])
    {
      hide Size, Cluster;
      var toRead := if Size(en) < len then Size(en) else len;
      var lba := ClusterLba(Cluster(en));
      var read := drive.Read(lba, sectorBuf, 0);
      if !read { return -1; }
      var copy := if toRead < SECTOR then toRead else SECTOR;
      assert sectorBuf[..] == drive.sectors[lba];
      CopyOut(buf, copy);
      assert buf[..copy] == sectorBuf[..][..copy];
      return copy;
    }

    method CopyOut(buf: array<byte>, n: nat)
      requires n <= buf.Length && n <= sectorBuf.Length && buf != sectorBuf
      modifies buf
      ensures buf[..n] == sectorBuf[..n] && buf[n..] == old(buf[n..])
    {
      var i := 0;
      while i < n
        invariant 0 <= i <= n
        invariant forall j :: 0 <= j < i ==> buf[j] == sectorBuf[j]
        invariant forall j :: i <= j < buf.Length ==> buf[j] == old(buf[j])
      {
        buf[i] := sectorBuf[i];
        i := i + 1;
      }
    }

    // ----- writing

    /** Phase 1: looks for the file and for the first reusable entry on the way. */
    method Scan(fat83: seq<byte>) returns (ok: bool, found: bool, e: nat, cluster: int, free: Option<nat>)
      requires Valid() && |fat83| == 11
      modifies sectorBuf, drive`failures
      ensures ok <==> drive.failures == old(drive.failures)
      ensures ok && found ==> && Lookup(drive.sectors, fat83, 0) == Some(e)
                              && cluster == Cluster(Entry(drive.sectors, e))
      ensures ok && !found ==> Lookup(drive.sectors, fat83, 0) == None && FreeEntry(drive.sectors, 0) == free
    {
      hide Entry, Name, Cluster, Lookup, Sight, FreeEntry;
      e, found, cluster, free := 0, false, 0, None;
      while e < ROOT_ENTRIES && !found
        invariant 0 <= e <= ROOT_ENTRIES && drive.failures == old(drive.failures)
        invariant !found ==> Lookup(drive.sectors, fat83, 0) == Lookup(drive.sectors, fat83, e)
        invariant !found && free.None? ==> FreeEntry(drive.sectors, 0) == FreeEntry(drive.sectors, e)
        invariant !found && free.Some? ==> FreeEntry(drive.sectors, 0) == free
        invariant found ==> e < ROOT_ENTRIES && Lookup(drive.sectors, fat83, 0) == Some(e)
        invariant found ==> cluster == Cluster(Entry(drive.sectors, e))
        decreases ROOT_ENTRIES - e, !found
        modifies sectorBuf, drive`failures
      {
        ScanAt(drive.sectors, fat83, e);
        var seen, en;
        ok, seen, en := Inspect(e, fat83);
        if !ok { return; }
        if (seen == End || seen == Deleted) && free.None? { free := Some(e); }
        if seen == End { break; }
        found := seen == Match;
        if found { cluster := Cluster(en); } else { e := e + 1; }
      }
      ok := true;
      if !found { ScanEnd(drive.sectors, fat83); }
    }

    /** Phases 1 and 2: the directory entry and the cluster to use, if there is room. */
    method Choose(fat83: seq<byte>, ghost data: seq<byte>)
      returns (ok: bool, room: bool, e: nat, cluster: int, found: bool)
      requires Valid() && |fat83| == 11 && |data| <= SECTOR
      modifies sectorBuf, drive`failures
      ensures ok <==> drive.failures == old(drive.failures)
      ensures ok ==> (room <==> !NoRoom(drive.sectors, fatBuf[..], fat83))
      ensures ok && room ==> && e < ROOT_ENTRIES && 0 <= cluster < U16
                             && MakePlan(drive.sectors, fatBuf[..], fat83, data)
                                == Some(PlanFor(drive.sectors, fatBuf[..], fat83, data, e, cluster, !found))
    {
      hide Lookup, FreeEntry, Entry, AllocCluster, PlanFor, NoRoom;
      PlanUnlessNoRoom(drive.sectors, fatBuf[..], fat83, data);
      var free;
      ok, found, e, cluster, free := Scan(fat83);
      room := true;
      if !ok || found { return; }
      if free.None? { return true, false, 0, 0, false; }
      e := free.value;
      cluster := FindFreeCluster();
      room := cluster != 0;
    }

    /** Phase 3: the data in a zeroed sector buffer. */
    method FillSector(data: seq<byte>)
      requires Valid() && |data| <= SECTOR
      modifies sectorBuf
      ensures sectorBuf[..] == Pad(data)
    {
      var i := 0;
      while i < SECTOR
        invariant 0 <= i <= SECTOR && forall j :: 0 <= j < i ==> sectorBuf[j] == 0
      {
        sectorBuf[i] := 0;
        i := i + 1;
      }
      i := 0;
      while i < |data|
        invariant 0 <= i <= |data|
        invariant forall j :: 0 <= j < SECTOR ==> sectorBuf[j] == if j < i then data[j] else 0
      {
        sectorBuf[i] := data[i];
        i := i + 1;
      }
    }

    method CopyBytes(at: nat, bytes: seq<byte>)
      requires at + |bytes| <= sectorBuf.Length
      modifies sectorBuf
      ensures sectorBuf[..] == Splice(old(sectorBuf[..]), at, bytes)
    {
      var i := 0;
      while i < |bytes|
        invariant 0 <= i <= |bytes|
        invariant forall j :: 0 <= j < sectorBuf.Length ==>
          sectorBuf[j] == if at <= j < at + i then bytes[j - at] else old(sectorBuf[j])
      {
        sectorBuf[at + i] := bytes[i];
        i := i + 1;
      }
    }

    /** Phase 4: the fields of the directory entry, in the order the driver assigns them. */
    method PutEntry(off: nat, fat83: seq<byte>, cluster: int, len: int)
      requires Valid() && off + 32 <= SECTOR && |fat83| == 11 && 0 <= cluster < U16 && 0 <= len < U32
      modifies sectorBuf
      ensures sectorBuf[..] == Splice(old(sectorBuf[..]), off, NewEntry(fat83, cluster, len))
    {
      hide Bytes16, Bytes32, NewEntry, Splice;
      ghost var m := sectorBuf[..];
      CopyBytes(off, fat83);
      sectorBuf[off + 11] := 0x20;
      CopyBytes(off + 26, Bytes16(cluster));
      CopyBytes(off + 28, Bytes32(len));
      CopyBytes(off + 22, [0, 0]);
      CopyBytes(off + 24, [0, 0]);
      CopyBytes(off + 12, [0, 0, 0, 0, 0, 0, 0, 0, 0, 0]);
      NewEntryBytes(fat83, cluster, len);
      ghost var en := NewEntry(fat83, cluster, len);
      assert forall j :: 0 <= j < SECTOR && !(off <= j < off + 32) ==> sectorBuf[j] == m[j];
      assert forall j :: 0 <= j < 32 ==> sectorBuf[off + j] == en[j];
      assert sectorBuf[..] == Splice(m, off, en);
    }

    /** Phases 3 to 5: data sector, directory entry, both tables. `k` counts the sectors that
        reached the disk. */
    method Commit(fat83: seq<byte>, data: seq<byte>, e: nat, cluster: int, ghost plan: Plan) returns (ok: bool, ghost k: nat)
      requires Valid() && |fat83| == 11 && |data| <= SECTOR && e < ROOT_ENTRIES && 0 <= cluster < U16
      requires |plan.writes| == 20 && plan.writes[2..] == FatWrites(fatBuf[..])
      requires plan.writes[0] == SectorWrite(ClusterLba(cluster), Pad(data))
      requires plan.writes[1] == SectorWrite(EntrySector(e), DirSector(Put(drive.sectors, plan.writes[0]), fat83, |data|, e, cluster))
      modifies sectorBuf, drive
      ensures Valid() && k <= 20 && (ok ==> k == 20)
      ensures ok <==> drive.failures == old(drive.failures)
      ensures drive.sectors == Apply(old(drive.sectors), plan.writes[..k])
      ensures drive.log == old(drive.log) + plan.writes[..k]
    {
      hide Apply, Put, FatWrites, Pad, DirSector, Splice;
      ghost var d, log, ws := drive.sectors, drive.log, plan.writes;
      ApplyNone(d);
      ApplyMore(d, ws, 0);
      ApplyMore(d, ws, 1);
      assert ws[..0] == [];
      FillSector(data);
      ok := drive.Write(ClusterLba(cluster), sectorBuf[..]);
      k := if drive.log == log then 0 else 1;
      if !ok { return; }
      ok := ReadEntry(e);
      if !ok { return; }
      EntryPlace(e);
      PutEntry(e * 32 % SECTOR, fat83, cluster, |data|);
      DirSectorIs(drive.sectors, fat83, |data|, e, cluster);
      ok := drive.Write(EntrySector(e), sectorBuf[..]);
      k := if drive.log == log + ws[..1] then 1 else 2;
      if !ok { return; }
      ghost var n;
      ok, n := FlushFat();
      k := 2 + n;
      ApplyConcat(d, ws[..2], ws[2..][..n]);
      PrefixJoin(ws, 2, n);
    }

    /** fat12_write_file. Returns the (capped) length on success and -1 otherwise. It succeeds
        exactly when the driver is mounted, the volume has room and no drive operation fails. */
    method WriteFile(name: seq<byte>, buf: seq<byte>, len: nat) returns (r: int, ghost written: seq<SectorWrite>)
      requires Valid() && 0 in name && len <= |buf|
      modifies sectorBuf, fatBuf, drive
      ensures Valid() && loaded == old(loaded) && drive.log == old(drive.log) + written
      ensures WriteOutcome(loaded, old(drive.sectors), old(fatBuf[..]), Fat83(CStr(name)), buf[..Min(len, SECTOR)],
                           drive.sectors, fatBuf[..], written, drive.failures != old(drive.failures), r)
    {
      hide Apply, Fat83, MakePlan, PlanFor, FatSet, NoRoom;
      r, written := -1, [];
      ApplyNone(drive.sectors);
      PlanUnlessNoRoom(drive.sectors, fatBuf[..], Fat83(CStr(name)), buf[..Min(len, SECTOR)]);
      if !loaded { return; }
      var len' := if len > SECTOR then SECTOR else len;
      var data := buf[..len'];
      var fat83 := NameToFat83(name);
      ghost var d, f := drive.sectors, fatBuf[..];
      var ok, room, e, cluster, found := Choose(fat83, data);
      if !ok || !room { return; }
      ghost var plan := MakePlan(d, f, fat83, data).value;
      SetCluster(cluster, END_OF_CHAIN);
      PlanWrites(d, f, fat83, data, e, cluster, !found);
      ghost var k;
      ok, k := Commit(fat83, data, e, cluster, plan);
      written := plan.writes[..k];
      r := if ok then len' else -1;
    }
  }

  /** What a call of fat12_write_file can do: it succeeds exactly when the driver is mounted, the
      volume has room and no drive operation fails; whatever happens, the sectors that reached the
      disk are a prefix of the plan. */
  ghost predicate WriteOutcome(loaded: bool, d: Disk, f: seq<byte>, name: seq<byte>, data: seq<byte>,
                               d': Disk, f': seq<byte>, written: seq<SectorWrite>, failed: bool, r: int)
    requires IsDisk(d) && |f| == FAT_BYTES && |name| == 11 && |data| <= SECTOR
  {
    var plan := MakePlan(d, f, name, data);
    && (r == -1 || r == |data|)
    && (r != -1 <==> loaded && !NoRoom(d, f, name) && !failed)
    && (plan.None? <==> NoRoom(d, f, name))
    && (!loaded || plan.None? ==> written == [] && d' == d && f' == f)
    && (loaded && plan.Some? ==>
          && written <= plan.value.writes && d' == Apply(d, written)
          && (r != -1 ==> written == plan.value.writes)
          && (f' == plan.value.fat || (written == [] && r == -1 && f' == f)))
  }

  /** Every call is a step of the kind whose runs VolumeLaws considers. */
  lemma OutcomeIsStep(loaded: bool, d: Disk, f: seq<byte>, name: seq<byte>, data: seq<byte>,
                      d': Disk, f': seq<byte>, written: seq<SectorWrite>, failed: bool, r: int)
    requires IsDisk(d) && |f| == FAT_BYTES && |name| == 11 && |data| <= SECTOR
    requires WriteOutcome(loaded, d, f, name, data, d', f', written, failed, r)
    ensures StoreStep(d, f, name, data, d', f', r)
  {
    hide MakePlan, Apply;
    ApplyNone(d);
    var plan := MakePlan(d, f, name, data);
    if loaded && plan.Some? {
      var k := |written|;
      assert written == plan.value.writes[..k];
    }
  }

  lemma MixMore(f: seq<byte>, g: seq<byte>, s: nat)
    requires |f| == |g| == FAT_BYTES && s < FAT_SECTORS
    ensures Splice(Mix(f, g, s * SECTOR), s * SECTOR, FatSector(g, s)) == Mix(f, g, (s + 1) * SECTOR)
  {}

  /** The bytes of a new entry, by position. */
  lemma NewEntryBytes(name: seq<byte>, cluster: int, size: int)
    requires |name| == 11 && 0 <= cluster < U16 && 0 <= size < U32
    ensures var en := NewEntry(name, cluster, size);
            forall i :: 0 <= i < 32 ==>
              en[i] == if i < 11 then name[i] else if i == 11 then 0x20 else if i < 26 then 0
                       else if i < 28 then Bytes16(cluster)[i - 26] else Bytes32(size)[i - 28]
  {}

  lemma DirSectorIs(d: Disk, name: seq<byte>, size: int, e: nat, c: int)
    requires IsDisk(d) && |name| == 11 && 0 <= size < U32 && e < ROOT_ENTRIES && 0 <= c < U16
    ensures 0 <= EntrySector(e) < SECTORS && 0 <= EntryOffset(e) && EntryOffset(e) + 32 <= SECTOR
    ensures DirSector(d, name, size, e, c) == Splice(d[EntrySector(e)], EntryOffset(e), NewEntry(name, c, size))
  {
    EntryPlace(e);
  }

  lemma PlanWrites(d: Disk, f: seq<byte>, name: seq<byte>, data: seq<byte>, e: nat, c: int, isNew: bool)
    requires IsDisk(d) && |f| == FAT_BYTES && |name| == 11 && |data| <= SECTOR && e < ROOT_ENTRIES && 0 <= c < U16
    ensures var p := PlanFor(d, f, name, data, e, c, isNew);
            && p.fat == FatSet(f, c, END_OF_CHAIN) && p.writes[2..] == FatWrites(p.fat)
            && p.writes[0] == SectorWrite(ClusterLba(c), Pad(data))
            && p.writes[1] == SectorWrite(EntrySector(e), DirSector(Put(d, p.writes[0]), name, |data|, e, c))
  {}

  lemma {:induction false} ApplyConcat(d: Disk, us: seq<SectorWrite>, vs: seq<SectorWrite>)
    requires IsDisk(d)
    ensures Apply(d, us + vs) == Apply(Apply(d, us), vs)
  {
    if vs == [] {
      assert us + vs == us;
    } else {
      var n := |vs| - 1;
      assert (us + vs)[..|us| + n] == us + vs[..n];
      ApplyConcat(d, us, vs[..n]);
    }
  }

  lemma ApplyNone(d: Disk)
    requires IsDisk(d)
    ensures Apply(d, []) == d
  {}

  lemma FatWriteAt(f: seq<byte>, copy: int, s: int)
    requires |f| == FAT_BYTES && 0 <= copy < 2 && 0 <= s < FAT_SECTORS
    ensures FatWrites(f)[9 * copy + s]
         == SectorWrite((if copy == 0 then FAT1_LBA else FAT2_LBA) + s, f[s * SECTOR..(s + 1) * SECTOR])
  {}

  lemma ApplyMore(d: Disk, ws: seq<SectorWrite>, k: nat)
    requires IsDisk(d) && k < |ws|
    ensures Apply(d, ws[..k + 1]) == Put(Apply(d, ws[..k]), ws[k])
    ensures ws[..k + 1] == ws[..k] + [ws[k]]
  {
    assert ws[..k + 1][..k] == ws[..k];
  }
}

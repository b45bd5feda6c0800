/** What a remount finds when the stores of a run were stopped anywhere, once or several times. */
module CrashLaws {
  import opened Bytes
  import opened Common
  import opened FatTable
  import opened Volume
  import opened VolumeLaws

  // ----- the table on disk after k writes

  /** Bytes of FAT1 rewritten by the first `k` writes of a store. */
  function Flushed(k: nat): (n: nat)
    ensures n <= FAT_BYTES
  {
    (if k < 2 then 0 else Min(k - 2, FAT_SECTORS)) * SECTOR
  }

  /** FAT1 after the first `k` writes: rewritten up to the sector reached, old after it. */
  lemma FatAfterCrash(d: Disk, f: seq<byte>, name: seq<byte>, data: seq<byte>, p: Plan, k: nat)
    requires WellFormed(d, f) && |name| == 11 && |data| <= SECTOR
    requires MakePlan(d, f, name, data) == Some(p) && k <= 20
    ensures FatOnDisk(Apply(d, p.writes[..k])) == Mix(FatOnDisk(d), p.fat, Flushed(k))
  {
    hide Entry, MakePlan, Apply, PlanFor, Lookup, FreeEntry, FatOnDisk, FatSector, FatGet;
    PlanChoice(d, f, name, data, p);
    EntryPlace(p.entry);
    var d' := Apply(d, p.writes[..k]);
    var n := if k < 2 then 0 else Min(k - 2, FAT_SECTORS);
    var g := Mix(FatOnDisk(d), p.fat, n * SECTOR);
    AfterWrites(d, f, name, data, p.entry, p.cluster, p.isNew, k);
    forall s | 0 <= s < FAT_SECTORS ensures FatSector(FatOnDisk(d'), s) == FatSector(g, s) {
      FatOnDiskAt(d', s);
      FatOnDiskAt(d, s);
      MixSector(FatOnDisk(d), p.fat, n, s);
    }
    SameSectorsSameFat(FatOnDisk(d'), g, FAT_SECTORS);
    assert FatOnDisk(d')[..FAT_BYTES] == FatOnDisk(d') && g[..FAT_BYTES] == g;
  }

  lemma MixSector(f: seq<byte>, f': seq<byte>, n: nat, s: nat)
    requires |f| == |f'| == FAT_BYTES && n <= FAT_SECTORS && s < FAT_SECTORS
    ensures FatSector(Mix(f, f', n * SECTOR), s) == if s < n then FatSector(f', s) else FatSector(f, s)
  {}

  /** The number of writes after which the table entry of cluster `c` has reached FAT1. */
  function Marked(c: int): int { 3 + Offset(c) / SECTOR }

  lemma FlushedMarks(k: nat, c: int)
    requires 2 <= c <= LAST_CLUSTER && k <= 20
    ensures Flushed(k) > Offset(c) <==> k >= Marked(c)
    ensures 3 <= Marked(c) <= 11
  {
    var q, r := Offset(c) / SECTOR, Offset(c) % SECTOR;
    assert Offset(c) == SECTOR * q + r;
  }

  // ----- lost clusters

  /** The clusters of files that the table on disk calls free. */
  ghost function Lost(d: Disk): set<int>
    requires IsDisk(d)
  {
    set e: nat | e < ROOT_ENTRIES && IsLost(d, e) :: Cluster(Entry(d, e))
  }

  predicate IsLost(d: Disk, e: nat)
    requires IsDisk(d) && e < ROOT_ENTRIES
  {
    IsFile(Entry(d, e)) && FatGet(FatOnDisk(d), Cluster(Entry(d, e))) == 0
  }

  /** A remount is safe exactly when no cluster is lost. */
  lemma RemountSafe(d: Disk, f: seq<byte>)
    requires WellFormed(d, f)
    ensures WellFormed(d, FatOnDisk(d)) <==> Lost(d) == {}
  {
    hide Entry, FatGet, FatOnDisk, IsFile;
    if Lost(d) == {} {
      forall e: nat | e < ROOT_ENTRIES && IsFile(Entry(d, e)) ensures FatGet(FatOnDisk(d), Cluster(Entry(d, e))) != 0 {
        assert Cluster(Entry(d, e)) !in Lost(d);
      }
    }
  }

  /** The cluster that the first `k` writes of a store give to a new file. A name that begins like a
      deleted entry makes no file. */
  function Opened(p: Plan, name: seq<byte>, k: nat): set<int>
    requires |name| == 11
  {
    if p.isNew && name[0] != 0xE5 && k >= 2 then {p.cluster} else {}
  }

  /** The table on disk after `k` writes still lags behind the one in memory, and an entry has
      stopped being free exactly if it is in use in memory and its sector is written. */
  lemma TableAfter(d: Disk, f: seq<byte>, name: seq<byte>, data: seq<byte>, p: Plan, k: nat)
    requires WellFormed(d, f) && Ahead(FatOnDisk(d), f) && |name| == 11 && |data| <= SECTOR
    requires MakePlan(d, f, name, data) == Some(p) && k <= 20
    ensures var g := FatOnDisk(Apply(d, p.writes[..k]));
            && Ahead(g, p.fat)
            && forall c :: 2 <= c <= LAST_CLUSTER ==>
                 (FatGet(g, c) != 0 <==> FatGet(FatOnDisk(d), c) != 0 || (FatGet(p.fat, c) != 0 && k >= Marked(c)))
  {
    hide Entry, MakePlan, Apply, PlanFor, FatOnDisk, FatGet, FatSet, Mix, Flushed, Marked, Offset;
    PlanChoice(d, f, name, data, p);
    PlanFat(d, f, name, data, p);
    AheadSet(FatOnDisk(d), f, p.cluster);
    FatAfterCrash(d, f, name, data, p, k);
    MixAhead(FatOnDisk(d), p.fat, Flushed(k));
    forall c | 2 <= c <= LAST_CLUSTER ensures Flushed(k) > Offset(c) <==> k >= Marked(c) { FlushedMarks(k, c); }
  }

  /** The files of the volume after `k` writes, and their table entries in memory. */
  lemma FilesAfter(d: Disk, f: seq<byte>, name: seq<byte>, data: seq<byte>, p: Plan, k: nat, e: nat)
    requires WellFormed(d, f) && |name| == 11 && name[0] != 0 && |data| <= SECTOR
    requires MakePlan(d, f, name, data) == Some(p) && k <= 20 && e < ROOT_ENTRIES
    ensures var d' := Apply(d, p.writes[..k]);
            && (e == p.entry && Opened(p, name, k) != {} ==> IsFile(Entry(d', e)) && Cluster(Entry(d', e)) == p.cluster)
            && (!(e == p.entry && Opened(p, name, k) != {}) ==> IsFile(Entry(d', e)) == IsFile(Entry(d, e)))
            && (IsFile(Entry(d, e)) ==> Cluster(Entry(d', e)) == Cluster(Entry(d, e)))
    ensures p.isNew && e == p.entry ==> !IsFile(Entry(d, e))
  {
    hide Entry, MakePlan, Apply, PlanFor, Lookup, FreeEntry, FatGet, NewEntry, Name, Cluster;
    PlanChoice(d, f, name, data, p);
    EntriesAfter(d, f, name, data, p.entry, p.cluster, p.isNew, k, e);
    NewEntryFields(name, p.cluster, |data|);
    if !p.isNew && e == p.entry { assert Name(Entry(d, e)) == name; NameStart(Entry(d, e)); }
  }

  lemma NameStart(en: seq<byte>)
    requires |en| == 32
    ensures |Name(en)| == 11 && Name(en)[0] == en[0]
  {}

  lemma LostEntryAfter(d: Disk, f: seq<byte>, name: seq<byte>, data: seq<byte>, p: Plan, k: nat, e: nat)
    requires WellFormed(d, f) && Ahead(FatOnDisk(d), f) && |name| == 11 && name[0] != 0 && |data| <= SECTOR
    requires MakePlan(d, f, name, data) == Some(p) && k <= 20 && e < ROOT_ENTRIES
    ensures var d' := Apply(d, p.writes[..k]);
            && (IsLost(d', e) <==> && (IsLost(d, e) || (e == p.entry && Opened(p, name, k) != {}))
                                   && k < Marked(Cluster(Entry(d', e))))
            && (IsLost(d, e) ==> Cluster(Entry(d', e)) == Cluster(Entry(d, e)))
            && (e == p.entry && Opened(p, name, k) != {} ==> Cluster(Entry(d', e)) == p.cluster)
  {
    hide Entry, MakePlan, Apply, FatOnDisk, FatGet, Marked, Ahead, IsFile, Lookup, FreeEntry, AllocCluster, PlanFor;
    TableAfter(d, f, name, data, p, k);
    FilesAfter(d, f, name, data, p, k, e);
    WritesKeepWellFormed(d, f, name, data, p, k);
    PlanChoice(d, f, name, data, p);
    if p.isNew { AheadFree(FatOnDisk(d), f, p.cluster); }
  }

  lemma AheadFree(g: seq<byte>, f: seq<byte>, c: int)
    requires |g| == |f| == FAT_BYTES && Ahead(g, f) && 0 <= c < FAT_ENTRIES && FatGet(f, c) == 0
    ensures FatGet(g, c) == 0
  {
    hide FatGet;
  }

  /** The lost clusters after `k` writes: those lost before and that of a new file, less those whose
      table entry has been written. */
  lemma LostAfter(d: Disk, f: seq<byte>, name: seq<byte>, data: seq<byte>, p: Plan, k: nat)
    requires WellFormed(d, f) && Ahead(FatOnDisk(d), f) && |name| == 11 && name[0] != 0 && |data| <= SECTOR
    requires MakePlan(d, f, name, data) == Some(p) && k <= 20
    ensures Ahead(FatOnDisk(Apply(d, p.writes[..k])), p.fat)
    ensures Lost(Apply(d, p.writes[..k])) == set c | c in Lost(d) + Opened(p, name, k) && k < Marked(c)
  {
    hide Entry, MakePlan, Apply, FatOnDisk, Marked, Ahead, IsLost, FatGet;
    TableAfter(d, f, name, data, p, k);
    PlanChoice(d, f, name, data, p);
    var d' := Apply(d, p.writes[..k]);
    forall e: nat | e < ROOT_ENTRIES
      ensures IsLost(d', e) <==> (IsLost(d, e) || (e == p.entry && Opened(p, name, k) != {})) && k < Marked(Cluster(Entry(d', e)))
      ensures IsLost(d, e) ==> Cluster(Entry(d', e)) == Cluster(Entry(d, e))
      ensures e == p.entry && Opened(p, name, k) != {} ==> Cluster(Entry(d', e)) == p.cluster
    {
      LostEntryAfter(d, f, name, data, p, k, e);
    }
    forall c | c in Lost(d) + Opened(p, name, k) && k < Marked(c) ensures c in Lost(d') {
      if c in Lost(d) {
        var e: nat :| e < ROOT_ENTRIES && IsLost(d, e) && Cluster(Entry(d, e)) == c;
        assert IsLost(d', e);
      } else {
        assert IsLost(d', p.entry);
      }
    }
  }

  // ----- stopping a store

  /** Stopping after `k` writes and mounting again is safe exactly when every cluster lost before, and
      that of a new file whose directory entry is written, has its table entry written by then. */
  lemma CrashSafety(d: Disk, f: seq<byte>, name: seq<byte>, data: seq<byte>, p: Plan, k: nat)
    requires WellFormed(d, f) && Ahead(FatOnDisk(d), f) && |name| == 11 && name[0] != 0 && |data| <= SECTOR
    requires MakePlan(d, f, name, data) == Some(p) && k <= 20
    ensures var d' := Apply(d, p.writes[..k]);
            WellFormed(d', FatOnDisk(d')) <==> forall c :: c in Lost(d) + Opened(p, name, k) ==> k >= Marked(c)
  {
    hide MakePlan, Apply, FatOnDisk, Marked, Ahead, Entry, FatGet, Lost, Opened;
    WritesKeepWellFormed(d, f, name, data, p, k);
    RemountSafe(Apply(d, p.writes[..k]), p.fat);
    LostAfter(d, f, name, data, p, k);
    var lost := Lost(d) + Opened(p, name, k);
    if c :| c in lost && k < Marked(c) { assert c in Lost(Apply(d, p.writes[..k])); }
  }

  lemma InSync(d: Disk, f: seq<byte>)
    requires WellFormed(d, f) && FatOnDisk(d) == f
    ensures Ahead(FatOnDisk(d), f) && Lost(d) == {}
  {
    hide Entry, FatOnDisk, FatGet;
    RemountSafe(d, f);
  }

  /** When the tables on disk and in memory agree, only the file being stored is at risk, and only if
      it is new. */
  lemma CrashSafetyInSync(d: Disk, f: seq<byte>, name: seq<byte>, data: seq<byte>, p: Plan, k: nat)
    requires WellFormed(d, f) && |name| == 11 && name[0] != 0 && |data| <= SECTOR && FatOnDisk(d) == f
    requires MakePlan(d, f, name, data) == Some(p) && k <= 20
    ensures var d' := Apply(d, p.writes[..k]);
            WellFormed(d', FatOnDisk(d')) <==> !p.isNew || name[0] == 0xE5 || k < 2 || k > 2 + Offset(p.cluster) / SECTOR
  {
    hide MakePlan, Apply, FatOnDisk, Ahead, Entry, FatGet, Lost, Offset;
    InSync(d, f);
    CrashSafety(d, f, name, data, p, k);
    assert Lost(d) + Opened(p, name, k) == Opened(p, name, k);
    if Opened(p, name, k) != {} { assert p.cluster in Opened(p, name, k); }
  }

  /** The store of a new file fails inside the window and is tried again without a remount. The file is
      found now, and still the volume is unsafe until the retry has written the table sector. */
  lemma RetryUnsafe(d: Disk, f: seq<byte>, name: seq<byte>, data: seq<byte>, p: Plan, k: nat,
                    data2: seq<byte>, p2: Plan, k2: nat)
    requires WellFormed(d, f) && FatOnDisk(d) == f && MakePlanOk(d, f, name, data, p) && p.isNew && name[0] != 0xE5
    requires 2 <= k < Marked(p.cluster) && k2 <= 20 && k <= 20
    requires MakePlanOk(Apply(d, p.writes[..k]), p.fat, name, data2, p2)
    ensures !p2.isNew
    ensures var d2 := Apply(Apply(d, p.writes[..k]), p2.writes[..k2]);
            WellFormed(d2, FatOnDisk(d2)) <==> k2 >= Marked(p.cluster)
  {
    hide MakePlan, Apply, FatOnDisk, Ahead, WellFormed, Lost, Marked, Entry, Lookup, PlanFor, FreeEntry;
    var d' := Apply(d, p.writes[..k]);
    InSync(d, f);
    LostAfter(d, f, name, data, p, k);
    assert Lost(d') == {p.cluster};
    WritesKeepWellFormed(d, f, name, data, p, k);
    LookupOwn(d, f, name, data, p, k);
    PlanChoice(d', p.fat, name, data2, p2);
    CrashSafety(d', p.fat, name, data2, p2, k2);
    assert Lost(d') + Opened(p2, name, k2) == {p.cluster};
    assert p.cluster in {p.cluster};
  }

  /** It happens to the first file of a fresh volume: a store that fails after the directory write, and
      a retry that stops after its data write. */
  lemma RetryUnsafeFirstFile(name: seq<byte>, data: seq<byte>)
    requires |name| == 11 && name[0] != 0 && name[0] != 0xE5 && |data| <= SECTOR
    ensures var p := PlanFor(Formatted(), Zeros(FAT_BYTES), name, data, 0, 2, true);
            var d := Apply(Formatted(), p.writes[..2]);
            && StoreStep(Formatted(), Zeros(FAT_BYTES), name, data, d, p.fat, -1)
            && MakePlan(d, p.fat, name, data).Some?
            && var retry := MakePlan(d, p.fat, name, data).value;
               !retry.isNew && !WellFormed(Apply(d, retry.writes[..1]), FatOnDisk(Apply(d, retry.writes[..1])))
  {
    hide MakePlan, Apply, FatOnDisk, Ahead, WellFormed, Entry, Lookup, PlanFor, FreeEntry, Formatted, Zeros;
    FirstFile(name, data);
    var p := PlanFor(Formatted(), Zeros(FAT_BYTES), name, data, 0, 2, true);
    PlanChoice(Formatted(), Zeros(FAT_BYTES), name, data, p);
    PlanParts(Formatted(), Zeros(FAT_BYTES), name, data, 0, 2, true);
    var d := Apply(Formatted(), p.writes[..2]);
    LookupOwn(Formatted(), Zeros(FAT_BYTES), name, data, p, 2);
    FoundPlan(d, p.fat, name, data);
    RetryUnsafe(Formatted(), Zeros(FAT_BYTES), name, data, p, 2, data, MakePlan(d, p.fat, name, data).value, 1);
  }

  lemma PlanParts(d: Disk, f: seq<byte>, name: seq<byte>, data: seq<byte>, e: nat, c: int, isNew: bool)
    requires IsDisk(d) && |f| == FAT_BYTES && |name| == 11 && |data| <= SECTOR && e < ROOT_ENTRIES && 0 <= c < U16
    ensures var p := PlanFor(d, f, name, data, e, c, isNew); p.entry == e && p.cluster == c && p.isNew == isNew
  {}

  lemma FoundPlan(d: Disk, f: seq<byte>, name: seq<byte>, data: seq<byte>)
    requires IsDisk(d) && |f| == FAT_BYTES && |name| == 11 && |data| <= SECTOR && Lookup(d, name, 0).Some?
    ensures MakePlan(d, f, name, data).Some?
  {}

  // ----- every run

  lemma StepStaysAhead(d: Disk, f: seq<byte>, name: seq<byte>, data: seq<byte>, d': Disk, f': seq<byte>, r: int)
    requires WellFormed(d, f) && Ahead(FatOnDisk(d), f) && |name| == 11 && name[0] != 0 && |data| <= SECTOR
    requires StoreStep(d, f, name, data, d', f', r)
    ensures IsDisk(d') && |f'| == FAT_BYTES && Ahead(FatOnDisk(d'), f')
    ensures r == |data| ==> Lost(d') == {}
  {
    hide MakePlan, Apply, Entry, FatGet, Ahead, Lost, FatOnDisk, Marked;
    if !(r == -1 && d' == d && f' == f) {
      var p := MakePlan(d, f, name, data).value;
      var k :| 0 <= k <= 20 && d' == Apply(d, p.writes[..k]);
      LostAfter(d, f, name, data, p, k);
      if r == |data| { AllMarked(d, f, name, data, p); }
    }
  }

  /** A store that completes leaves nothing lost, whatever was lost before. */
  lemma AllMarked(d: Disk, f: seq<byte>, name: seq<byte>, data: seq<byte>, p: Plan)
    requires WellFormed(d, f) && Ahead(FatOnDisk(d), f) && |name| == 11 && name[0] != 0 && |data| <= SECTOR
    requires MakePlan(d, f, name, data) == Some(p)
    ensures Lost(Apply(d, p.writes)) == {}
  {
    hide MakePlan, Apply, Entry, FatGet, FatOnDisk, Ahead;
    FatCopiesAgree(d, f, name, data, p);
    assert p.writes[..20] == p.writes;
    WritesKeepWellFormed(d, f, name, data, p, 20);
    RemountSafe(Apply(d, p.writes), p.fat);
  }

  lemma {:induction false} RunStaysAhead(run: seq<State>, qs: seq<Request>, rs: seq<int>, i: nat)
    requires IsRun(run, qs, rs) && WellFormed(run[0].disk, run[0].fat) && Ahead(FatOnDisk(run[0].disk), run[0].fat)
    requires i < |run|
    ensures Ahead(FatOnDisk(run[i].disk), run[i].fat)
  {
    hide WellFormed, StoreStep, Ahead, FatOnDisk;
    if i > 0 {
      RunStaysAhead(run, qs, rs, i - 1);
      RunKeepsWellFormed(run, qs, rs, i - 1);
      StepStaysAhead(run[i - 1].disk, run[i - 1].fat, qs[i - 1].name, qs[i - 1].data, run[i].disk, run[i].fat, rs[i - 1]);
    }
  }

  /** Over every run of stores since a mount, whatever failed in it: a stop after `k` writes of the next
      store is safe exactly under the condition above, and nothing is lost after a store that succeeds. */
  lemma RunCrashSafety(run: seq<State>, qs: seq<Request>, rs: seq<int>, i: nat, q: Request, p: Plan, k: nat)
    requires IsRun(run, qs, rs) && WellFormed(run[0].disk, run[0].fat) && FatOnDisk(run[0].disk) == run[0].fat
    requires i < |run| && IsRequest(q) && MakePlan(run[i].disk, run[i].fat, q.name, q.data) == Some(p) && k <= 20
    ensures var d' := Apply(run[i].disk, p.writes[..k]);
            WellFormed(d', FatOnDisk(d')) <==>
              forall c :: c in Lost(run[i].disk) + Opened(p, q.name, k) ==> k >= Marked(c)
    ensures i > 0 && rs[i - 1] == |qs[i - 1].data| ==> Lost(run[i].disk) == {}
  {
    hide WellFormed, StoreStep, Ahead, FatOnDisk, Lost, Marked, Opened, MakePlan, Apply;
    InSync(run[0].disk, run[0].fat);
    RunStaysAhead(run, qs, rs, i);
    RunKeepsWellFormed(run, qs, rs, i);
    CrashSafety(run[i].disk, run[i].fat, q.name, q.data, p, k);
    if i > 0 {
      RunStaysAhead(run, qs, rs, i - 1);
      RunKeepsWellFormed(run, qs, rs, i - 1);
      StepStaysAhead(run[i - 1].disk, run[i - 1].fat, qs[i - 1].name, qs[i - 1].data, run[i].disk, run[i].fat, rs[i - 1]);
    }
  }

  // ----- what a lost cluster leads to

  /** In the whole window of CrashSafetyInSync the table that a remount loads is the one from before the
      write, so the lost cluster is the one handed out next. */
  lemma CrashHandsOutAgain(d: Disk, f: seq<byte>, name: seq<byte>, data: seq<byte>, p: Plan, k: nat)
    requires WellFormed(d, f) && |name| == 11 && |data| <= SECTOR && FatOnDisk(d) == f
    requires MakePlan(d, f, name, data) == Some(p) && p.isNew && k <= 2 + Offset(p.cluster) / SECTOR
    ensures k <= 20 && FatOnDisk(Apply(d, p.writes[..k])) == f
    ensures AllocCluster(FatOnDisk(Apply(d, p.writes[..k])), 2) == p.cluster
  {
    hide Entry, MakePlan, Apply, PlanFor, Lookup, FreeEntry, FatOnDisk, FatGet, Mix, Flushed;
    PlanChoice(d, f, name, data, p);
    PlanFat(d, f, name, data, p);
    assert Offset(p.cluster) / SECTOR < 9;
    FlushedMarks(k, p.cluster);
    FatAfterCrash(d, f, name, data, p, k);
    MixBefore(f, p.cluster, Flushed(k));
  }

  /** A new file stored after an unsafe remount, and any file there was: if the driver picked that file's
      cluster, which was then lost, the file reads the new one's bytes from the first write on; otherwise
      it reads as before. No lost cluster lies below the one picked. */
  lemma StoreAfterRemount(d: Disk, f: seq<byte>, name: seq<byte>, data: seq<byte>, p: Plan, j: nat, other: seq<byte>, len: nat)
    requires WellFormed(d, f) && MakePlanOk(d, FatOnDisk(d), name, data, p) && p.isNew && 1 <= j <= 20
    requires other != name && Lookup(d, other, 0).Some?
    ensures var en := Entry(d, Lookup(d, other, 0).value);
            if Cluster(en) == p.cluster then
              && p.cluster in Lost(d)
              && ReadFile(Apply(d, p.writes[..j]), other, len) == Some(Pad(data)[..Min(Min(Size(en), len), SECTOR)])
            else
              ReadFile(Apply(d, p.writes[..j]), other, len) == ReadFile(d, other, len)
    ensures forall c :: c in Lost(d) && c < LAST_CLUSTER ==> p.cluster <= c
  {
    hide Entry, Apply, NewEntry, PlanFor, FatGet, Lookup, FreeEntry, FatOnDisk, MakePlan, Pad, IsFile;
    var g, e := FatOnDisk(d), Lookup(d, other, 0).value;
    SecondPlan(d, g, f, name, data, p);
    LookupAcrossSecond(d, g, other, name, data, p, j);
    ReusableIsNoFile(Entry(d, p.entry));
    EntriesAfter(d, g, name, data, p.entry, p.cluster, true, j, e);
    AfterWrites(d, g, name, data, p.entry, p.cluster, true, j);
    EntryPlace(p.entry);
    if Cluster(Entry(d, e)) == p.cluster { assert IsLost(d, e); }
  }

  lemma ReusableIsNoFile(en: seq<byte>)
    requires |en| == 32 && Reusable(en)
    ensures !IsFile(en)
  {}

  /** The consequence: stop the store of a new file inside the window and mount again. As soon as a
      second new file has its data sector written, the first file reads the second one's bytes. */
  lemma CrashMixesFiles(d: Disk, f: seq<byte>, name: seq<byte>, data: seq<byte>, p: Plan, k: nat,
                        name2: seq<byte>, data2: seq<byte>, p2: Plan, j: nat, len: nat)
    requires WellFormed(d, f) && FatOnDisk(d) == f && MakePlanOk(d, f, name, data, p) && p.isNew
    requires 2 <= k <= 2 + Offset(p.cluster) / SECTOR && k <= 20 && 1 <= j <= 20
    requires name[0] != 0xE5 && name2 != name
    requires var d' := Apply(d, p.writes[..k]); MakePlanOk(d', FatOnDisk(d'), name2, data2, p2) && p2.isNew
    ensures p2.cluster == p.cluster
    ensures ReadFile(Apply(Apply(d, p.writes[..k]), p2.writes[..j]), name, len)
         == Some(Pad(data2)[..Min(|data|, len)])
  {
    hide Entry, Apply, NewEntry, PlanFor, FatGet, Lookup, FreeEntry, FatOnDisk, WellFormed, MakePlan, Pad, ReadFile;
    var d' := Apply(d, p.writes[..k]);
    CrashHandsOutAgain(d, f, name, data, p, k);
    LookupOwn(d, f, name, data, p, k);
    NewEntryFields(name, p.cluster, |data|);
    PlanChoice(d, f, name, data, p);
    WritesKeepWellFormed(d, f, name, data, p, k);
    SecondPlan(d', f, p.fat, name2, data2, p2);
    StoreAfterRemount(d', p.fat, name2, data2, p2, j, name, len);
  }

  /** A plan for a name and content that the driver can be asked to store. */
  ghost predicate MakePlanOk(d: Disk, f: seq<byte>, name: seq<byte>, data: seq<byte>, p: Plan) {
    && IsDisk(d) && |f| == FAT_BYTES && |name| == 11 && name[0] != 0 && |data| <= SECTOR
    && MakePlan(d, f, name, data) == Some(p)
  }

  /** What a plan for a new file has chosen, whatever the table says. */
  lemma SecondPlan(d: Disk, f: seq<byte>, g: seq<byte>, name: seq<byte>, data: seq<byte>, p: Plan)
    requires MakePlanOk(d, f, name, data, p) && p.isNew && WellFormed(d, g)
    ensures p.entry < ROOT_ENTRIES && 2 <= p.cluster <= LAST_CLUSTER && p.cluster == AllocCluster(f, 2)
    ensures p == PlanFor(d, f, name, data, p.entry, p.cluster, true)
    ensures Reusable(Entry(d, p.entry))
    ensures Entry(d, p.entry)[0] == 0 ==> forall y :: p.entry < y < ROOT_ENTRIES ==> Entry(d, y)[0] == 0
  {
    hide Entry, Lookup, FatGet, FreeEntry, AllocCluster;
  }

  /** Storing a second new file does not hide a file with another name. */
  lemma LookupAcrossSecond(d: Disk, f: seq<byte>, name: seq<byte>, name2: seq<byte>, data2: seq<byte>, p2: Plan, j: nat)
    requires IsDisk(d) && |f| == FAT_BYTES && |name2| == 11 && name2[0] != 0 && |data2| <= SECTOR && name2 != name && j <= 20
    requires p2.entry < ROOT_ENTRIES && 2 <= p2.cluster <= LAST_CLUSTER
    requires p2 == PlanFor(d, f, name2, data2, p2.entry, p2.cluster, true) && Reusable(Entry(d, p2.entry))
    requires Entry(d, p2.entry)[0] == 0 ==> forall y :: p2.entry < y < ROOT_ENTRIES ==> Entry(d, y)[0] == 0
    ensures Lookup(Apply(d, p2.writes[..j]), name, 0) == Lookup(d, name, 0)
  {
    hide Entry, Apply, NewEntry, PlanFor, Lookup;
    var d2 := Apply(d, p2.writes[..j]);
    forall x | 0 <= x < ROOT_ENTRIES
      ensures Entry(d2, x) == if j >= 2 && x == p2.entry then NewEntry(name2, p2.cluster, |data2|) else Entry(d, x)
    {
      EntriesAfter(d, f, name2, data2, p2.entry, p2.cluster, true, j, x);
    }
    NewEntryFields(name2, p2.cluster, |data2|);
    if j >= 2 { LookupUnmoved(d, d2, name, p2.entry, 0); } else { LookupSame(d, d2, name, 0); }
  }
}

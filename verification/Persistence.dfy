/** Save, power off, boot, load: the registry across a reboot. */
module Persistence {
  import opened Bytes
  import opened Common
  import opened FatTable
  import opened Volume
  import opened VolumeLaws
  import opened Fat12
  import E = EnvSpec
  import opened Env

  /** The variables that env_save puts on disk. */
  function SavedVars(vars: seq<E.Var>): seq<E.Var> { vars[..E.Saved(vars)] }

  /** The whole registry is saved exactly when its lines total at most 511 bytes. */
  lemma SavesAll(vars: seq<E.Var>)
    ensures SavedVars(vars) == vars <==> |E.Text(vars)| <= 511
  {
    hide E.Text;
    var p := E.Saved(vars);
    if p == |vars| {
      assert vars[..p] == vars;
    } else {
      TextGrows(vars, p + 1);
    }
  }

  lemma {:induction false} TextGrows(vars: seq<E.Var>, i: nat)
    requires i <= |vars|
    ensures |E.Text(vars[..i])| <= |E.Text(vars)|
    decreases |vars| - i
  {
    hide E.Text;
    if i < |vars| {
      E.TextSnoc(vars, i);
      TextGrows(vars, i + 1);
    } else {
      assert vars[..i] == vars;
    }
  }

  /** On a well-formed volume a complete save leaves a volume that mounts well-formed, whose
      AIOS.ENV holds the saved lines, and from which env_load restores the saved variables slot by
      slot exactly when they are clean and distinctly named. */
  lemma PersistenceLaw(d: Disk, f: seq<byte>, vars: seq<E.Var>, p: Plan)
    requires WellFormed(d, f) && E.Booted(vars)
    requires MakePlan(d, f, EnvName(), E.Text(SavedVars(vars))) == Some(p)
    ensures var d' := Apply(d, p.writes);
            && FatOnDisk(d') == p.fat && WellFormed(d', p.fat)
            && ReadFile(d', EnvName(), 511) == Some(E.Text(SavedVars(vars)))
            && (E.SetAll(E.InitVars(), E.Parse(E.Text(SavedVars(vars)))) == SavedVars(vars)
                <==> E.AllClean(SavedVars(vars)) && E.DistinctKeys(SavedVars(vars)))
  {
    hide MakePlan, WellFormed, Apply, ReadFile, EnvName, FatOnDisk;
    hide E.Text, E.SetAll, E.Parse, E.InitVars, E.AllClean, E.DistinctKeys, E.Booted;
    var data := E.Text(SavedVars(vars));
    EnvNameVisible();
    FatCopiesAgree(d, f, EnvName(), data, p);
    assert p.writes[..20] == p.writes;
    WritesKeepWellFormed(d, f, EnvName(), data, p, 20);
    ReadBack(d, f, EnvName(), data, p, 20, 511);
    assert data[..Min(|data|, 511)] == data;
    E.ReloadRestores(vars);
  }

  /** env_set is called with a key of at most 15 characters, and key and value are clean. */
  predicate Proper(x: E.Var) { E.Clean(x) && |x.key| < E.KEY_LEN }

  /** Whatever was set with proper keys and values comes back slot by slot: all of it if its lines total
      at most 511 bytes, the longest fitting prefix otherwise. */
  lemma ProperRegistryRestored(calls: seq<E.Var>)
    requires forall i :: 0 <= i < |calls| ==> Proper(calls[i])
    ensures var vars := E.SetAll(E.InitVars(), calls);
            && E.Booted(vars) && E.SetAll(E.InitVars(), E.Parse(E.Text(SavedVars(vars)))) == SavedVars(vars)
            && (|E.Text(vars)| <= 511 ==> SavedVars(vars) == vars)
  {
    hide E.Text, E.SetAll, E.Parse, E.InitVars, E.Booted, E.Saved;
    var vars := E.SetAll(E.InitVars(), calls);
    E.InitBooted();
    E.RunsStayBooted(calls, E.InitVars());
    E.SetAllClean(E.InitVars(), calls);
    E.SetAllDistinct(E.InitVars(), calls);
    E.ReloadRestores(vars);
    SavesAll(vars);
  }

  /** The sequence itself: env_save, then a boot with fresh kernel memory, fat12_init and env_load.
      If no drive operation fails on a mounted volume with room, it goes through. */
  method SaveRebootLoad(registry: Registry, driver: Driver) returns (done: bool, booted: Registry)
    requires registry.Valid() && driver.Valid() && E.Booted(registry.vars)
    requires WellFormed(driver.drive.sectors, driver.fatBuf[..])
    modifies driver.sectorBuf, driver.fatBuf, driver.drive
    ensures booted.Valid()
    ensures done ==> var saved := SavedVars(registry.vars);
              booted.vars == saved <==> E.AllClean(saved) && E.DistinctKeys(saved)
    ensures && driver.drive.failures == old(driver.drive.failures) && driver.loaded
            && !NoRoom(old(driver.drive.sectors), old(driver.fatBuf[..]), EnvName())
            ==> done
  {
    hide MakePlan, WellFormed, Apply, ReadFile, EnvName, FatOnDisk, NoRoom;
    hide E.Text, E.SetAll, E.Parse, E.InitVars, E.AllClean, E.DistinctKeys, E.Booted;
    ghost var d, f, vars := driver.drive.sectors, driver.fatBuf[..], registry.vars;
    booted := new Registry();
    var r, written := registry.Save(driver);
    if r == -1 { return false, booted; }
    PersistenceLaw(d, f, vars, MakePlan(d, f, EnvName(), E.Text(SavedVars(vars))).value);
    assert E.Text(SavedVars(vars)) != [] by { SavedNotEmpty(vars); }
    booted.Init();
    var driver' := new Driver(driver.drive);
    var mounted := driver'.Init();
    if !mounted { return false, booted; }
    var l := booted.Load(driver');
    done := l == 0;
  }
}

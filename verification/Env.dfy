/** The environment registry: the slot table, its printer, its in-place parser, and persistence
    across a reboot. */
module Env {
  import opened Bytes
  import opened Common
  import opened KString
  import opened EnvSpec
  import FT = FatTable
  import V = Volume
  import opened Fat12

  /** env_var_t: two fixed-size character arrays and a flag. */
  datatype Slot = Slot(key: seq<byte>, value: seq<byte>, isSet: bool)

  /** "AIOS.ENV" */
  function FileName(): (s: seq<byte>) ensures |s| == 8 && 0 !in s { [65, 73, 79, 83, 46, 69, 78, 86] }

  // ----- lemmas for the parser

  lemma CStrStop(m: seq<byte>, k: nat)
    requires k < |m| && m[k] == 0
    ensures CStr(m) == CStr(m[..k])
  {
    var j := |CStr(m[..k])|;
    assert m[..j] == m[..k][..j];
    assert j == k || m[j] == m[..k][j];
    CStrIs(m, j);
  }

  /** The calls that the rest of the content from `i` on leads to. */
  function ParseFrom(s: seq<byte>, i: nat): seq<Var> {
    if i < |s| then Parse(s[i..]) else []
  }

  lemma ParseFromEnds(s: seq<byte>)
    ensures ParseFrom(s, 0) == Parse(s) && ParseFrom(s, |s|) == ParseFrom(s, |s| + 1) == []
  {
    assert s[0..] == s;
  }

  lemma ParseFromIs(s: seq<byte>, i: nat)
    requires i <= |s|
    ensures ParseFrom(s, i) == Parse(s[i..])
  {}

  lemma ParseStep(t: seq<byte>, n: nat)
    requires t != [] && Index(t, NL, 0) == n
    ensures Parse(t) == LineCall(t[..n]) + if n == |t| then [] else Parse(t[n + 1..])
  {
    hide Index, LineCall;
  }

  /** Parsing takes one line off the front. */
  lemma ParseUnfold(s: seq<byte>, start: nat, nl: nat)
    requires start < |s| && start <= nl <= |s| && (nl < |s| ==> s[nl] == NL)
    requires forall j :: start <= j < nl ==> s[j] != NL
    ensures ParseFrom(s, start) == LineCall(s[start..nl]) + ParseFrom(s, if nl < |s| then nl + 1 else nl)
  {
    hide Parse, Index, LineCall, ParseFrom;
    var t := s[start..];
    IndexIs(t, NL, 0, nl - start);
    ParseStep(t, nl - start);
    assert t[..nl - start] == s[start..nl];
    ParseFromIs(s, start);
    if nl < |s| {
      assert t[nl - start + 1..] == s[nl + 1..];
      ParseFromIs(s, nl + 1);
    } else {
      ParseFromEnds(s);
    }
  }

  lemma ParseSkip(s: seq<byte>, start: nat, nl: nat)
    requires start < |s| && start <= nl <= |s| && (nl < |s| ==> s[nl] == NL)
    requires forall j :: start <= j < nl ==> s[j] != NL && s[j] != EQ
    ensures ParseFrom(s, start) == ParseFrom(s, nl + 1)
  {
    hide LineCall, ParseFrom;
    ParseUnfold(s, start, nl);
    LineCallNone(s[start..nl]);
    ParseFromEnds(s);
  }

  lemma LineCallNone(line: seq<byte>)
    requires EQ !in line
    ensures LineCall(line) == []
  {
    IndexIs(line, EQ, 0, |line|);
  }

  lemma ParseCall(s: seq<byte>, start: nat, eq: nat, nl: nat)
    requires start <= eq < nl <= |s| && s[eq] == EQ && (nl < |s| ==> s[nl] == NL)
    requires forall j :: start <= j < eq ==> s[j] != NL && s[j] != EQ
    requires forall j :: eq < j < nl ==> s[j] != NL
    ensures ParseFrom(s, start)
         == [Var(CStr(s[start..eq]), CStr(s[eq + 1..nl]))] + ParseFrom(s, if nl < |s| then nl + 1 else nl)
  {
    hide LineCall, CStr, ParseFrom;
    ParseUnfold(s, start, nl);
    var line := s[start..nl];
    LineCallIs(line, eq - start);
    assert line[..eq - start] == s[start..eq] && line[eq - start + 1..] == s[eq + 1..nl];
  }

  lemma LineCallIs(line: seq<byte>, e: nat)
    requires e < |line| && line[e] == EQ && forall j :: 0 <= j < e ==> line[j] != EQ
    ensures LineCall(line) == [Var(CStr(line[..e]), CStr(line[e + 1..]))]
  {
    hide CStr;
    IndexIs(line, EQ, 0, e);
  }

  class Registry {
    const table: array<Slot>
    ghost var vars: seq<Var>

    ghost predicate Valid()
      reads this, table
    {
      && table.Length == MAX_VARS && Stored(vars)
      && forall i :: 0 <= i < MAX_VARS ==>
           && |table[i].key| == KEY_LEN && |table[i].value| == VAL_LEN
           && (table[i].isSet <==> i < |vars|)
           && (i < |vars| ==> && 0 in table[i].key && 0 in table[i].value
                              && CStr(table[i].key) == vars[i].key && CStr(table[i].value) == vars[i].value)
    }

    /** The table as the loader leaves it: all zero. */
    constructor ()
      ensures Valid() && vars == [] && fresh(table)
    {
      table := new Slot[MAX_VARS](_ => Slot(seq(KEY_LEN, _ => 0), seq(VAL_LEN, _ => 0), false));
      vars := [];
    }

    method Init()
      requires Valid()
      modifies table, this`vars
      ensures Valid() && vars == InitVars()
    {
      hide OsName, OsVersion, AuraOs, Release, Set;
      var i := 0;
      while i < MAX_VARS
        invariant 0 <= i <= MAX_VARS
        invariant forall j :: 0 <= j < MAX_VARS ==> |table[j].key| == KEY_LEN && |table[j].value| == VAL_LEN
        invariant forall j :: 0 <= j < i ==> !table[j].isSet
        modifies table
      {
        table[i] := table[i].(isSet := false);
        i := i + 1;
      }
      vars := [];
      CStrTerminated(OsName());
      CStrTerminated(OsVersion());
      CStrTerminated(AuraOs());
      CStrTerminated(Release());
      var r := SetVar(OsName() + [0], AuraOs() + [0]);
      r := SetVar(OsVersion() + [0], Release() + [0]);
      InitIsTwoCalls();
    }

    /** The slot whose key equals `key`, or MAX_VARS. */
    method FindSlot(key: seq<byte>) returns (i: nat)
      requires Valid() && 0 in key
      ensures i == (if Find(vars, CStr(key), 0) < |vars| then Find(vars, CStr(key), 0) else MAX_VARS)
    {
      ghost var k := CStr(key);
      i := 0;
      while i < MAX_VARS
        invariant 0 <= i <= MAX_VARS
        invariant Find(vars, k, 0) == Find(vars, k, if i <= |vars| then i else |vars|)
      {
        if table[i].isSet {
          var c := StrNCmp(table[i].key, key, KEY_LEN);
          SameKey(vars[i].key, k);
          if c == 0 { return; }
        }
        i := i + 1;
      }
    }

    method SetVar(key: seq<byte>, value: seq<byte>) returns (r: int)
      requires Valid() && 0 in key && 0 in value
      modifies table, this`vars
      ensures Valid() && (vars, r) == Set(old(vars), CStr(key), CStr(value))
    {
      hide Splice, Find, CStr, Cut;
      ghost var k, v := CStr(key), CStr(value);
      var i := FindSlot(key);
      if i < MAX_VARS {
        var value' := StrNCpy(table[i].value, value, VAL_LEN);
        CStrHasEnd(value');
        table[i] := table[i].(value := value');
        vars := vars[i := vars[i].(value := Cut(v, VAL_LEN - 1))];
        return 0;
      }
      i := 0;
      while i < MAX_VARS && table[i].isSet
        invariant 0 <= i <= MAX_VARS && i <= |vars|
        modifies {}
      {
        i := i + 1;
      }
      if i < MAX_VARS {
        var key' := StrNCpy(table[i].key, key, KEY_LEN);
        var value' := StrNCpy(table[i].value, value, VAL_LEN);
        CStrHasEnd(key');
        CStrHasEnd(value');
        table[i] := Slot(key', value', true);
        vars := vars + [Var(Cut(k, KEY_LEN - 1), Cut(v, VAL_LEN - 1))];
        return 0;
      }
      return -1;
    }

    method GetVar(key: seq<byte>) returns (value: Option<seq<byte>>)
      requires Valid() && 0 in key
      ensures value == Get(vars, CStr(key))
    {
      var i := FindSlot(key);
      value := if i < MAX_VARS then Some(CStr(table[i].value)) else None;
    }

    // ----- saving

    method Append(buf: array<byte>, pos: nat, s: seq<byte>) returns (pos': nat)
      requires pos + |s| <= buf.Length
      modifies buf
      ensures pos' == pos + |s| && buf[..pos'] == old(buf[..pos]) + s
    {
      var j := 0;
      while j < |s|
        invariant 0 <= j <= |s| && buf[..pos + j] == old(buf[..pos]) + s[..j]
      {
        buf[pos + j] := s[j];
        j := j + 1;
      }
      pos' := pos + |s|;
    }

    method AppendLine(buf: array<byte>, pos: nat, x: Var) returns (pos': nat)
      requires pos + |x.key| + 1 + |x.value| + 1 <= buf.Length
      modifies buf
      ensures pos' == pos + |Line(x)| && buf[..pos'] == old(buf[..pos]) + Line(x)
    {
      pos' := Append(buf, pos, x.key);
      pos' := Append(buf, pos', [EQ]);
      pos' := Append(buf, pos', x.value);
      pos' := Append(buf, pos', [NL]);
    }

    /** The printer of env_save: whole lines in slot order while they fit. */
    method Print(buf: array<byte>) returns (pos: nat)
      requires Valid() && buf.Length == 512
      modifies buf
      ensures pos <= 511 && buf[..pos] == Text(vars[..Saved(vars)]) && buf[pos] == 0
    {
      hide Text, CStr, Splice, Line;
      pos := 0;
      var i := 0;
      ghost var n := 0;
      TextNone();
      while i < MAX_VARS && pos < 511
        invariant 0 <= i <= MAX_VARS && pos <= 511 && 0 <= n <= |vars|
        invariant n == if i <= |vars| then i else |vars|
        invariant buf[..pos] == Text(vars[..n]) && Saved(vars) == SavedFrom(vars, n)
        modifies buf
      {
        if table[i].isSet {
          var klen := StrLen(table[i].key);
          var vlen := StrLen(table[i].value);
          TextSnoc(vars, i);
          LineLength(vars[i]);
          if pos + klen + 1 + vlen + 1 >= 512 { break; }
          pos := AppendLine(buf, pos, Var(CStr(table[i].key), CStr(table[i].value)));
          n := n + 1;
        }
        i := i + 1;
      }
      if n < |vars| {
        TextSnoc(vars, n);
        LineLength(vars[n]);
      }
      assert Saved(vars) == n;
      ghost var text := buf[..pos];
      buf[pos] := 0;
      assert buf[..pos] == text;
    }

    /** env_save. A successful save returns the number of bytes, so never 0 once env_init has run. */
    method Save(driver: Driver) returns (r: int, ghost written: seq<V.SectorWrite>)
      requires Valid() && driver.Valid()
      modifies driver.sectorBuf, driver.fatBuf, driver.drive
      ensures driver.Valid() && driver.loaded == old(driver.loaded)
      ensures driver.drive.log == old(driver.drive.log) + written
      ensures WriteOutcome(driver.loaded, old(driver.drive.sectors), old(driver.fatBuf[..]), EnvName(), Text(vars[..Saved(vars)]),
                           driver.drive.sectors, driver.fatBuf[..], written, driver.drive.failures != old(driver.drive.failures), r)
      ensures Booted(vars) ==> r != 0
    {
      hide WriteOutcome, Text, Fat83, FileName, Saved;
      var buf := new byte[512](_ => 0);
      var pos := Print(buf);
      CStrTerminated(FileName());
      r, written := driver.WriteFile(FileName() + [0], buf[..], pos);
      assert buf[..][..V.Min(pos, V.SECTOR)] == Text(vars[..Saved(vars)]);
      OutcomeResult(driver.loaded, old(driver.drive.sectors), old(driver.fatBuf[..]), EnvName(), Text(vars[..Saved(vars)]),
                    driver.drive.sectors, driver.fatBuf[..], written, driver.drive.failures != old(driver.drive.failures), r);
      if Booted(vars) { SavedNotEmpty(vars); }
    }

    // ----- loading

    /** The parser of env_load on the first `n` bytes of its buffer. It writes NULs into bytes it has
        passed and never looks at them again as input. */
    method ParseBuffer(buf: array<byte>, n: nat)
      requires Valid() && n < buf.Length && buf[n] == 0
      modifies buf, table, this`vars
      ensures Valid() && vars == SetAll(old(vars), Parse(old(buf[..n])))
    {
      hide Parse, SetAll, Set, CStr, ParseFrom;
      ghost var s := buf[..n];
      var i := 0;
      ParseFromEnds(s);
      while i < n
        invariant Valid() && 0 <= i <= n + 1
        invariant forall j :: i <= j < n ==> buf[j] == s[j]
        invariant SetAll(old(vars), Parse(s)) == SetAll(vars, ParseFrom(s, i))
        decreases n - i
      {
        i := ParseOne(buf, n, i, s);
      }
      SetAllNone(vars);
    }

    /** One line of the file: a call of env_set if it has an '=', nothing otherwise. */
    method ParseOne(buf: array<byte>, n: nat, start: nat, ghost s: seq<byte>) returns (i: nat)
      requires Valid() && start < n < buf.Length && |s| == n
      requires forall j :: start <= j < n ==> buf[j] == s[j]
      modifies buf, table, this`vars
      ensures Valid() && start < i <= n + 1
      ensures forall j :: i <= j < n ==> buf[j] == s[j]
      ensures SetAll(old(vars), ParseFrom(s, start)) == SetAll(vars, ParseFrom(s, i))
    {
      hide Parse, SetAll, Set, CStr, ParseFrom;
      i := start;
      while i < n && buf[i] != EQ && buf[i] != NL
        invariant start <= i <= n && forall j :: start <= j < i ==> s[j] != EQ && s[j] != NL
        modifies {}
      {
        i := i + 1;
      }
      if i >= n || buf[i] != EQ {
        // `i` is at a newline or at the end: a further search for the newline stops at once
        ParseSkip(s, start, i);
        i := i + 1;
        return;
      }
      var keyEnd := i;
      i := i + 1;
      while i < n && buf[i] != NL
        invariant keyEnd < i <= n && forall j :: keyEnd < j < i ==> s[j] != NL
        modifies {}
      {
        i := i + 1;
      }
      var valEnd := i;
      if i < n { i := i + 1; }
      ParseCall(s, start, keyEnd, valEnd);
      Call(buf, n, start, keyEnd, valEnd, s);
      SetAllCons(old(vars), Var(CStr(s[start..keyEnd]), CStr(s[keyEnd + 1..valEnd])), ParseFrom(s, i));
    }

    /** Terminates key and value in place and passes the two pointers to env_set. */
    method Call(buf: array<byte>, n: nat, start: nat, keyEnd: nat, valEnd: nat, ghost s: seq<byte>)
      requires Valid() && start <= keyEnd < valEnd <= n < buf.Length && |s| == n
      requires forall j :: start <= j < n ==> buf[j] == s[j]
      modifies buf, table, this`vars
      ensures Valid() && forall j :: valEnd < j < n ==> buf[j] == s[j]
      ensures vars == Set(old(vars), CStr(s[start..keyEnd]), CStr(s[keyEnd + 1..valEnd])).0
    {
      hide Set, CStr;
      buf[keyEnd] := 0;
      buf[valEnd] := 0;
      StringAt(buf[..], s, start, keyEnd);
      StringAt(buf[..], s, keyEnd + 1, valEnd);
      var r := SetVar(buf[start..], buf[keyEnd + 1..]);
    }

    /** env_load. 0 means the file was there and has been overlaid on the registry. */
    method Load(driver: Driver) returns (r: int)
      requires Valid() && driver.Valid()
      modifies driver.sectorBuf, driver.drive`failures, table, this`vars
      ensures Valid() && (r == 0 || r == -1)
      ensures r == -1 ==> vars == old(vars)
      ensures r == -1 && driver.drive.failures == old(driver.drive.failures) ==>
                !driver.loaded || V.ReadFile(driver.drive.sectors, EnvName(), 511) in {None, Some([])}
      ensures r == 0 ==> && driver.loaded && V.ReadFile(driver.drive.sectors, EnvName(), 511).Some?
                         && V.ReadFile(driver.drive.sectors, EnvName(), 511) != Some([])
                         && vars == SetAll(old(vars), Parse(V.ReadFile(driver.drive.sectors, EnvName(), 511).value))
    {
      hide Parse, SetAll, Fat83, FileName, V.ReadFile;
      var buf := new byte[512](_ => 0);
      CStrTerminated(FileName());
      var n := driver.ReadInto(FileName() + [0], buf, 511);
      if n <= 0 {
        assert n == 0 ==> buf[..n] == [];
        return -1;
      }
      ghost var s := buf[..n];
      buf[n] := 0;
      assert buf[..n] == s;
      ParseBuffer(buf, n);
      return 0;
    }
  }

  /** "AIOS    ENV" */
  function EnvName(): (r: seq<byte>)
    ensures |r| == 11 && 0 !in r
  {
    Fat83(FileName())
  }

  lemma EnvNameVisible()
    ensures EnvName()[0] != 0xE5 && EnvName()[0] != 0
  {
    Fat83Shape([65, 73, 79, 83], [69, 78, 86]);
    assert FileName() == [65, 73, 79, 83] + [46] + [69, 78, 86];
    assert EnvName()[0] == Uppers([65, 73, 79, 83])[0];
  }

  lemma OutcomeResult(loaded: bool, d: V.Disk, f: seq<byte>, name: seq<byte>, data: seq<byte>,
                      d': V.Disk, f': seq<byte>, written: seq<V.SectorWrite>, failed: bool, r: int)
    requires V.IsDisk(d) && |f| == FT.FAT_BYTES && |name| == 11 && |data| <= V.SECTOR
    requires WriteOutcome(loaded, d, f, name, data, d', f', written, failed, r)
    ensures r == -1 || r == |data|
  {
    hide V.MakePlan, V.Apply;
  }

  lemma SavedNotEmpty(vars: seq<Var>)
    requires Booted(vars)
    ensures |Text(vars[..Saved(vars)])| > 0
  {
    hide Text;
    SavedAtLeastTen(vars);
    var n := Saved(vars) - 1;
    TextSnoc(vars, n);
    LineLength(vars[n]);
  }

  lemma SetAllCons(vars: seq<Var>, x: Var, rest: seq<Var>)
    ensures SetAll(vars, [x] + rest) == SetAll(Set(vars, x.key, x.value).0, rest)
  {
    assert ([x] + rest)[1..] == rest;
  }

  /** The C string at `start` of a buffer that has a NUL at `end` and the file's bytes before it. */
  lemma StringAt(buf: seq<byte>, s: seq<byte>, start: nat, end: nat)
    requires start <= end < |buf| && end <= |s| && buf[end] == 0
    requires forall j :: start <= j < end ==> buf[j] == s[j]
    ensures 0 in buf[start..] && CStr(buf[start..]) == CStr(s[start..end])
  {
    hide CStr;
    var m := buf[start..];
    assert m[end - start] == 0;
    assert m[..end - start] == s[start..end];
    CStrStop(m, end - start);
  }

  lemma TextNone()
    ensures Text([]) == []
  {}

  lemma LineLength(x: Var)
    ensures |Line(x)| == |x.key| + |x.value| + 2
  {}

  lemma CStrTerminated(s: seq<byte>)
    requires 0 !in s
    ensures CStr(s + [0]) == s && 0 in s + [0]
  {
    var m: seq<byte> := s + [0];
    assert m[..|s|] == s && m[|s|] == 0;
    CStrIs(m, |s|);
  }

  lemma CStrHasEnd(m: seq<byte>)
    requires |CStr(m)| < |m|
    ensures 0 in m
  {
    assert m[|CStr(m)|] == 0;
  }

  /** A stored key has its terminator within the 16 bytes compared, so it matches only itself. */
  lemma SameKey(stored: seq<byte>, k: seq<byte>)
    requires |stored| < KEY_LEN
    ensures Cut(stored, KEY_LEN) == Cut(k, KEY_LEN) <==> stored == k
  {}
}

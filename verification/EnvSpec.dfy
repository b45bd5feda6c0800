/** The environment registry as a list of variables, its text form, and the laws of saving and
    loading it. */
module EnvSpec {
  import opened Bytes
  import opened Common
  import opened KString

  const MAX_VARS := 16
  const KEY_LEN := 16
  const VAL_LEN := 32
  const NL: byte := 10
  const EQ: byte := 61

  /** A variable: the C strings in its key and value fields. */
  datatype Var = Var(key: seq<byte>, value: seq<byte>)

  /** The slots in use are the first ones: there is no operation that releases a slot. */
  ghost predicate Stored(vars: seq<Var>) {
    && |vars| <= MAX_VARS
    && forall i :: 0 <= i < |vars| ==>
         && |vars[i].key| < KEY_LEN && 0 !in vars[i].key
         && |vars[i].value| < VAL_LEN && 0 !in vars[i].value
  }

  // ----- env_set, env_get

  /** The first slot from `i` on whose key is `k`, or |vars|. */
  function Find(vars: seq<Var>, k: seq<byte>, i: nat): (r: nat)
    requires i <= |vars|
    ensures i <= r <= |vars|
    ensures r < |vars| ==> vars[r].key == k
    ensures forall j :: i <= j < r ==> vars[j].key != k
    decreases |vars| - i
  {
    if i == |vars| || vars[i].key == k then i else Find(vars, k, i + 1)
  }

  function Set(vars: seq<Var>, k: seq<byte>, v: seq<byte>): (seq<Var>, int) {
    var i := Find(vars, k, 0);
    if i < |vars| then (vars[i := vars[i].(value := Cut(v, VAL_LEN - 1))], 0)
    else if |vars| < MAX_VARS then (vars + [Var(Cut(k, KEY_LEN - 1), Cut(v, VAL_LEN - 1))], 0)
    else (vars, -1)
  }

  function Get(vars: seq<Var>, k: seq<byte>): Option<seq<byte>> {
    var i := Find(vars, k, 0);
    if i < |vars| then Some(vars[i].value) else None
  }

  function SetAll(vars: seq<Var>, calls: seq<Var>): seq<Var>
    decreases |calls|
  {
    if calls == [] then vars else SetAll(Set(vars, calls[0].key, calls[0].value).0, calls[1..])
  }

  /** "OS_NAME" and "OS_VERSION", and the values env_init gives them. */
  function OsName(): (r: seq<byte>) ensures |r| == 7 && 0 !in r && EQ !in r && NL !in r { [79, 83, 95, 78, 65, 77, 69] }
  function OsVersion(): (r: seq<byte>) ensures |r| == 10 && 0 !in r && EQ !in r && NL !in r { [79, 83, 95, 86, 69, 82, 83, 73, 79, 78] }
  function AuraOs(): (r: seq<byte>) ensures |r| == 10 && 0 !in r && EQ !in r && NL !in r { [65, 73, 32, 65, 117, 114, 97, 32, 79, 83] }
  function Release(): (r: seq<byte>) ensures |r| == 5 && 0 !in r && EQ !in r && NL !in r { [49, 46, 48, 46, 48] }

  /** The registry after env_init. */
  function InitVars(): seq<Var> { [Var(OsName(), AuraOs()), Var(OsVersion(), Release())] }

  lemma FindIs(vars: seq<Var>, k: seq<byte>, i: nat, r: nat)
    requires i <= r <= |vars| && (r < |vars| ==> vars[r].key == k)
    requires forall j :: i <= j < r ==> vars[j].key != k
    ensures Find(vars, k, i) == r
  {}

  lemma SetStored(vars: seq<Var>, k: seq<byte>, v: seq<byte>)
    requires Stored(vars) && 0 !in k && 0 !in v
    ensures Stored(Set(vars, k, v).0) && |Set(vars, k, v).0| >= |vars|
    ensures forall i :: 0 <= i < |vars| ==> Set(vars, k, v).0[i].key == vars[i].key
  {}

  /** env_set fails exactly when the key is not there and no slot is left, and then changes nothing.
      Otherwise it returns 0, and at most one slot differs: the one of the key, or a new last one. */
  lemma SetStatus(vars: seq<Var>, k: seq<byte>, v: seq<byte>)
    requires Stored(vars)
    ensures Set(vars, k, v).1 == if Get(vars, k) == None && |vars| == MAX_VARS then -1 else 0
    ensures Set(vars, k, v).1 == -1 ==> Set(vars, k, v).0 == vars
    ensures |Set(vars, k, v).0| == |vars| + if Get(vars, k) == None && |vars| < MAX_VARS then 1 else 0
    ensures forall i :: 0 <= i < |vars| && (vars[i].key != k || exists j :: 0 <= j < i && vars[j].key == k) ==>
              Set(vars, k, v).0[i] == vars[i]
  {}

  /** A stored value is found again exactly when the key was not cut. */
  lemma GetAfterSet(vars: seq<Var>, k: seq<byte>, v: seq<byte>)
    requires Stored(vars) && Set(vars, k, v).1 == 0
    ensures |k| < KEY_LEN ==> Get(Set(vars, k, v).0, k) == Some(Cut(v, VAL_LEN - 1))
    ensures |k| >= KEY_LEN ==> Get(Set(vars, k, v).0, k) == None
  {
    var i := Find(vars, k, 0);
    var vars' := Set(vars, k, v).0;
    if |k| < KEY_LEN {
      FindIs(vars', k, 0, i);
    } else {
      FindIs(vars', k, 0, |vars'|);
    }
  }

  /** Another key is left alone unless a key that is cut introduces it: exactly unless it is the cut
      form of the key set, was not there before, and there is room to insert it. */
  lemma GetOtherAfterSet(vars: seq<Var>, k: seq<byte>, v: seq<byte>, other: seq<byte>)
    requires Stored(vars) && other != k
    ensures Get(Set(vars, k, v).0, other) == Get(vars, other)
       <==> other != Cut(k, KEY_LEN - 1) || Get(vars, other).Some? || |vars| == MAX_VARS
  {
    var i, j := Find(vars, k, 0), Find(vars, other, 0);
    var vars' := Set(vars, k, v).0;
    assert i < |vars| ==> |k| < KEY_LEN && Cut(k, KEY_LEN - 1) == k;
    if j == |vars| && i == |vars| < MAX_VARS && other == Cut(k, KEY_LEN - 1) {
      FindIs(vars', other, 0, |vars|);
    } else {
      FindIs(vars', other, 0, if j < |vars| then j else |vars'|);
    }
  }

  ghost predicate DistinctKeys(vars: seq<Var>) {
    forall i, j :: 0 <= i < j < |vars| ==> vars[i].key != vars[j].key
  }

  lemma SetKeepsDistinct(vars: seq<Var>, k: seq<byte>, v: seq<byte>)
    requires DistinctKeys(vars) && |k| < KEY_LEN
    ensures DistinctKeys(Set(vars, k, v).0)
  {}

  // ----- text form

  function Line(x: Var): seq<byte> { x.key + [EQ] + x.value + [NL] }

  function Text(vars: seq<Var>): seq<byte> {
    if vars == [] then [] else Line(vars[0]) + Text(vars[1..])
  }

  lemma {:induction false} TextSnoc(vars: seq<Var>, i: nat)
    requires i < |vars|
    ensures Text(vars[..i + 1]) == Text(vars[..i]) + Line(vars[i])
  {
    if i == 0 {
      assert vars[..1] == [vars[0]] && vars[..1][1..] == [];
    } else {
      TextSnoc(vars[1..], i - 1);
      assert vars[1..][..i] == vars[..i + 1][1..] && vars[1..][..i - 1] == vars[..i][1..];
    }
  }

  /** How many variables env_save writes, having written the first `i`. */
  function SavedFrom(vars: seq<Var>, i: nat): (p: nat)
    requires i <= |vars| && |Text(vars[..i])| <= 511
    ensures i <= p <= |vars| && |Text(vars[..p])| <= 511
    ensures p < |vars| ==> |Text(vars[..p + 1])| > 511
    decreases |vars| - i
  {
    if i == |vars| || |Text(vars[..i + 1])| > 511 then i else SavedFrom(vars, i + 1)
  }

  /** The longest prefix of whole lines that fits in 511 bytes. */
  function Saved(vars: seq<Var>): (p: nat)
    ensures p <= |vars| && |Text(vars[..p])| <= 511
    ensures p < |vars| ==> |Text(vars[..p + 1])| > 511
  {
    SavedFrom(vars, 0)
  }

  lemma {:induction false} TextBound(vars: seq<Var>, i: nat)
    requires Stored(vars) && i <= |vars|
    ensures |Text(vars[..i])| <= 48 * i
  {
    if i > 0 {
      TextBound(vars, i - 1);
      TextSnoc(vars, i - 1);
    }
  }

  /** Ten variables always fit. */
  lemma SavedAtLeastTen(vars: seq<Var>)
    requires Stored(vars)
    ensures Saved(vars) >= if |vars| < 10 then |vars| else 10
  {
    var p := Saved(vars);
    if p < |vars| { TextBound(vars, p + 1); }
  }

  // ----- parsing

  /** The first index of `b` in `s` from `i` on, or |s|. */
  function Index(s: seq<byte>, b: byte, i: nat): (r: nat)
    requires i <= |s|
    ensures i <= r <= |s| && (r < |s| ==> s[r] == b)
    ensures forall j :: i <= j < r ==> s[j] != b
    decreases |s| - i
  {
    if i == |s| || s[i] == b then i else Index(s, b, i + 1)
  }

  /** The env_set call a line leads to, if it has an '='. */
  function LineCall(line: seq<byte>): seq<Var> {
    var e := Index(line, EQ, 0);
    if e == |line| then [] else [Var(CStr(line[..e]), CStr(line[e + 1..]))]
  }

  /** The env_set calls that a file content leads to: one per line with an '='. */
  function Parse(s: seq<byte>): seq<Var> {
    if s == [] then [] else
    var n := Index(s, NL, 0);
    LineCall(s[..n]) + (if n == |s| then [] else Parse(s[n + 1..]))
  }

  /** A variable that survives the text form. */
  predicate Clean(x: Var) {
    EQ !in x.key && NL !in x.key && 0 !in x.key && NL !in x.value && 0 !in x.value
  }

  ghost predicate AllClean(vars: seq<Var>) {
    forall i :: 0 <= i < |vars| ==> Clean(vars[i])
  }

  lemma IndexIs(s: seq<byte>, b: byte, i: nat, r: nat)
    requires i <= r <= |s| && (r < |s| ==> s[r] == b)
    requires forall j :: i <= j < r ==> s[j] != b
    ensures Index(s, b, i) == r
  {}

  lemma ParseLine(x: Var, rest: seq<byte>)
    requires Clean(x)
    ensures Parse(Line(x) + rest) == [x] + Parse(rest)
  {
    var s := Line(x) + rest;
    var n := |x.key| + 1 + |x.value|;
    var line := x.key + [EQ] + x.value;
    assert s[..n] == line && s[n] == NL && s[n + 1..] == rest;
    assert forall j :: 0 <= j < n ==> s[j] == line[j];
    IndexIs(s, NL, 0, n);
    assert forall j :: 0 <= j < |x.key| ==> line[j] == x.key[j];
    assert line[..|x.key|] == x.key && line[|x.key| + 1..] == x.value;
    IndexIs(line, EQ, 0, |x.key|);
    CStrIs(x.key, |x.key|);
    CStrIs(x.value, |x.value|);
    assert x.key[..|x.key|] == x.key && x.value[..|x.value|] == x.value;
  }

  /** Parsing inverts printing for clean variables. */
  lemma {:induction false} ParseText(vars: seq<Var>)
    requires AllClean(vars)
    ensures Parse(Text(vars)) == vars
  {
    if vars != [] {
      ParseText(vars[1..]);
      ParseLine(vars[0], Text(vars[1..]));
    }
  }

  lemma LineCallClean(line: seq<byte>)
    requires NL !in line
    ensures AllClean(LineCall(line))
  {
    var e := Index(line, EQ, 0);
    assert EQ !in line[..e] && NL !in line[..e];
    if e < |line| { assert NL !in line[e + 1..]; }
  }

  /** Whatever the file holds, only clean variables come out of it. */
  lemma {:induction false} ParseClean(s: seq<byte>)
    ensures AllClean(Parse(s))
    decreases |s|
  {
    hide LineCall;
    if s != [] {
      var n := Index(s, NL, 0);
      LineCallClean(s[..n]);
      if n < |s| { ParseClean(s[n + 1..]); }
    }
  }

  // ----- save, reboot, load

  /** What holds of the registry after env_init and any sequence of env_set calls. */
  ghost predicate Booted(vars: seq<Var>) {
    Stored(vars) && |vars| >= 2 && vars[0].key == OsName() && vars[1].key == OsVersion()
  }

  lemma InitBooted()
    ensures Booted(InitVars()) && AllClean(InitVars()) && DistinctKeys(InitVars())
    ensures |InitVars()| == 2
  {
    hide OsName, OsVersion, AuraOs, Release;
  }

  /** env_init makes these two calls on an empty registry. */
  lemma InitIsTwoCalls()
    ensures Set(Set([], OsName(), AuraOs()).0, OsVersion(), Release()) == (InitVars(), 0)
  {
    hide OsName, OsVersion, AuraOs, Release, Cut;
    var first := Set([], OsName(), AuraOs()).0;
    assert first == [InitVars()[0]];
    FindIs(first, OsVersion(), 0, 1);
    assert Set(first, OsVersion(), Release()).0 == InitVars();
  }

  /** Booted is what every run of env_set keeps. */
  lemma {:induction false} RunsStayBooted(calls: seq<Var>, vars: seq<Var>)
    requires Booted(vars) && forall i :: 0 <= i < |calls| ==> 0 !in calls[i].key && 0 !in calls[i].value
    ensures Booted(SetAll(vars, calls))
    decreases |calls|
  {
    if calls != [] {
      SetStored(vars, calls[0].key, calls[0].value);
      RunsStayBooted(calls[1..], Set(vars, calls[0].key, calls[0].value).0);
    }
  }

  lemma {:induction false} SetAllSnoc(vars: seq<Var>, calls: seq<Var>, i: nat)
    requires i < |calls|
    ensures SetAll(vars, calls[..i + 1]) == Set(SetAll(vars, calls[..i]), calls[i].key, calls[i].value).0
    decreases |calls|
  {
    var vars' := Set(vars, calls[0].key, calls[0].value).0;
    assert calls[..i + 1][1..] == calls[1..][..i];
    if i == 0 {
      assert calls[..1][1..] == [] && calls[..0] == [];
    } else {
      assert calls[..i][1..] == calls[1..][..i - 1];
      SetAllSnoc(vars', calls[1..], i - 1);
    }
  }

  /** Setting the variables of a registry one after the other over two defaults with the same
      first keys rebuilds it. */
  lemma {:induction false} Rebuild(init: seq<Var>, vars: seq<Var>, i: nat)
    requires Stored(vars) && DistinctKeys(vars) && i <= |vars|
    requires |init| == 2 <= |vars| && init[0].key == vars[0].key && init[1].key == vars[1].key
    ensures SetAll(init, vars[..i]) == if i < 2 then vars[..i] + init[i..] else vars[..i]
  {
    hide SetAll, Set;
    if i == 0 {
      SetAllNone(init);
      assert vars[..0] + init[0..] == init;
    } else {
      Rebuild(init, vars, i - 1);
      SetAllSnoc(init, vars, i - 1);
      RebuildStep(init, vars, i - 1);
    }
  }

  lemma SetAllNone(vars: seq<Var>)
    ensures SetAll(vars, []) == vars
  {}

  lemma RebuildStep(init: seq<Var>, vars: seq<Var>, i: nat)
    requires Stored(vars) && DistinctKeys(vars) && i < |vars|
    requires |init| == 2 <= |vars| && init[0].key == vars[0].key && init[1].key == vars[1].key
    ensures var acc := if i < 2 then vars[..i] + init[i..] else vars[..i];
            Set(acc, vars[i].key, vars[i].value).0 == if i + 1 < 2 then vars[..i + 1] + init[i + 1..] else vars[..i + 1]
  {
    var acc := if i < 2 then vars[..i] + init[i..] else vars[..i];
    assert forall j :: 0 <= j < i ==> acc[j] == vars[j];
    FindIs(acc, vars[i].key, 0, i);
  }

  lemma {:induction false} SetAllClean(vars: seq<Var>, calls: seq<Var>)
    requires AllClean(vars) && AllClean(calls)
    ensures AllClean(SetAll(vars, calls))
    decreases |calls|
  {
    if calls != [] {
      SetAllClean(Set(vars, calls[0].key, calls[0].value).0, calls[1..]);
    }
  }

  lemma {:induction false} SetAllDistinct(vars: seq<Var>, calls: seq<Var>)
    requires DistinctKeys(vars) && forall i :: 0 <= i < |calls| ==> |calls[i].key| < KEY_LEN
    ensures DistinctKeys(SetAll(vars, calls))
    decreases |calls|
  {
    if calls != [] {
      SetKeepsDistinct(vars, calls[0].key, calls[0].value);
      SetAllDistinct(Set(vars, calls[0].key, calls[0].value).0, calls[1..]);
    }
  }

  /** Loading what was saved over a fresh registry gives back exactly the saved variables, slot by
      slot, if and only if those are clean and have distinct keys. */
  lemma ReloadRestores(vars: seq<Var>)
    requires Booted(vars)
    ensures var saved := vars[..Saved(vars)];
            && Saved(vars) >= 2
            && (SetAll(InitVars(), Parse(Text(saved))) == saved <==> AllClean(saved) && DistinctKeys(saved))
  {
    hide Text, Parse, SetAll, Saved, AllClean, DistinctKeys, OsName, OsVersion, AuraOs, Release;
    SavedAtLeastTen(vars);
    var saved := vars[..Saved(vars)];
    InitBooted();
    if AllClean(saved) {
      ParseText(saved);
      if DistinctKeys(saved) {
        Rebuild(InitVars(), saved, |saved|);
        assert saved[..|saved|] == saved;
      }
      SetAllDistinct(InitVars(), saved);
    }
    ParseClean(Text(saved));
    SetAllClean(InitVars(), Parse(Text(saved)));
  }

  // ----- variables that do not come back

  lemma SetAllOne(vars: seq<Var>, x: Var)
    ensures SetAll(vars, [x]) == Set(vars, x.key, x.value).0
  {
    assert [x][1..] == [];
  }

  /** A key or value that is not clean is stored and saved, and loading does not restore it. */
  lemma UncleanNotRestored(k: seq<byte>, v: seq<byte>)
    requires 0 !in k && 0 !in v && |k| < KEY_LEN && |v| < VAL_LEN && !Clean(Var(k, v)) && k != OsName() && k != OsVersion()
    ensures var vars := SetAll(InitVars(), [Var(k, v)]);
            Booted(vars) && Saved(vars) == |vars| && SetAll(InitVars(), Parse(Text(vars))) != vars
  {
    hide Text, Parse, Saved, OsName, OsVersion, AuraOs, Release;
    var vars := SetAll(InitVars(), [Var(k, v)]);
    FindIs(InitVars(), k, 0, 2);
    SetAllOne(InitVars(), Var(k, v));
    assert vars == InitVars() + [Var(k, v)];
    NotRestored([Var(k, v)]);
    assert !Clean(vars[2]);
  }

  /** Two settings of a key that is cut give two slots of one name. */
  lemma LongKeyNotRestored(k: seq<byte>, v: seq<byte>)
    requires 0 !in k && 0 !in v && |k| >= KEY_LEN
    ensures var vars := SetAll(InitVars(), [Var(k, v), Var(k, v)]);
            Booted(vars) && Saved(vars) == |vars| && SetAll(InitVars(), Parse(Text(vars))) != vars
  {
    hide Text, Parse, Saved, OsName, OsVersion, AuraOs, Release;
    var calls, x := [Var(k, v), Var(k, v)], Var(Cut(k, KEY_LEN - 1), Cut(v, VAL_LEN - 1));
    FindIs(InitVars(), k, 0, 2);
    FindIs(InitVars() + [x], k, 0, 3);
    assert calls[1..] == [Var(k, v)];
    SetAllOne(InitVars() + [x], Var(k, v));
    var vars := SetAll(InitVars(), calls);
    assert vars == InitVars() + [x] + [x];
    NotRestored(calls);
    assert vars[2].key == vars[3].key;
  }

  lemma NotRestored(calls: seq<Var>)
    requires |SetAll(InitVars(), calls)| <= 10
    requires forall i :: 0 <= i < |calls| ==> 0 !in calls[i].key && 0 !in calls[i].value
    ensures var vars := SetAll(InitVars(), calls);
            && Booted(vars) && Saved(vars) == |vars|
            && (SetAll(InitVars(), Parse(Text(vars))) == vars ==> AllClean(vars) && DistinctKeys(vars))
  {
    hide Text, Parse, Saved, SetAll, AllClean, DistinctKeys, InitVars;
    InitBooted();
    RunsStayBooted(calls, InitVars());
    var vars := SetAll(InitVars(), calls);
    SavedAtLeastTen(vars);
    assert vars[..|vars|] == vars;
    ReloadRestores(vars);
  }

  /** Right after boot, setting a key of 16 or more characters brings up its 15-character form. */
  lemma CutKeyAppears(k: seq<byte>, v: seq<byte>)
    requires |k| >= KEY_LEN
    ensures Get(InitVars(), Cut(k, KEY_LEN - 1)) == None
    ensures Get(Set(InitVars(), k, v).0, Cut(k, KEY_LEN - 1)) == Some(Cut(v, VAL_LEN - 1))
  {
    hide OsName, OsVersion, AuraOs, Release;
    FindIs(InitVars(), k, 0, 2);
    FindIs(InitVars(), Cut(k, KEY_LEN - 1), 0, 2);
    FindIs(Set(InitVars(), k, v).0, Cut(k, KEY_LEN - 1), 0, 2);
  }
}

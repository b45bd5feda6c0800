/** The exact cadence of a task, and the exact meaning of the task counter. */
module SchedLaws {
  import opened Bytes
  import opened Common
  import KString
  import opened SchedSpec

  // ----- cadence

  /** Callbacks that leave the task table alone. */
  ghost predicate Quiet(react: Reaction) { forall n, fn :: react(n, fn) == [] }

  /** One tick as seen by a single task. */
  function TickTask(t: Task, now: int): Task {
    var u := Reap(t);
    if Due(u, now) then u.(lastRun := now, runs := (u.runs + 1) % U32) else u
  }

  lemma {:induction false} RunFromSlot(s: Sched, i: nat, react: Reaction, k: nat)
    requires WellFormed(s) && i <= MAX_TASKS && AllOps(react) && Quiet(react) && k < MAX_TASKS
    ensures RunFrom(s, i, react).tick == s.tick
    ensures RunFrom(s, i, react).tasks[k] ==
              if i <= k && Due(s.tasks[k], s.tick)
              then s.tasks[k].(lastRun := s.tick, runs := (s.tasks[k].runs + 1) % U32) else s.tasks[k]
    decreases MAX_TASKS - i
  {
    hide AllOps, Due;
    if i < MAX_TASKS {
      RunFromSlot(RunSlot(s, i, react), i + 1, react, k);
      if Due(s.tasks[i], s.tick) {
        assert react(s.calls, s.tasks[i].fn) == [];
        DueReady(s.tasks[i], s.tick);
      }
    }
  }

  lemma DueReady(t: Task, now: int)
    requires Due(t, now)
    ensures t.state == READY
  {}

  /** With quiet callbacks the tasks do not influence each other. */
  lemma TickIsLocal(s: Sched, react: Reaction, k: nat)
    requires WellFormed(s) && AllOps(react) && Quiet(react) && k < MAX_TASKS
    ensures Tick(s, react).tick == (s.tick + 1) % U32
    ensures Tick(s, react).tasks[k] == TickTask(s.tasks[k], (s.tick + 1) % U32)
  {
    hide RunFrom, Due, AllOps, Quiet, Reap;
    RunFromSlot(Begin(s), 0, react, k);
  }

  /** The number of ticks until a task of period `p`, registered when the counter read `q`, runs for
      the first time. last_run starts at 0, not at the registration tick. */
  function FirstRun(q: int, p: int): (j: int)
    requires 0 <= q < U32 && 0 < p < U32
    ensures j >= 1
  {
    if q + 1 == U32 then 1 + p else if p - q >= 1 then p - q else 1
  }

  /** How often it has run after `n` ticks. */
  function RunsAfter(q: int, p: int, n: nat): (r: int)
    requires 0 <= q < U32 && 0 <= p < U32
    ensures r >= 0
  {
    if p == 0 then n
    else if n < FirstRun(q, p) then 0
    else 1 + (n - FirstRun(q, p)) / p
  }

  /** The tick of the latest run, not reduced modulo 2^32; 0 before the first one. */
  function LatestRun(q: int, p: int, n: nat): int
    requires 0 <= q < U32 && 0 < p < U32
  {
    if n < FirstRun(q, p) then 0 else q + FirstRun(q, p) + (n - FirstRun(q, p)) / p * p
  }

  lemma ElapsedExact(now: int, last: int)
    requires 0 <= now - last < U32
    ensures Elapsed(now % U32, last % U32) == now - last
  {
    var a, b := now / U32, last / U32;
    assert now % U32 - last % U32 == (now - last) + U32 * (b - a);
    assert a - b == 0 || a - b == 1;
  }

  /** Whether tick n + 1 is a run, decided in 32 bits, is decided exactly. */
  lemma NextRunExact(q: int, p: int, n: nat)
    requires 0 <= q < U32 && 0 < p < U32
    ensures Elapsed((q + n + 1) % U32, LatestRun(q, p, n) % U32) >= p <==> RunsAfter(q, p, n + 1) == RunsAfter(q, p, n) + 1
    ensures RunsAfter(q, p, n + 1) == RunsAfter(q, p, n) || RunsAfter(q, p, n + 1) == RunsAfter(q, p, n) + 1
    ensures RunsAfter(q, p, n + 1) == RunsAfter(q, p, n) + 1 ==> LatestRun(q, p, n + 1) == q + n + 1
    ensures RunsAfter(q, p, n + 1) == RunsAfter(q, p, n) ==> LatestRun(q, p, n + 1) == LatestRun(q, p, n)
  {
    var j := FirstRun(q, p);
    if n < j {
      FirstRunExact(q, p, n);
    } else {
      LaterRunExact(q, p, n);
    }
  }

  lemma FirstRunExact(q: int, p: int, n: nat)
    requires 0 <= q < U32 && 0 < p < U32 && n < FirstRun(q, p)
    ensures Elapsed((q + n + 1) % U32, 0) >= p <==> n + 1 == FirstRun(q, p)
    ensures n + 1 == FirstRun(q, p) ==> RunsAfter(q, p, n + 1) == 1 && LatestRun(q, p, n + 1) == q + n + 1
    ensures n + 1 < FirstRun(q, p) ==> RunsAfter(q, p, n + 1) == 0 && LatestRun(q, p, n + 1) == 0
  {
    if q + 1 == U32 {
      assert (q + n + 1) % U32 == n;
    } else {
      assert (q + n + 1) % U32 == q + n + 1;
    }
    assert 0 / p == 0;
  }

  lemma DivStep(m: nat, p: int)
    requires p > 0
    ensures m % p + 1 == p ==> (m + 1) / p == m / p + 1
    ensures m % p + 1 < p ==> (m + 1) / p == m / p
    ensures m == m / p * p + m % p && 0 <= m % p < p
    ensures m % p + 1 == p ==> (m + 1) / p * p == m + 1
  {
    var k, r := m / p, m % p;
    assert m == k * p + r;
    if r + 1 == p {
      assert m + 1 == (k + 1) * p;
      DivUnique(m + 1, p, k + 1, 0);
    } else {
      DivUnique(m + 1, p, k, r + 1);
    }
  }

  lemma DivUnique(m: int, p: int, k: int, r: int)
    requires p > 0 && m == k * p + r && 0 <= r < p
    ensures m / p == k
  {
    var d := m / p - k;
    assert m == (m / p) * p + m % p;
    assert (m / p) * p - k * p == d * p;
    assert (d >= 1 ==> d * p >= p) && (d <= -1 ==> d * p <= -p);
  }

  lemma LaterRunExact(q: int, p: int, n: nat)
    requires 0 <= q < U32 && 0 < p < U32 && n >= FirstRun(q, p)
    ensures Elapsed((q + n + 1) % U32, LatestRun(q, p, n) % U32) >= p <==> RunsAfter(q, p, n + 1) == RunsAfter(q, p, n) + 1
    ensures RunsAfter(q, p, n + 1) == RunsAfter(q, p, n) || RunsAfter(q, p, n + 1) == RunsAfter(q, p, n) + 1
    ensures RunsAfter(q, p, n + 1) == RunsAfter(q, p, n) + 1 ==> LatestRun(q, p, n + 1) == q + n + 1
    ensures RunsAfter(q, p, n + 1) == RunsAfter(q, p, n) ==> LatestRun(q, p, n + 1) == LatestRun(q, p, n)
  {
    hide FirstRun, Elapsed;
    var m := n - FirstRun(q, p);
    DivStep(m, p);
    assert q + n + 1 - LatestRun(q, p, n) == m % p + 1;
    ElapsedExact(q + n + 1, LatestRun(q, p, n));
  }

  /** The exact number of runs after any number of ticks, for a task registered at any tick: the
      32-bit subtraction never goes wrong, also past 2^32. */
  lemma {:induction false} Cadence(s: Sched, react: Reaction, k: nat, n: nat)
    requires WellFormed(s) && AllOps(react) && Quiet(react) && k < MAX_TASKS
    requires s.tasks[k].state == READY && s.tasks[k].runs == 0 && s.tasks[k].lastRun == 0
    ensures var p, s' := s.tasks[k].period, Ticks(s, n, react);
            && s'.tick == (s.tick + n) % U32
            && s'.tasks[k].state == READY && s'.tasks[k].period == p
            && s'.tasks[k].runs == RunsAfter(s.tick, p, n) % U32
            && (p > 0 ==> s'.tasks[k].lastRun == LatestRun(s.tick, p, n) % U32)
  {
    hide Tick, WellFormed, RunsAfter, LatestRun, Elapsed;
    TaskBounds(s, k);
    var q, p := s.tick, s.tasks[k].period;
    CountStart(q, p);
    if n > 0 {
      var prev := Ticks(s, n - 1, react);
      Cadence(s, react, k, n - 1);
      TickIsLocal(prev, react, k);
      TickShift(q, n - 1);
      if p > 0 { NextRunExact(q, p, n - 1); } else { EveryTick(q, n - 1); }
      CountShift(RunsAfter(q, p, n - 1));
    }
  }

  lemma TaskBounds(s: Sched, k: nat)
    requires WellFormed(s) && k < MAX_TASKS
    ensures |s.tasks| == MAX_TASKS && 0 <= s.tick < U32 && 0 <= s.tasks[k].period < U32
  {}

  lemma CountStart(q: int, p: int)
    requires 0 <= q < U32 && 0 <= p < U32
    ensures RunsAfter(q, p, 0) == 0 && (p > 0 ==> LatestRun(q, p, 0) == 0)
  {}

  lemma EveryTick(q: int, n: nat)
    requires 0 <= q < U32
    ensures RunsAfter(q, 0, n + 1) == RunsAfter(q, 0, n) + 1
  {}

  lemma TickShift(q: int, n: nat)
    ensures ((q + n) % U32 + 1) % U32 == (q + n + 1) % U32
  {}

  lemma CountShift(r: int)
    ensures (r % U32 + 1) % U32 == (r + 1) % U32
  {}

  lemma FloorFormula(p: int, n: nat)
    requires 0 < p < U32
    ensures RunsAfter(0, p, n) == n / p
  {
    if n < p {
      DivUnique(n, p, 0, n);
    } else {
      var k, r := (n - p) / p, (n - p) % p;
      assert n == (k + 1) * p + r;
      DivUnique(n, p, k + 1, r);
    }
  }

  lemma WindowFormula(q: int, p: int, n: nat)
    requires 0 <= q < U32 && 0 < p < U32 && n + 1 >= FirstRun(q, p)
    ensures RunsAfter(q, p, n + p) == RunsAfter(q, p, n) + 1
  {
    var m := n - FirstRun(q, p);
    if m == -1 {
      DivUnique(p - 1, p, 0, p - 1);
    } else {
      var k, r := m / p, m % p;
      assert m + p == (k + 1) * p + r;
      DivUnique(m + p, p, k + 1, r);
    }
  }

  /** The slot that a successful registration fills. */
  lemma AddFills(s: Sched, name: seq<byte>, fn: nat, period: int)
    requires WellFormed(s) && IsOp(Add(name, fn, period)) && Do(s, Add(name, fn, period)).1 == OK
    ensures var i, s' := FindEmpty(s.tasks, 0), Do(s, Add(name, fn, period)).0;
            && i < MAX_TASKS && s'.tick == s.tick && s'.tasks[i].state == READY && s'.tasks[i].fn == fn
            && s'.tasks[i].period == period && s'.tasks[i].runs == 0 && s'.tasks[i].lastRun == 0
  {}

  /** A task registered at tick 0 with period p > 0 has run floor(n / p) times after n ticks. */
  lemma CadenceFromZero(s: Sched, name: seq<byte>, fn: nat, p: int, react: Reaction, n: nat)
    requires WellFormed(s) && s.tick == 0 && AllOps(react) && Quiet(react)
    requires IsOp(Add(name, fn, p)) && p > 0 && Do(s, Add(name, fn, p)).1 == OK
    ensures FindEmpty(s.tasks, 0) < MAX_TASKS
    ensures Ticks(Do(s, Add(name, fn, p)).0, n, react).tasks[FindEmpty(s.tasks, 0)].runs == n / p % U32
  {
    hide Do, Ticks, AllOps, Quiet, FindEmpty;
    AddFills(s, name, fn, p);
    Cadence(Do(s, Add(name, fn, p)).0, react, FindEmpty(s.tasks, 0), n);
    FloorFormula(p, n);
  }

  /** From the tick before its first run on, a task runs exactly once in every window of p ticks. */
  lemma OncePerPeriod(s: Sched, react: Reaction, k: nat, n: nat)
    requires WellFormed(s) && AllOps(react) && Quiet(react) && k < MAX_TASKS
    requires s.tasks[k].state == READY && s.tasks[k].runs == 0 && s.tasks[k].lastRun == 0
    requires s.tasks[k].period > 0 && n + 1 >= FirstRun(s.tick, s.tasks[k].period)
    ensures Ticks(s, n + s.tasks[k].period, react).tasks[k].runs == (Ticks(s, n, react).tasks[k].runs + 1) % U32
  {
    hide Ticks, AllOps, Quiet, FirstRun, RunsAfter, LatestRun;
    var p := s.tasks[k].period;
    Cadence(s, react, k, n);
    Cadence(s, react, k, n + p);
    WindowFormula(s.tick, p, n);
    CountShift(RunsAfter(s.tick, p, n));
  }

  // ----- the task counter

  function Alive(t: Task): int { if t.state == EMPTY || t.state == ZOMBIE then 0 else 1 }

  /** The number of registered tasks. */
  function Registered(ts: seq<Task>): int {
    if ts == [] then 0 else Alive(ts[0]) + Registered(ts[1..])
  }

  /** The counter is short of the registered tasks by the drift. */
  ghost predicate Counts(s: Sched) { Registered(s.tasks) == s.count + s.drift }

  lemma {:induction false} RegisteredUpdate(ts: seq<Task>, i: nat, t: Task)
    requires i < |ts|
    ensures Registered(ts[i := t]) == Registered(ts) - Alive(ts[i]) + Alive(t)
  {
    if i > 0 {
      RegisteredUpdate(ts[1..], i - 1, t);
      assert ts[i := t][1..] == ts[1..][i - 1 := t];
    } else {
      assert ts[0 := t][1..] == ts[1..];
    }
  }

  lemma {:induction false} RegisteredSame(ts: seq<Task>, us: seq<Task>)
    requires |ts| == |us| && forall i :: 0 <= i < |ts| ==> Alive(ts[i]) == Alive(us[i])
    ensures Registered(ts) == Registered(us)
  {
    if ts != [] { RegisteredSame(ts[1..], us[1..]); }
  }

  lemma DoCounts(s: Sched, op: Op)
    requires WellFormed(s) && IsOp(op) && Counts(s)
    ensures Counts(Do(s, op).0)
  {
    match op
    case Add(name, fn, period) =>
      var i := FindEmpty(s.tasks, 0);
      if i < MAX_TASKS {
        var t := Task(Splice(s.tasks[i].name, 0, KString.Cut(KString.CStr(name), NAME_LEN - 1) + [0]), fn, READY, 0, period, 0);
        RegisteredUpdate(s.tasks, i, t);
      }
    case Remove(name) =>
      var i := FindNamed(s.tasks, name, 0);
      if i < MAX_TASKS { RegisteredUpdate(s.tasks, i, s.tasks[i].(state := ZOMBIE)); }
  }

  /** A RUNNING slot is still RUNNING after its callback, unless the callback removed it. */
  lemma {:induction false} DoAllCounts(s: Sched, ops: seq<Op>, i: nat)
    requires WellFormed(s) && (forall j :: 0 <= j < |ops| ==> IsOp(ops[j])) && Counts(s)
    requires i < MAX_TASKS && s.tasks[i].state in {RUNNING, ZOMBIE}
    ensures Counts(DoAll(s, ops)) && DoAll(s, ops).tasks[i].state in {RUNNING, ZOMBIE}
    decreases |ops|
  {
    hide Counts;
    if ops != [] {
      DoCounts(s, ops[0]);
      DoAllCounts(Do(s, ops[0]).0, ops[1..], i);
    }
  }

  lemma RunSlotCounts(s: Sched, i: nat, react: Reaction)
    requires WellFormed(s) && i < MAX_TASKS && AllOps(react) && Counts(s)
    ensures Counts(RunSlot(s, i, react))
  {
    hide DoAll, Elapsed;
    if Due(s.tasks[i], s.tick) {
      var s1 := Started(s, i);
      RegisteredUpdate(s.tasks, i, s1.tasks[i]);
      DoAllCounts(s1, react(s.calls, s.tasks[i].fn), i);
      var s2 := DoAll(s1, react(s.calls, s.tasks[i].fn));
      RegisteredUpdate(s2.tasks, i, Finished(s2, i).tasks[i]);
    }
  }

  lemma {:induction false} RunFromCounts(s: Sched, i: nat, react: Reaction)
    requires WellFormed(s) && i <= MAX_TASKS && AllOps(react) && Counts(s)
    ensures Counts(RunFrom(s, i, react))
    decreases MAX_TASKS - i
  {
    hide Counts, RunSlot, AllOps;
    if i < MAX_TASKS {
      RunSlotCounts(s, i, react);
      RunFromCounts(RunSlot(s, i, react), i + 1, react);
    }
  }

  /** A step of a run: some code adds or removes a task, or the scheduler ticks. */
  datatype Step = Use(op: Op) | TickStep

  function Next(s: Sched, step: Step, react: Reaction): (s': Sched)
    requires WellFormed(s) && AllOps(react) && (step.Use? ==> IsOp(step.op))
    ensures WellFormed(s')
  {
    match step
    case Use(op) => Do(s, op).0
    case TickStep => Tick(s, react)
  }

  function Run(s: Sched, steps: seq<Step>, react: Reaction): (s': Sched)
    requires WellFormed(s) && AllOps(react) && forall i :: 0 <= i < |steps| && steps[i].Use? ==> IsOp(steps[i].op)
    ensures WellFormed(s')
    decreases |steps|
  {
    if steps == [] then s else Run(Next(s, steps[0], react), steps[1..], react)
  }

  /** Over every run, whatever the callbacks do: registered tasks = counter + drift. So the counter is
      exact exactly when no removal hit a task already removed and no task removed itself. */
  lemma {:induction false} CounterLaw(s: Sched, steps: seq<Step>, react: Reaction)
    requires WellFormed(s) && AllOps(react) && forall i :: 0 <= i < |steps| && steps[i].Use? ==> IsOp(steps[i].op)
    requires Counts(s)
    ensures var s' := Run(s, steps, react);
            Registered(s'.tasks) == s'.count + s'.drift && (s'.count == Registered(s'.tasks) <==> s'.drift == 0)
    decreases |steps|
  {
    hide RunFrom, Do, AllOps;
    if steps != [] {
      match steps[0] {
        case Use(op) => DoCounts(s, op);
        case TickStep =>
          RegisteredSame(s.tasks, Begin(s).tasks);
          RunFromCounts(Begin(s), 0, react);
      }
      CounterLaw(Next(s, steps[0], react), steps[1..], react);
    }
  }

  /** Removing a task twice before the next tick puts an exact counter one too low. */
  lemma RemovedTwice(s: Sched, name: seq<byte>)
    requires WellFormed(s) && IsOp(Remove(name)) && Counts(s) && s.drift == 0
    requires FindNamed(s.tasks, name, 0) < MAX_TASKS && s.tasks[FindNamed(s.tasks, name, 0)].state == READY
    ensures var s' := Do(Do(s, Remove(name)).0, Remove(name)).0;
            s'.count == Registered(s'.tasks) - 1
  {
    var i := FindNamed(s.tasks, name, 0);
    var s1 := Do(s, Remove(name)).0;
    assert forall j :: 0 <= j < i ==> s1.tasks[j] == s.tasks[j];
    FindNamedIs(s1.tasks, name, 0, i);
    DoCounts(s, Remove(name));
    DoCounts(s1, Remove(name));
  }

  lemma FindNamedIs(ts: seq<Task>, name: seq<byte>, i: nat, r: nat)
    requires i <= r < |ts| && Named(ts[r], name) && forall j :: i <= j < r ==> !Named(ts[j], name)
    ensures FindNamed(ts, name, i) == r
  {}

  /** So does a task that removes itself from its own callback: it stays registered. */
  lemma RemovedItself(s: Sched, i: nat, react: Reaction)
    requires WellFormed(s) && AllOps(react) && Counts(s) && s.drift == 0 && i < MAX_TASKS && Due(s.tasks[i], s.tick)
    requires react(s.calls, s.tasks[i].fn) == [Remove(s.tasks[i].name)] && IsOp(Remove(s.tasks[i].name))
    requires FindNamed(s.tasks, s.tasks[i].name, 0) == i
    ensures var s' := RunSlot(s, i, react);
            s'.tasks[i].state == READY && s'.count == Registered(s'.tasks) - 1
  {
    hide Elapsed;
    var s1, op := Started(s, i), Remove(s.tasks[i].name);
    assert forall j :: 0 <= j < i ==> s1.tasks[j] == s.tasks[j];
    FindNamedIs(s1.tasks, op.name, 0, i);
    assert [op][1..] == [];
    assert DoAll(s1, [op]) == Do(s1, op).0;
    RunSlotCounts(s, i, react);
  }

  // ----- adding, removing, reaping

  /** Everything about scheduler_add_task: why it refuses, that it then changes nothing, and the one slot
      it fills otherwise. */
  lemma AddLaw(s: Sched, name: seq<byte>, fn: nat, period: int)
    requires WellFormed(s) && IsOp(Add(name, fn, period))
    ensures var (s', r) := Do(s, Add(name, fn, period));
            && (r == ERR <==> fn == 0)
            && (r == NOSLOT <==> fn != 0 && (s.count >= 16 || forall i :: 0 <= i < 16 ==> s.tasks[i].state != EMPTY))
            && r in {OK, ERR, NOSLOT} && (r != OK ==> s' == s)
            && (r == OK ==> exists i :: 0 <= i < 16 && Filled(s, s', i, name, fn, period))
  {
    hide Splice;
    if Do(s, Add(name, fn, period)).1 == OK {
      var i, s' := FindEmpty(s.tasks, 0), Do(s, Add(name, fn, period)).0;
      var field := KString.Cut(KString.CStr(name), NAME_LEN - 1);
      StoredName(s.tasks[i].name, field);
      assert Filled(s, s', i, name, fn, period);
    }
  }

  /** The first empty slot `i` now holds a READY task of that name, function and period that has not run. */
  ghost predicate Filled(s: Sched, s': Sched, i: int, name: seq<byte>, fn: nat, period: int)
    requires WellFormed(s) && WellFormed(s') && 0 <= i < 16
  {
    var t := s'.tasks[i];
    && s.tasks[i].state == EMPTY && (forall j :: 0 <= j < i ==> s.tasks[j].state != EMPTY)
    && t.state == READY && t.fn == fn && t.period == period && t.runs == 0 && t.lastRun == 0
    && KString.CStr(t.name) == KString.Cut(KString.CStr(name), 15)
    && (forall j :: 0 <= j < 16 && j != i ==> s'.tasks[j] == s.tasks[j])
    && s'.count == s.count + 1 && s'.tick == s.tick && s'.calls == s.calls
  }

  lemma StoredName(before: seq<byte>, field: seq<byte>)
    requires |before| == NAME_LEN && |field| < NAME_LEN && 0 !in field
    ensures KString.CStr(Splice(before, 0, field + [0])) == field
  {
    var m := Splice(before, 0, field + [0]);
    assert m[..|field|] == field && m[|field|] == 0;
    KString.CStrIs(m, |field|);
  }

  /** scheduler_remove_task marks the first task of that name and touches nothing else of it. */
  lemma RemoveLaw(s: Sched, name: seq<byte>)
    requires WellFormed(s) && IsOp(Remove(name))
    ensures var (s', r) := Do(s, Remove(name));
            && r == (if forall i :: 0 <= i < 16 ==> !Named(s.tasks[i], name) then NOTFOUND else OK)
            && (r != OK ==> s' == s)
            && (r == OK ==> exists i :: 0 <= i < 16 && Marked(s, s', i, name))
  {
    hide Named;
    if Do(s, Remove(name)).1 == OK {
      assert Marked(s, Do(s, Remove(name)).0, FindNamed(s.tasks, name, 0), name);
    }
  }

  ghost predicate Marked(s: Sched, s': Sched, i: int, name: seq<byte>)
    requires WellFormed(s) && WellFormed(s') && 0 <= i < 16
  {
    && Named(s.tasks[i], name) && (forall j :: 0 <= j < i ==> !Named(s.tasks[j], name))
    && s'.tasks[i].state == ZOMBIE && s'.tasks[i] == s.tasks[i].(state := ZOMBIE)
    && (forall j :: 0 <= j < 16 && j != i ==> s'.tasks[j] == s.tasks[j])
    && s'.count == s.count - 1 && s'.tick == s.tick && s'.calls == s.calls
  }

  /** Names of up to 16 characters are told apart as a whole. */
  lemma NamesToldApart(t: Task, name: seq<byte>)
    requires |t.name| == 16 && |KString.CStr(name)| <= 16
    ensures Named(t, name) <==> t.state != EMPTY && KString.CStr(t.name) == KString.CStr(name)
  {}

  /** A task is found under the name it was added with exactly when that has at most 15 characters; a
      longer name is cut when it is stored, but not when it is looked for. */
  lemma AddedIsRemoved(s: Sched, name: seq<byte>, fn: nat, period: int)
    requires WellFormed(s) && IsOp(Add(name, fn, period)) && Do(s, Add(name, fn, period)).1 == OK
    requires forall i :: 0 <= i < 16 ==> !Named(s.tasks[i], name)
    ensures var (s', r) := Do(Do(s, Add(name, fn, period)).0, Remove(name));
            && (r == OK <==> |KString.CStr(name)| < 16)
            && (r == OK ==> s'.tasks[FindEmpty(s.tasks, 0)].state == ZOMBIE && s'.count == s.count)
  {
    hide Do, Named, FindEmpty;
    AddLaw(s, name, fn, period);
    var s1 := Do(s, Add(name, fn, period)).0;
    var i :| 0 <= i < 16 && Filled(s, s1, i, name, fn, period);
    FindEmptyIs(s.tasks, 0, i);
    NamedCut(s1.tasks[i], name);
    RemoveLaw(s1, name);
  }

  lemma NamedCut(t: Task, name: seq<byte>)
    requires t.state != EMPTY && KString.CStr(t.name) == KString.Cut(KString.CStr(name), 15)
    ensures Named(t, name) <==> |KString.CStr(name)| < 16
  {}

  lemma FindEmptyIs(ts: seq<Task>, i: nat, r: nat)
    requires i <= r <= |ts| && (r < |ts| ==> ts[r].state == EMPTY) && forall j :: i <= j < r ==> ts[j].state != EMPTY
    ensures FindEmpty(ts, i) == r
  {}

  /** A tick empties the slots of removed tasks and, when callbacks leave the table alone, changes the
      state of no other. */
  lemma TickReaps(s: Sched, react: Reaction, k: nat)
    requires WellFormed(s) && AllOps(react) && Quiet(react) && k < MAX_TASKS
    ensures Tick(s, react).tasks[k].state == if s.tasks[k].state == ZOMBIE then EMPTY else s.tasks[k].state
  {
    hide AllOps, Quiet, Tick;
    TickIsLocal(s, react, k);
  }
}

/** The cooperative scheduler as a state machine over its task table. Task callbacks may add and
    remove tasks; what the n-th callback of a run does is given by a reaction. */
module SchedSpec {
  import opened Bytes
  import opened Common
  import opened KString

  const MAX_TASKS := 16
  const NAME_LEN := 16

  datatype TaskState = EMPTY | READY | RUNNING | BLOCKED | ZOMBIE

  /** task_t; `runs` is its tick_count. */
  datatype Task = Task(name: seq<byte>, fn: nat, state: TaskState, runs: int, period: int, lastRun: int)

  datatype Op = Add(name: seq<byte>, fn: nat, period: int) | Remove(name: seq<byte>)

  /** What the n-th task callback, a call of `fn`, does to the task table. */
  type Reaction = (nat, nat) -> seq<Op>

  /** `calls` counts callbacks; `drift` counts the two events that put the counter wrong. */
  datatype Sched = Sched(tasks: seq<Task>, count: int, tick: int, calls: nat, drift: nat)

  predicate IsOp(op: Op) {
    0 in op.name && (op.Add? ==> 0 <= op.period < U32)
  }

  ghost predicate AllOps(react: Reaction) {
    forall n, fn, i :: 0 <= i < |react(n, fn)| ==> IsOp(react(n, fn)[i])
  }

  ghost predicate WellFormed(s: Sched) {
    && |s.tasks| == MAX_TASKS && 0 <= s.tick < U32
    && forall i :: 0 <= i < MAX_TASKS ==>
         && |s.tasks[i].name| == NAME_LEN && 0 <= s.tasks[i].period < U32
         && 0 <= s.tasks[i].lastRun < U32 && 0 <= s.tasks[i].runs < U32
  }

  // ----- scheduler_add_task, scheduler_remove_task

  function FindEmpty(ts: seq<Task>, i: nat): (r: nat)
    requires i <= |ts|
    ensures i <= r <= |ts| && (r < |ts| ==> ts[r].state == EMPTY)
    ensures forall j :: i <= j < r ==> ts[j].state != EMPTY
    decreases |ts| - i
  {
    if i == |ts| || ts[i].state == EMPTY then i else FindEmpty(ts, i + 1)
  }

  /** strncmp_k over the name field. */
  predicate Named(t: Task, name: seq<byte>) {
    t.state != EMPTY && Cut(CStr(t.name), NAME_LEN) == Cut(CStr(name), NAME_LEN)
  }

  function FindNamed(ts: seq<Task>, name: seq<byte>, i: nat): (r: nat)
    requires i <= |ts|
    ensures i <= r <= |ts| && (r < |ts| ==> Named(ts[r], name))
    ensures forall j :: i <= j < r ==> !Named(ts[j], name)
    decreases |ts| - i
  {
    if i == |ts| || Named(ts[i], name) then i else FindNamed(ts, name, i + 1)
  }

  function Do(s: Sched, op: Op): (r: (Sched, Status))
    requires WellFormed(s) && IsOp(op)
    ensures WellFormed(r.0)
  {
    match op
    case Add(name, fn, period) =>
      if fn == 0 then (s, ERR)
      else if s.count >= MAX_TASKS then (s, NOSLOT)
      else
        var i := FindEmpty(s.tasks, 0);
        if i == MAX_TASKS then (s, NOSLOT)
        else
          var t := Task(Splice(s.tasks[i].name, 0, Cut(CStr(name), NAME_LEN - 1) + [0]), fn, READY, 0, period, 0);
          (s.(tasks := s.tasks[i := t], count := s.count + 1), OK)
    case Remove(name) =>
      var i := FindNamed(s.tasks, name, 0);
      if i == MAX_TASKS then (s, NOTFOUND)
      else
        (s.(tasks := s.tasks[i := s.tasks[i].(state := ZOMBIE)], count := s.count - 1,
            drift := if s.tasks[i].state == ZOMBIE then s.drift + 1 else s.drift), OK)
  }

  function DoAll(s: Sched, ops: seq<Op>): (s': Sched)
    requires WellFormed(s) && forall i :: 0 <= i < |ops| ==> IsOp(ops[i])
    ensures WellFormed(s')
    decreases |ops|
  {
    if ops == [] then s else DoAll(Do(s, ops[0]).0, ops[1..])
  }

  // ----- scheduler_tick

  function Reap(t: Task): Task { if t.state == ZOMBIE then t.(state := EMPTY) else t }

  function ReapAll(ts: seq<Task>): (r: seq<Task>)
    ensures |r| == |ts|
  {
    seq(|ts|, i requires 0 <= i < |ts| => Reap(ts[i]))
  }

  /** sched_tick - last_run in 32-bit unsigned arithmetic. */
  function Elapsed(now: int, last: int): (d: int)
    ensures 0 <= d < U32
  {
    (now - last) % U32
  }

  predicate Due(t: Task, now: int) {
    t.state == READY && (t.period == 0 || Elapsed(now, t.lastRun) >= t.period)
  }

  /** The slot while its callback runs. */
  function Started(s: Sched, i: nat): (s': Sched)
    requires WellFormed(s) && i < MAX_TASKS
    ensures WellFormed(s')
  {
    s.(tasks := s.tasks[i := s.tasks[i].(state := RUNNING, lastRun := s.tick)], calls := s.calls + 1)
  }

  /** After the callback the slot is READY again, even if the callback removed it. */
  function Finished(s: Sched, i: nat): (s': Sched)
    requires WellFormed(s) && i < MAX_TASKS
    ensures WellFormed(s')
  {
    s.(tasks := s.tasks[i := s.tasks[i].(state := READY, runs := (s.tasks[i].runs + 1) % U32)],
       drift := if s.tasks[i].state == ZOMBIE then s.drift + 1 else s.drift)
  }

  function RunSlot(s: Sched, i: nat, react: Reaction): (s': Sched)
    requires WellFormed(s) && i < MAX_TASKS && AllOps(react)
    ensures WellFormed(s')
  {
    if Due(s.tasks[i], s.tick)
    then Finished(DoAll(Started(s, i), react(s.calls, s.tasks[i].fn)), i)
    else s
  }

  function RunFrom(s: Sched, i: nat, react: Reaction): (s': Sched)
    requires WellFormed(s) && i <= MAX_TASKS && AllOps(react)
    ensures WellFormed(s')
    decreases MAX_TASKS - i
  {
    if i == MAX_TASKS then s else RunFrom(RunSlot(s, i, react), i + 1, react)
  }

  function Begin(s: Sched): (s': Sched)
    requires WellFormed(s)
    ensures WellFormed(s')
  {
    s.(tick := (s.tick + 1) % U32, tasks := ReapAll(s.tasks))
  }

  function Tick(s: Sched, react: Reaction): (s': Sched)
    requires WellFormed(s) && AllOps(react)
    ensures WellFormed(s')
  {
    RunFrom(Begin(s), 0, react)
  }

  function Ticks(s: Sched, n: nat, react: Reaction): (s': Sched)
    requires WellFormed(s) && AllOps(react)
    ensures WellFormed(s')
  {
    if n == 0 then s else Tick(Ticks(s, n - 1, react), react)
  }
}

/** The scheduler: the task table is scanned and updated slot by slot, with callbacks run in between. */
module Scheduler {
  import opened Bytes
  import opened Common
  import opened KString
  import opened SchedSpec
  import B = BusSpec
  import EventBus
  import opened TickTalk

  class Scheduler {
    const table: array<Task>
    var count: int
    var tick: int
    /** Number of callbacks so far: selects what the next one does. */
    var calls: nat
    ghost var drift: nat

    ghost function State(): Sched
      reads this, table
    {
      Sched(table[..], count, tick, calls, drift)
    }

    ghost predicate Valid()
      reads this, table
    {
      table.Length == MAX_TASKS && WellFormed(State())
    }

    /** scheduler_init on zeroed memory. */
    constructor ()
      ensures Valid() && fresh(table) && count == 0 && tick == 0 && calls == 0 && drift == 0
      ensures forall i :: 0 <= i < MAX_TASKS ==> table[i].state == EMPTY && table[i].runs == 0
    {
      table := new Task[MAX_TASKS](_ => Task(seq(NAME_LEN, _ => 0), 0, EMPTY, 0, 0, 0));
      count, tick, calls, drift := 0, 0, 0, 0;
    }

    method AddTask(name: seq<byte>, fn: nat, period: int) returns (s: Status)
      requires Valid() && IsOp(Add(name, fn, period))
      modifies this`count, table
      ensures Valid() && (State(), s) == Do(old(State()), Add(name, fn, period))
    {
      hide CStr, Cut, FindNamed, Splice;
      if fn == 0 { return ERR; }
      if count >= MAX_TASKS { return NOSLOT; }
      var slot := 0;
      while slot < MAX_TASKS && table[slot].state != EMPTY
        invariant 0 <= slot <= MAX_TASKS && FindEmpty(table[..], 0) == FindEmpty(table[..], slot)
        modifies {}
      {
        slot := slot + 1;
      }
      if slot == MAX_TASKS { return NOSLOT; }
      var field := StrNCpy(table[slot].name, name, NAME_LEN);
      table[slot] := Task(field, fn, READY, 0, period, 0);
      count := count + 1;
      return OK;
    }

    method FindTask(name: seq<byte>) returns (i: nat)
      requires Valid() && 0 in name
      ensures i == FindNamed(table[..], name, 0)
    {
      hide CStr, Cut;
      i := 0;
      while i < MAX_TASKS
        invariant 0 <= i <= MAX_TASKS && FindNamed(table[..], name, 0) == FindNamed(table[..], name, i)
      {
        if table[i].state != EMPTY {
          var c := StrNCmp(table[i].name, name, NAME_LEN);
          if c == 0 { return; }
        }
        i := i + 1;
      }
    }

    method RemoveTask(name: seq<byte>) returns (s: Status)
      requires Valid() && 0 in name
      modifies this`count, this`drift, table
      ensures Valid() && (State(), s) == Do(old(State()), Remove(name))
    {
      hide FindNamed, Named;
      var i := FindTask(name);
      if i == MAX_TASKS { return NOTFOUND; }
      drift := if table[i].state == ZOMBIE then drift + 1 else drift;
      table[i] := table[i].(state := ZOMBIE);
      count := count - 1;
      return OK;
    }

    /** What a callback does to the task table. */
    method Perform(ops: seq<Op>)
      requires Valid() && forall i :: 0 <= i < |ops| ==> IsOp(ops[i])
      modifies this`count, this`drift, table
      ensures Valid() && State() == DoAll(old(State()), ops)
      decreases |ops|
    {
      hide Do;
      if ops != [] {
        var s;
        match ops[0] {
          case Add(name, fn, period) => s := AddTask(name, fn, period);
          case Remove(name) => s := RemoveTask(name);
        }
        Perform(ops[1..]);
      }
    }

    method ReapZombies()
      requires Valid()
      modifies table
      ensures Valid() && table[..] == ReapAll(old(table[..]))
    {
      var i := 0;
      while i < MAX_TASKS
        invariant 0 <= i <= MAX_TASKS
        invariant forall j :: 0 <= j < MAX_TASKS ==> table[j] == if j < i then Reap(old(table[j])) else old(table[j])
      {
        if table[i].state == ZOMBIE {
          table[i] := table[i].(state := EMPTY);
        }
        i := i + 1;
      }
    }

    method Slot(i: nat, react: Reaction, talk: Talk, bus: EventBus.EventBus, handlers: B.Reaction)
      requires Valid() && i < MAX_TASKS && AllOps(react) && bus.Valid()
      modifies this`count, this`drift, this`calls, table, bus, bus.queue, bus.handlers
      ensures Valid() && State() == RunSlot(old(State()), i, react)
      ensures bus.Valid() && bus.bus == TalkSlot(old(State()), old(bus.bus), i, talk, handlers)
    {
      hide DoAll, B.Run, EventBus.Ring, EventBus.At, B.Fifo, B.WellFormed, Do;
      if table[i].state == READY {
        var period := table[i].period;
        if period == 0 || (tick - table[i].lastRun) % U32 >= period {
          var fn, n := table[i].fn, calls;
          table[i] := table[i].(state := RUNNING, lastRun := tick);
          calls := calls + 1;
          assert State() == Started(old(State()), i);
          Perform(react(n, fn));
          bus.Act(talk(n, fn), handlers);
          ghost var s := State();
          drift := if table[i].state == ZOMBIE then drift + 1 else drift;
          table[i] := table[i].(runs := (table[i].runs + 1) % U32);
          table[i] := table[i].(state := READY);
          assert State() == Finished(s, i);
        }
      }
    }

    /** scheduler_tick: reaps, runs the due tasks, whose callbacks may use the task table and the bus,
        and publishes the tick. */
    method Tick(react: Reaction, talk: Talk, bus: EventBus.EventBus, handlers: B.Reaction, now: int)
      requires Valid() && AllOps(react) && bus.Valid()
      modifies this, table, bus, bus.queue, bus.handlers
      ensures Valid() && State() == SchedSpec.Tick(old(State()), react)
      ensures bus.Valid()
      ensures bus.bus == B.Do(TalkFrom(Begin(old(State())), old(bus.bus), 0, react, talk, handlers),
                              B.Publish(B.TOPIC_SCHEDULER_SWITCH, tick, now)).0
    {
      hide RunSlot, TalkSlot, AllOps, B.Do, EventBus.Ring;
      tick := (tick + 1) % U32;
      ReapZombies();
      assert State() == Begin(old(State()));
      var i := 0;
      while i < MAX_TASKS
        invariant 0 <= i <= MAX_TASKS && Valid() && bus.Valid()
        invariant SchedSpec.Tick(old(State()), react) == RunFrom(State(), i, react)
        invariant TalkFrom(Begin(old(State())), old(bus.bus), 0, react, talk, handlers)
               == TalkFrom(State(), bus.bus, i, react, talk, handlers)
      {
        Slot(i, react, talk, bus, handlers);
        i := i + 1;
      }
      var s := bus.Publish(B.TOPIC_SCHEDULER_SWITCH, tick, now);
    }
  }
}

/** The kernel as it boots: seven built-in tasks driving the event bus, with no subscriber. */
module Boot {
  import opened Bytes
  import opened Common
  import B = BusSpec
  import BL = BusLaws
  import BD = BusDrain
  import S = SchedSpec
  import SL = SchedLaws
  import T = TickTalk
  import Scheduler
  import EventBus

  // ----- the built-in tasks, by function pointer

  const HEARTBEAT := 1
  const EVENT_DRAIN := 2
  const MIRROR_SYNC := 3
  const PLUGIN_TICK := 4
  const KEYBOARD_POLL := 5
  const MENU_TICK := 6
  const SERIAL_POLL := 7

  /** The seven calls of scheduler_add_task, in order: function and period. */
  const Builtin: seq<(nat, int)> :=
    [(HEARTBEAT, 1), (EVENT_DRAIN, 1), (MIRROR_SYNC, 10), (PLUGIN_TICK, 5),
     (KEYBOARD_POLL, 1), (MENU_TICK, 2), (SERIAL_POLL, 5)]

  /** `syncs` and `coreTicks` are the 32-bit counters of the mirror engine and of aura_core. `peak`
      is the longest the queue has been, `refused` the number of publishes that were not accepted. */
  datatype Kernel = Kernel(bus: B.Bus, sched: S.Sched, syncs: int, coreTicks: int, halted: bool, peak: nat, refused: nat)

  /** What the outside world feeds in at a tick: the key the menu reads (0 for none), whether the boot
      snapshot passes verification, and the value of g_tick_count. */
  datatype Input = Input(key: byte, verified: bool, now: int)

  ghost predicate WellFormed(k: Kernel) { B.WellFormed(k.bus) && S.WellFormed(k.sched) }

  function Publish(k: Kernel, topic: nat, data: int, now: int): (k': Kernel)
    requires WellFormed(k)
    ensures WellFormed(k')
  {
    var r := B.Do(k.bus, B.Publish(topic, data, now));
    k.(bus := r.0, peak := if |r.0.pending| > k.peak then |r.0.pending| else k.peak,
       refused := if r.1 == OK then k.refused else k.refused + 1)
  }

  // ----- the callbacks

  function NoReaction(n: nat, h: B.Handler, e: B.Event): seq<B.Op> { [] }

  function Rank(topic: nat): nat { 0 }

  lemma SilentDrains(b: B.Bus)
    requires B.WellFormed(b)
    ensures BD.Drains(b, NoReaction)
  {
    assert BD.Ranked(NoReaction, Rank);
    BD.RankedDrains(b, NoReaction, Rank);
  }

  /** eventbus_process. */
  ghost function Drain(k: Kernel): (k': Kernel)
    requires WellFormed(k)
    ensures WellFormed(k') && k'.bus.pending == []
  {
    SilentDrains(k.bus);
    k.(bus := BD.Drained(k.bus, NoReaction))
  }

  /** mirror_sync publishes on every 256th call. */
  function MirrorSync(k: Kernel, now: int): (k': Kernel)
    requires WellFormed(k)
    ensures WellFormed(k')
  {
    var n := (k.syncs + 1) % U32;
    var k1 := k.(syncs := n);
    if n % 256 == 0 then Publish(k1, B.TOPIC_MIRROR_SYNC, n, now) else k1
  }

  /** plugin_tick_all: of the built-in plugins only aura_core publishes, on every 1000th call. */
  function PluginTick(k: Kernel, now: int): (k': Kernel)
    requires WellFormed(k)
    ensures WellFormed(k')
  {
    var n := (k.coreTicks + 1) % U32;
    var k1 := k.(coreTicks := n);
    if n % 1000 == 0 then Publish(k1, B.TOPIC_KERNEL_TICK, n, now) else k1
  }

  /** menu_tick: '4' takes a snapshot, 'r' restores one, 'k' and 'q' halt, all else only prints. */
  function MenuTick(k: Kernel, x: Input): (k': Kernel)
    requires WellFormed(k)
    ensures WellFormed(k')
  {
    if x.key == '4' as int then MirrorSync(k, x.now)
    else if (x.key == 'r' as int || x.key == 'R' as int) && x.verified then
      Publish(k, B.TOPIC_MIRROR_SYNC, 0x8000_0001, x.now)
    else if x.key == 'k' as int || x.key == 'K' as int || x.key == 'q' as int || x.key == 'Q' as int then
      k.(halted := true)
    else k
  }

  ghost function Callback(k: Kernel, fn: nat, x: Input): (k': Kernel)
    requires WellFormed(k)
    ensures WellFormed(k')
  {
    if fn == EVENT_DRAIN then Drain(k)
    else if fn == MIRROR_SYNC then MirrorSync(k, x.now)
    else if fn == PLUGIN_TICK then PluginTick(k, x.now)
    else if fn == MENU_TICK then MenuTick(k, x)
    else k
  }

  // ----- one pass of the kernel loop

  /** The callbacks of the slots from `i` on that are due in the table `s`; a halt ends the pass. */
  ghost function Callbacks(k: Kernel, s: S.Sched, i: nat, x: Input): (k': Kernel)
    requires WellFormed(k) && S.WellFormed(s) && i <= S.MAX_TASKS
    ensures WellFormed(k')
    decreases S.MAX_TASKS - i
  {
    if i == S.MAX_TASKS || k.halted then k
    else Callbacks(if S.Due(s.tasks[i], s.tick) then Callback(k, s.tasks[i].fn, x) else k, s, i + 1, x)
  }

  function Idle(n: nat, fn: nat): seq<S.Op> { [] }

  lemma IdleIsQuiet()
    ensures S.AllOps(Idle) && SL.Quiet(Idle)
  {}

  /** The task table after a tick whose callbacks leave it alone. */
  function QuietTick(s: S.Sched): (s': S.Sched)
    requires S.WellFormed(s)
    ensures S.WellFormed(s')
  {
    S.Tick(s, Idle)
  }

  /** scheduler_tick: built-in callbacks leave the task table alone, so which slots are due is settled
      when the pass begins; at the end the pass publishes its own event. */
  ghost function Tick(k: Kernel, x: Input): (k': Kernel)
    requires WellFormed(k)
    ensures WellFormed(k')
  {
    if k.halted then k else
    var begun := S.Begin(k.sched);
    var k1 := Callbacks(k, begun, 0, x).(sched := QuietTick(k.sched));
    if k1.halted then k1 else Publish(k1, B.TOPIC_SCHEDULER_SWITCH, begun.tick, x.now)
  }

  ghost function Ticks(k: Kernel, xs: seq<Input>): (k': Kernel)
    requires WellFormed(k)
    ensures WellFormed(k')
    decreases |xs|
  {
    if xs == [] then k else Ticks(Tick(k, xs[0]), xs[1..])
  }

  // ----- boot

  /** The scheduler after the first `n` registrations. */
  function AddBuiltins(s: S.Sched, names: seq<seq<byte>>, n: nat): (s': S.Sched)
    requires S.WellFormed(s) && n <= |Builtin| == |names| && forall i :: 0 <= i < |names| ==> 0 in names[i]
    ensures S.WellFormed(s')
  {
    if n == 0 then s
    else S.Do(AddBuiltins(s, names, n - 1), S.Add(names[n - 1], Builtin[n - 1].0, Builtin[n - 1].1)).0
  }

  const ZeroName: seq<byte> := [0, 0, 0, 0, 0, 0, 0, 0, 0, 0, 0, 0, 0, 0, 0, 0]

  function EmptySched(): (s: S.Sched)
    ensures S.WellFormed(s) && forall i :: 0 <= i < S.MAX_TASKS ==> s.tasks[i] == S.Task(ZeroName, 0, S.EMPTY, 0, 0, 0)
  {
    S.Sched(seq(S.MAX_TASKS, i => S.Task(ZeroName, 0, S.EMPTY, 0, 0, 0)), 0, 0, 0, 0)
  }

  /** hello, aura_core, serial and net are registered; each registration publishes its slot. */
  function LoadPlugins(k: Kernel, n: nat, now: int): (k': Kernel)
    requires WellFormed(k)
    ensures WellFormed(k')
  {
    if n == 0 then k else Publish(LoadPlugins(k, n - 1, now), B.TOPIC_PLUGIN_LOADED, n - 1, now)
  }

  /** The kernel when its loop begins; menu_run has taken the boot snapshot. */
  function Booted(names: seq<seq<byte>>, now: int): (k: Kernel)
    requires |names| == |Builtin| && forall i :: 0 <= i < |names| ==> 0 in names[i]
    ensures WellFormed(k)
  {
    MirrorSync(LoadPlugins(Kernel(B.Empty(), AddBuiltins(EmptySched(), names, |Builtin|), 0, 0, false, 0, 0), 4, now), now)
  }

  // ----- no event is ever dropped

  ghost predicate NoSubscribers(b: B.Bus) {
    B.WellFormed(b) && forall i :: 0 <= i < B.MAX_TOPICS * B.MAX_HANDLERS ==> b.handlers[i] == 0
  }

  /** At most `n` events are pending, and so far at most 4 were and none was refused. */
  ghost predicate Calm(k: Kernel, n: nat) {
    WellFormed(k) && NoSubscribers(k.bus) && |k.bus.pending| <= n && k.peak <= 4 && k.refused == 0
  }

  /** The task table between ticks: the seven tasks in their slots, the drain task up to date. */
  ghost predicate BuiltinTable(s: S.Sched) {
    && S.WellFormed(s)
    && (forall i :: 0 <= i < S.MAX_TASKS ==>
          if i < |Builtin| then s.tasks[i].state == S.READY && s.tasks[i].fn == Builtin[i].0 && s.tasks[i].period == Builtin[i].1
          else s.tasks[i].state == S.EMPTY)
    && s.tasks[1].lastRun == s.tick
  }

  lemma PublishCalm(k: Kernel, n: nat, topic: nat, data: int, now: int)
    requires Calm(k, n) && n < 4 && topic < B.MAX_TOPICS
    ensures Calm(Publish(k, topic, data, now), n + 1)
  {}

  lemma {:induction false} RoundsIdle(b: B.Bus, n: nat)
    requires NoSubscribers(b)
    ensures NoSubscribers(BD.Rounds(b, NoReaction, n))
  {
    hide B.CallFrom;
    if n > 0 {
      RoundsIdle(b, n - 1);
      var c := BD.Rounds(b, NoReaction, n - 1);
      if c.pending != [] { BL.IdleSlots(B.Pop(c), c.pending[0], 0, NoReaction); }
    }
  }

  lemma DrainCalm(k: Kernel, n: nat)
    requires Calm(k, n)
    ensures Calm(Drain(k), 0)
  {
    hide BD.Rounds, BD.Drained;
    SilentDrains(k.bus);
    var m: nat :| BD.Rounds(k.bus, NoReaction, m).pending == [];
    BD.DrainedIs(k.bus, NoReaction, m);
    RoundsIdle(k.bus, m);
  }

  /** The most events that can be pending when slot `i` has its turn. */
  function Bound(i: nat): nat {
    if i <= 1 then 4 else if i == 2 then 0 else if i == 3 then 1 else if i <= 5 then 2 else 3
  }

  lemma CallbackCalm(k: Kernel, i: nat, x: Input)
    requires Calm(k, Bound(i)) && i < |Builtin|
    ensures Calm(Callback(k, Builtin[i].0, x), Bound(i + 1))
  {
    hide Publish, Drain, NoSubscribers;
    if i == 1 {
      DrainCalm(k, Bound(i));
    } else if i == 2 {
      PublishCalm(k.(syncs := (k.syncs + 1) % U32), 0, B.TOPIC_MIRROR_SYNC, (k.syncs + 1) % U32, x.now);
    } else if i == 3 {
      PublishCalm(k.(coreTicks := (k.coreTicks + 1) % U32), 1, B.TOPIC_KERNEL_TICK, (k.coreTicks + 1) % U32, x.now);
    } else if i == 5 {
      PublishCalm(k.(syncs := (k.syncs + 1) % U32), 2, B.TOPIC_MIRROR_SYNC, (k.syncs + 1) % U32, x.now);
      PublishCalm(k, 2, B.TOPIC_MIRROR_SYNC, 0x8000_0001, x.now);
    }
  }

  /** The drain task is due at every tick, so the queue is emptied before anything is published. */
  lemma DrainIsDue(s: S.Sched)
    requires BuiltinTable(s)
    ensures S.Due(S.Begin(s).tasks[1], S.Begin(s).tick)
  {
    assert S.Elapsed((s.tick + 1) % U32, s.tick) == 1;
  }

  lemma {:induction false} CallbacksCalm(k: Kernel, s: S.Sched, i: nat, x: Input)
    requires BuiltinTable(s) && i <= S.MAX_TASKS && Calm(k, Bound(i))
    ensures Calm(Callbacks(k, S.Begin(s), i, x), if i <= 1 then 4 else 3)
    ensures !Callbacks(k, S.Begin(s), i, x).halted ==> Calm(Callbacks(k, S.Begin(s), i, x), 3)
    decreases S.MAX_TASKS - i
  {
    hide Callback, NoSubscribers, S.Elapsed;
    if i < S.MAX_TASKS && !k.halted {
      var t := S.Begin(s).tasks[i];
      if i < |Builtin| { CallbackCalm(k, i, x); }
      if i == 1 { DrainIsDue(s); }
      CallbacksCalm(if S.Due(t, S.Begin(s).tick) then Callback(k, t.fn, x) else k, s, i + 1, x);
    }
  }

  lemma TableKept(s: S.Sched)
    requires BuiltinTable(s)
    ensures BuiltinTable(QuietTick(s))
  {
    hide S.Tick, S.Due;
    IdleIsQuiet();
    DrainIsDue(s);
    forall i | 0 <= i < S.MAX_TASKS
      ensures QuietTick(s).tick == (s.tick + 1) % U32
      ensures QuietTick(s).tasks[i] == SL.TickTask(s.tasks[i], (s.tick + 1) % U32)
    {
      SL.TickIsLocal(s, Idle, i);
    }
  }

  /** What holds between ticks. */
  ghost predicate Steady(k: Kernel) { Calm(k, 4) && BuiltinTable(k.sched) }

  lemma TickSteady(k: Kernel, x: Input)
    requires Steady(k)
    ensures Steady(Tick(k, x))
  {
    hide Callbacks, QuietTick, NoSubscribers, Publish;
    if !k.halted {
      CallbacksCalm(k, k.sched, 0, x);
      TableKept(k.sched);
      var k1 := Callbacks(k, S.Begin(k.sched), 0, x).(sched := QuietTick(k.sched));
      if !k1.halted { PublishCalm(k1, 3, B.TOPIC_SCHEDULER_SWITCH, S.Begin(k.sched).tick, x.now); }
      PublishKeepsTable(k1, B.TOPIC_SCHEDULER_SWITCH, S.Begin(k.sched).tick, x.now);
    }
  }

  lemma PublishKeepsTable(k: Kernel, topic: nat, data: int, now: int)
    requires WellFormed(k)
    ensures Publish(k, topic, data, now).sched == k.sched
  {}

  // ----- boot is steady

  /** The first `n` built-in tasks are in their slots and have not run; the other slots are empty. */
  ghost predicate Added(s: S.Sched, n: nat) {
    && S.WellFormed(s) && s.count == n <= |Builtin| && s.tick == 0
    && forall i :: 0 <= i < S.MAX_TASKS ==>
         if i < n then && s.tasks[i].state == S.READY && s.tasks[i].fn == Builtin[i].0
                       && s.tasks[i].period == Builtin[i].1 && s.tasks[i].lastRun == 0 && s.tasks[i].runs == 0
         else s.tasks[i].state == S.EMPTY
  }

  lemma AddNext(s: S.Sched, n: nat, name: seq<byte>)
    requires Added(s, n) && n < |Builtin| && 0 in name
    ensures Added(S.Do(s, S.Add(name, Builtin[n].0, Builtin[n].1)).0, n + 1)
  {
    hide S.FindEmpty, Splice;
    SL.FindEmptyIs(s.tasks, 0, n);
    assert Builtin[n].0 != 0;
  }

  lemma {:induction false} BuiltinsAdded(names: seq<seq<byte>>, n: nat)
    requires n <= |Builtin| == |names| && forall i :: 0 <= i < |names| ==> 0 in names[i]
    ensures Added(AddBuiltins(EmptySched(), names, n), n)
  {
    hide S.Do;
    if n > 0 {
      BuiltinsAdded(names, n - 1);
      AddNext(AddBuiltins(EmptySched(), names, n - 1), n - 1, names[n - 1]);
    }
  }

  lemma {:induction false} PluginsLoaded(k: Kernel, n: nat, now: int)
    requires Calm(k, 0) && n <= 4
    ensures var k' := LoadPlugins(k, n, now);
            Calm(k', n) && k' == k.(bus := k'.bus, peak := k'.peak)
  {
    hide NoSubscribers;
    if n > 0 {
      PluginsLoaded(k, n - 1, now);
      PublishCalm(LoadPlugins(k, n - 1, now), n - 1, B.TOPIC_PLUGIN_LOADED, n - 1, now);
    }
  }

  lemma BootIsSteady(names: seq<seq<byte>>, now: int)
    requires |names| == |Builtin| && forall i :: 0 <= i < |names| ==> 0 in names[i]
    ensures Steady(Booted(names, now))
  {
    hide AddBuiltins, LoadPlugins;
    BuiltinsAdded(names, |Builtin|);
    var k := Kernel(B.Empty(), AddBuiltins(EmptySched(), names, |Builtin|), 0, 0, false, 0, 0);
    PluginsLoaded(k, 4, now);
  }

  /** Over every run and every key sequence at most 4 events are pending at any moment, and no
      publish is ever refused. */
  lemma {:induction false} RunsStaySteady(k: Kernel, xs: seq<Input>)
    requires Steady(k)
    ensures Steady(Ticks(k, xs))
    decreases |xs|
  {
    hide Steady, Tick;
    SteadyWellFormed(k);
    if xs != [] {
      TickSteady(k, xs[0]);
      RunsStaySteady(Tick(k, xs[0]), xs[1..]);
    }
  }

  lemma SteadyWellFormed(k: Kernel)
    requires Steady(k)
    ensures WellFormed(k)
  {}

  lemma NoEventDropped(names: seq<seq<byte>>, now: int, xs: seq<Input>)
    requires |names| == |Builtin| && forall i :: 0 <= i < |names| ==> 0 in names[i]
    ensures var k := Ticks(Booted(names, now), xs);
            k.peak <= 4 && |k.bus.pending| <= 4 && k.refused == 0
  {
    hide Ticks, Booted;
    BootIsSteady(names, now);
    RunsStaySteady(Booted(names, now), xs);
  }

  // ----- the same tick on the scheduler and the bus themselves

  function Drains(n: nat): seq<B.Step> { seq(n, i => B.Drain) }

  function MirrorTalk(syncs: int, now: int): seq<B.Step> {
    if (syncs + 1) % U32 % 256 == 0 then [B.Use(B.Publish(3, (syncs + 1) % U32, now))] else []
  }

  function PluginTalk(coreTicks: int, now: int): seq<B.Step> {
    if (coreTicks + 1) % U32 % 1000 == 0 then [B.Use(B.Publish(0, (coreTicks + 1) % U32, now))] else []
  }

  function MenuTalk(syncs: int, x: Input): seq<B.Step> {
    if x.key == 52 then MirrorTalk(syncs, x.now)
    else if (x.key == 114 || x.key == 82) && x.verified then [B.Use(B.Publish(3, 0x8000_0001, x.now))]
    else []
  }

  /** What the built-in callbacks of one tick do to the bus: the drain task empties it, the mirror and
      plugin tasks publish when their counters say so, the menu acts on the key. `mirror` says whether
      the mirror task is due, which is then one sync ahead of the menu. */
  function BuiltinTalk(syncs: int, coreTicks: int, mirror: bool, x: Input): T.Talk {
    (n: nat, fn: nat) =>
      if fn == EVENT_DRAIN then Drains(B.QUEUE_DEPTH)
      else if fn == MIRROR_SYNC then MirrorTalk(syncs, x.now)
      else if fn == PLUGIN_TICK then PluginTalk(coreTicks, x.now)
      else if fn == MENU_TICK then MenuTalk(if mirror then (syncs + 1) % U32 else syncs, x)
      else []
  }

  lemma {:induction false} DrainsAreRounds(b: B.Bus, n: nat)
    requires B.WellFormed(b)
    ensures B.Run(b, Drains(n), NoReaction) == BD.Rounds(b, NoReaction, n)
    decreases n
  {
    hide B.Dispatch;
    if n > 0 {
      DrainsAreRounds(B.Dispatch(b, NoReaction), n - 1);
      assert Drains(n)[1..] == Drains(n - 1);
      BD.RoundsShift(b, NoReaction, n - 1);
    }
  }

  lemma SilentCall(b: B.Bus, e: B.Event, h: nat)
    requires B.WellFormed(b) && e.topic < B.MAX_TOPICS && h <= B.MAX_HANDLERS
    ensures B.CallFrom(b, e, h, NoReaction).pending == b.pending
    decreases B.MAX_HANDLERS - h
  {
    if h < B.MAX_HANDLERS { SilentCall(B.CallSlot(b, e, h, NoReaction), e, h + 1); }
  }

  lemma {:induction false} RoundsShorten(b: B.Bus, n: nat)
    requires B.WellFormed(b)
    ensures |BD.Rounds(b, NoReaction, n).pending| == if n < |b.pending| then |b.pending| - n else 0
  {
    hide B.CallFrom;
    if n > 0 {
      RoundsShorten(b, n - 1);
      var c := BD.Rounds(b, NoReaction, n - 1);
      if c.pending != [] { SilentCall(B.Pop(c), c.pending[0], 0); }
    }
  }

  /** A row of 64 rounds is the whole drain: nothing is left pending before the next slot. */
  lemma DrainIsTalk(b: B.Bus)
    requires B.WellFormed(b)
    ensures B.Run(b, Drains(B.QUEUE_DEPTH), NoReaction).pending == []
    ensures BD.Drains(b, NoReaction) && BD.Drained(b, NoReaction) == B.Run(b, Drains(B.QUEUE_DEPTH), NoReaction)
  {
    hide BD.Rounds, BD.Drained, B.Run;
    DrainsAreRounds(b, B.QUEUE_DEPTH);
    RoundsShorten(b, B.QUEUE_DEPTH);
    BD.DrainedIs(b, NoReaction, B.QUEUE_DEPTH);
  }

  lemma PublishIsRun(k: Kernel, topic: nat, data: int, now: int)
    requires WellFormed(k)
    ensures Publish(k, topic, data, now).bus == B.Run(k.bus, [B.Use(B.Publish(topic, data, now))], NoReaction)
    ensures B.Run(k.bus, [], NoReaction) == k.bus
  {
    BD.RunOne(k.bus, B.Use(B.Publish(topic, data, now)), NoReaction);
  }

  lemma MirrorIsTalk(k: Kernel, now: int)
    requires WellFormed(k)
    ensures MirrorSync(k, now) == k.(bus := MirrorSync(k, now).bus, syncs := (k.syncs + 1) % U32,
                                     peak := MirrorSync(k, now).peak, refused := MirrorSync(k, now).refused)
    ensures MirrorSync(k, now).bus == B.Run(k.bus, MirrorTalk(k.syncs, now), NoReaction)
  {
    hide B.Run, B.Do;
    PublishIsRun(k.(syncs := (k.syncs + 1) % U32), B.TOPIC_MIRROR_SYNC, (k.syncs + 1) % U32, now);
  }

  lemma PluginIsTalk(k: Kernel, now: int)
    requires WellFormed(k)
    ensures PluginTick(k, now) == k.(bus := PluginTick(k, now).bus, coreTicks := (k.coreTicks + 1) % U32,
                                     peak := PluginTick(k, now).peak, refused := PluginTick(k, now).refused)
    ensures PluginTick(k, now).bus == B.Run(k.bus, PluginTalk(k.coreTicks, now), NoReaction)
  {
    hide B.Run, B.Do;
    PublishIsRun(k.(coreTicks := (k.coreTicks + 1) % U32), B.TOPIC_KERNEL_TICK, (k.coreTicks + 1) % U32, now);
  }

  lemma MenuIsTalk(k: Kernel, x: Input)
    requires WellFormed(k)
    ensures MenuTick(k, x).bus == B.Run(k.bus, MenuTalk(k.syncs, x), NoReaction)
    ensures MenuTick(k, x).syncs == if x.key == 52 then (k.syncs + 1) % U32 else k.syncs
    ensures MenuTick(k, x).coreTicks == k.coreTicks
    ensures MenuTick(k, x).halted == (k.halted || x.key in {107, 75, 113, 81})
  {
    hide B.Run, B.Do, MirrorSync, MirrorTalk;
    MirrorIsTalk(k, x.now);
    PublishIsRun(k, B.TOPIC_MIRROR_SYNC, 0x8000_0001, x.now);
  }

  /** What one built-in callback does to the bus and to the counters. */
  lemma CallbackIsTalk(k: Kernel, fn: nat, x: Input, syncs: int, coreTicks: int, mirror: bool, n: nat)
    requires WellFormed(k)
    requires fn == MIRROR_SYNC ==> k.syncs == syncs
    requires fn == PLUGIN_TICK ==> k.coreTicks == coreTicks
    requires fn == MENU_TICK ==> k.syncs == if mirror then (syncs + 1) % U32 else syncs
    ensures Callback(k, fn, x).bus == B.Run(k.bus, BuiltinTalk(syncs, coreTicks, mirror, x)(n, fn), NoReaction)
    ensures Callback(k, fn, x).syncs == if fn == MIRROR_SYNC || (fn == MENU_TICK && x.key == 52) then (k.syncs + 1) % U32 else k.syncs
    ensures Callback(k, fn, x).coreTicks == if fn == PLUGIN_TICK then (k.coreTicks + 1) % U32 else k.coreTicks
    ensures Callback(k, fn, x).halted == (k.halted || (fn == MENU_TICK && x.key in {107, 75, 113, 81}))
  {
    hide B.Run, Drains, BD.Drained, MirrorSync, PluginTick, MenuTick, MirrorTalk, PluginTalk, MenuTalk;
    BD.RunNone(k.bus, NoReaction);
    if fn == EVENT_DRAIN {
      DrainIsTalk(k.bus);
    } else if fn == MIRROR_SYNC {
      MirrorIsTalk(k, x.now);
    } else if fn == PLUGIN_TICK {
      PluginIsTalk(k, x.now);
    } else if fn == MENU_TICK {
      MenuIsTalk(k, x);
    }
  }

  /** Where the counters stand when slot `i` has its turn in a tick that began with these values. */
  ghost predicate CountersAt(k: Kernel, i: nat, syncs: int, coreTicks: int, mirror: bool) {
    && (i <= 5 ==> k.syncs == if i > 2 && mirror then (syncs + 1) % U32 else syncs)
    && (i <= 3 ==> k.coreTicks == coreTicks)
  }

  /** The callbacks of a pass that is not cut short by a halt, as talk on the bus. */
  lemma {:induction false} CallbacksAreTalk(k: Kernel, s: S.Sched, i: nat, x: Input, syncs: int, coreTicks: int, mirror: bool, calls: nat)
    requires WellFormed(k) && BuiltinTable(s) && i <= S.MAX_TASKS && !Callbacks(k, S.Begin(s), i, x).halted
    requires mirror == S.Due(S.Begin(s).tasks[2], S.Begin(s).tick) && CountersAt(k, i, syncs, coreTicks, mirror)
    ensures Callbacks(k, S.Begin(s), i, x).bus
         == B.Run(k.bus, T.DueTalk(S.Begin(s), i, calls, BuiltinTalk(syncs, coreTicks, mirror, x)), NoReaction)
    decreases S.MAX_TASKS - i
  {
    hide B.Run, Callback, BuiltinTalk, S.Elapsed;
    var talk, g := BuiltinTalk(syncs, coreTicks, mirror, x), S.Begin(s);
    BD.RunNone(k.bus, NoReaction);
    if i < S.MAX_TASKS && !k.halted {
      var t := g.tasks[i];
      if S.Due(t, g.tick) {
        assert i < |Builtin| && t.fn == Builtin[i].0;
        CallbackIsTalk(k, t.fn, x, syncs, coreTicks, mirror, calls);
        var k1 := Callback(k, t.fn, x);
        CallbacksAreTalk(k1, s, i + 1, x, syncs, coreTicks, mirror, calls + 1);
        BD.RunConcat(k.bus, talk(calls, t.fn), T.DueTalk(g, i + 1, calls + 1, talk), NoReaction);
      } else {
        CallbacksAreTalk(k, s, i + 1, x, syncs, coreTicks, mirror, calls);
      }
    }
  }

  /** A tick of the booted kernel that does not halt is the tick of the scheduler with these callbacks. */
  lemma TickIsTalk(k: Kernel, x: Input, mirror: bool)
    requires WellFormed(k) && BuiltinTable(k.sched) && !Tick(k, x).halted
    requires mirror == S.Due(S.Begin(k.sched).tasks[2], S.Begin(k.sched).tick)
    ensures S.AllOps(Idle) && Tick(k, x).sched == S.Tick(k.sched, Idle)
    ensures Tick(k, x).bus
         == B.Do(T.TalkFrom(S.Begin(k.sched), k.bus, 0, Idle, BuiltinTalk(k.syncs, k.coreTicks, mirror, x), NoReaction),
                 B.Publish(B.TOPIC_SCHEDULER_SWITCH, S.Begin(k.sched).tick, x.now)).0
  {
    hide B.Do, Callbacks, BuiltinTalk, T.TalkFrom, S.Tick, BuiltinTable, B.Run;
    IdleIsQuiet();
    var g, talk := S.Begin(k.sched), BuiltinTalk(k.syncs, k.coreTicks, mirror, x);
    CallbacksAreTalk(k, k.sched, 0, x, k.syncs, k.coreTicks, mirror, g.calls);
    T.TalkIsRun(g, k.bus, 0, Idle, talk, NoReaction);
    T.QuietSaid(g, 0, Idle, talk);
  }

  /** One pass of the kernel loop on the scheduler and the bus: they go where the kernel's tick goes, and
      no more than 4 events are pending afterwards. */
  method Pass(scheduler: Scheduler.Scheduler, bus: EventBus.EventBus, ghost k: Kernel, syncs: int, coreTicks: int, x: Input)
    requires scheduler.Valid() && bus.Valid() && scheduler.State() == k.sched && bus.bus == k.bus
    requires Steady(k) && syncs == k.syncs && coreTicks == k.coreTicks && !Tick(k, x).halted
    modifies scheduler, scheduler.table, bus, bus.queue, bus.handlers
    ensures scheduler.Valid() && bus.Valid() && scheduler.State() == Tick(k, x).sched && bus.bus == Tick(k, x).bus
    ensures Steady(Tick(k, x)) && bus.qCount <= 4
  {
    hide Tick, S.Tick, BuiltinTalk, T.TalkFrom, B.Do, NoSubscribers;
    var task := scheduler.table[2];
    var mirror := task.state == S.READY && (task.period == 0 || ((scheduler.tick + 1) % U32 - task.lastRun) % U32 >= task.period);
    TickIsTalk(k, x, mirror);
    TickSteady(k, x);
    IdleIsQuiet();
    SL.TickIsLocal(k.sched, Idle, 0);
    scheduler.Tick(Idle, BuiltinTalk(syncs, coreTicks, mirror, x), bus, NoReaction, x.now);
  }
}

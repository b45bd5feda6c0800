/** Exactly which events the booted kernel publishes, tick by tick, for every sequence of keys. */
module BootTrace {
  import opened Bytes
  import B = BusSpec
  import BD = BusDrain
  import BT = BusTrace
  import S = SchedSpec
  import SL = SchedLaws
  import T = TickTalk
  import opened Boot

  // ----- what one callback adds

  function MirrorEvents(count: int, now: int): (es: seq<B.Event>)
    ensures |es| <= 1
  {
    if count % 256 == 0 then [B.Event(topic := 3, data := count, timestamp := now)] else []
  }

  function CoreEvents(count: int, now: int): (es: seq<B.Event>)
    ensures |es| <= 1
  {
    if count % 1000 == 0 then [B.Event(topic := 0, data := count, timestamp := now)] else []
  }

  function MenuEvents(count: int, x: Input): (es: seq<B.Event>)
    ensures |es| <= 1
  {
    if x.key == 52 then MirrorEvents(count, x.now)
    else if (x.key == 114 || x.key == 82) && x.verified then [B.Event(topic := 3, data := 0x8000_0001, timestamp := x.now)]
    else []
  }

  /** `k'` has the events of `es` behind those of `k`, and has dispatched nothing. */
  ghost predicate Adds(k: Kernel, k': Kernel, es: seq<B.Event>) {
    k'.bus.pending == k.bus.pending + es && k'.bus.dispatched == k.bus.dispatched
  }

  lemma PublishAdds(k: Kernel, topic: nat, data: int, now: int)
    requires WellFormed(k) && topic < 32 && |k.bus.pending| < 64
    ensures Adds(k, Publish(k, topic, data, now), [B.Event(topic := topic, data := data, timestamp := now)])
  {
    BT.PublishLaw(k.bus, topic, data, now);
    var p, p' := k.bus.pending, Publish(k, topic, data, now).bus.pending;
    assert p' == p'[..|p|] + [p'[|p|]];
  }

  lemma MirrorAdds(k: Kernel, now: int)
    requires WellFormed(k) && |k.bus.pending| < 64
    ensures Adds(k, MirrorSync(k, now), MirrorEvents((k.syncs + 1) % U32, now))
  {
    hide Publish;
    PublishAdds(k.(syncs := (k.syncs + 1) % U32), B.TOPIC_MIRROR_SYNC, (k.syncs + 1) % U32, now);
  }

  lemma PluginAdds(k: Kernel, now: int)
    requires WellFormed(k) && |k.bus.pending| < 64
    ensures Adds(k, PluginTick(k, now), CoreEvents((k.coreTicks + 1) % U32, now))
  {
    hide Publish;
    PublishAdds(k.(coreTicks := (k.coreTicks + 1) % U32), B.TOPIC_KERNEL_TICK, (k.coreTicks + 1) % U32, now);
  }

  lemma MenuAdds(k: Kernel, x: Input)
    requires WellFormed(k) && |k.bus.pending| < 64
    ensures Adds(k, MenuTick(k, x), MenuEvents((k.syncs + 1) % U32, x))
  {
    hide Publish, MirrorSync, MirrorEvents;
    MirrorAdds(k, x.now);
    PublishAdds(k, B.TOPIC_MIRROR_SYNC, 0x8000_0001, x.now);
  }

  lemma {:induction false} SilentAccepts(b: B.Bus, e: B.Event, h: nat)
    requires B.WellFormed(b) && e.topic < B.MAX_TOPICS && h <= B.MAX_HANDLERS
    ensures B.CallFrom(b, e, h, NoReaction).accepted == b.accepted
    decreases B.MAX_HANDLERS - h
  {
    if h < B.MAX_HANDLERS { SilentAccepts(B.CallSlot(b, e, h, NoReaction), e, h + 1); }
  }

  lemma {:induction false} RoundsAccept(b: B.Bus, n: nat)
    requires B.WellFormed(b)
    ensures BD.Rounds(b, NoReaction, n).accepted == b.accepted
  {
    hide B.CallFrom;
    if n > 0 {
      RoundsAccept(b, n - 1);
      var c := BD.Rounds(b, NoReaction, n - 1);
      if c.pending != [] { SilentAccepts(B.Pop(c), c.pending[0], 0); }
    }
  }

  /** The drain task dispatches everything accepted so far. */
  lemma DrainDispatches(k: Kernel)
    requires WellFormed(k) && B.Fifo(k.bus)
    ensures Drain(k).bus.pending == [] && Drain(k).bus.dispatched == k.bus.accepted
    ensures Drain(k) == k.(bus := Drain(k).bus)
  {
    hide BD.Rounds, BD.Drained;
    SilentDrains(k.bus);
    BD.DrainDispatchesAll(k.bus, NoReaction);
    var n: nat :| BD.Rounds(k.bus, NoReaction, n).pending == [];
    BD.DrainedIs(k.bus, NoReaction, n);
    RoundsAccept(k.bus, n);
  }

  // ----- one tick

  ghost predicate DueIn(s: S.Sched, i: nat)
    requires S.WellFormed(s) && i < S.MAX_TASKS
  {
    S.Due(S.Begin(s).tasks[i], S.Begin(s).tick)
  }

  /** The kernel after slot `i`. */
  ghost function After(k: Kernel, s: S.Sched, i: nat, x: Input): (k': Kernel)
    requires WellFormed(k) && S.WellFormed(s) && i < S.MAX_TASKS
    ensures WellFormed(k')
  {
    if DueIn(s, i) then Callback(k, S.Begin(s).tasks[i].fn, x) else k
  }

  lemma CallbacksStep(k: Kernel, s: S.Sched, i: nat, x: Input)
    requires WellFormed(k) && S.WellFormed(s) && i < S.MAX_TASKS && !Callbacks(k, S.Begin(s), i, x).halted
    ensures !k.halted && Callbacks(k, S.Begin(s), i, x) == Callbacks(After(k, s, i, x), S.Begin(s), i + 1, x)
  {
    hide Callback, S.Due;
  }

  lemma {:induction false} CallbacksIdle(k: Kernel, s: S.Sched, i: nat, x: Input)
    requires WellFormed(k) && BuiltinTable(s) && 7 <= i <= S.MAX_TASKS
    ensures Callbacks(k, S.Begin(s), i, x) == k
    decreases S.MAX_TASKS - i
  {
    if i < S.MAX_TASKS { CallbacksIdle(k, s, i + 1, x); }
  }

  /** The events of a tick, from the tasks that are due and the counters when it begins. */
  function EventsWhen(mirror: bool, core: bool, menu: bool, syncs: int, coreTicks: int, x: Input): seq<B.Event> {
    (if mirror then MirrorEvents((syncs + 1) % U32, x.now) else [])
    + (if core then CoreEvents((coreTicks + 1) % U32, x.now) else [])
    + (if menu then MenuEvents((syncs + if mirror then 2 else 1) % U32, x) else [])
  }

  ghost function TickEvents(s: S.Sched, syncs: int, coreTicks: int, x: Input): seq<B.Event>
    requires S.WellFormed(s)
  {
    EventsWhen(DueIn(s, 2), DueIn(s, 3), DueIn(s, 5), syncs, coreTicks, x)
  }

  /** What slot `i` does, task by task. */
  lemma AfterIs(k: Kernel, s: S.Sched, i: nat, x: Input)
    requires WellFormed(k) && BuiltinTable(s) && i < 7
    ensures After(k, s, i, x)
         == if !DueIn(s, i) then k
            else if i == 1 then Drain(k)
            else if i == 2 then MirrorSync(k, x.now)
            else if i == 3 then PluginTick(k, x.now)
            else if i == 5 then MenuTick(k, x)
            else k
  {
    hide Drain, MirrorSync, PluginTick, MenuTick, S.Due;
    assert S.Begin(s).tasks[i].fn == Builtin[i].0;
  }

  /** The seven callbacks in a row. */
  lemma SevenCallbacks(k: Kernel, s: S.Sched, x: Input)
    requires WellFormed(k) && BuiltinTable(s) && !Callbacks(k, S.Begin(s), 0, x).halted
    ensures DueIn(s, 1)
    ensures var k3 := After(Drain(k), s, 2, x);
            Callbacks(k, S.Begin(s), 0, x) == After(After(k3, s, 3, x), s, 5, x)
  {
    hide Callbacks, After, Drain, MirrorSync, PluginTick, MenuTick, S.Due, S.Begin;
    DrainIsDue(s);
    CallbacksStep(k, s, 0, x);
    AfterIs(k, s, 0, x);
    CallbacksStep(k, s, 1, x);
    AfterIs(k, s, 1, x);
    var k2 := Drain(k);
    var k3 := After(k2, s, 2, x);
    CallbacksStep(k2, s, 2, x);
    CallbacksStep(k3, s, 3, x);
    var k4 := After(k3, s, 3, x);
    CallbacksStep(k4, s, 4, x);
    AfterIs(k4, s, 4, x);
    CallbacksStep(k4, s, 5, x);
    var k6 := After(k4, s, 5, x);
    CallbacksStep(k6, s, 6, x);
    AfterIs(k6, s, 6, x);
    CallbacksIdle(k6, s, 7, x);
  }

  ghost predicate Ranges(k: Kernel) { 0 <= k.syncs < U32 && 0 <= k.coreTicks < U32 }

  lemma MirrorSlot(k: Kernel, s: S.Sched, x: Input)
    requires WellFormed(k) && Ranges(k) && BuiltinTable(s) && |k.bus.pending| < 64
    ensures var k' := After(k, s, 2, x);
            && Adds(k, k', if DueIn(s, 2) then MirrorEvents((k.syncs + 1) % U32, x.now) else [])
            && k'.syncs == (if DueIn(s, 2) then (k.syncs + 1) % U32 else k.syncs) && k'.coreTicks == k.coreTicks
  {
    hide After, DueIn, MirrorEvents, BuiltinTable, MirrorSync;
    AfterIs(k, s, 2, x);
    MirrorAdds(k, x.now);
    MirrorIsTalk(k, x.now);
  }

  lemma PluginSlot(k: Kernel, s: S.Sched, x: Input)
    requires WellFormed(k) && Ranges(k) && BuiltinTable(s) && |k.bus.pending| < 64
    ensures var k' := After(k, s, 3, x);
            && Adds(k, k', if DueIn(s, 3) then CoreEvents((k.coreTicks + 1) % U32, x.now) else [])
            && k'.coreTicks == (if DueIn(s, 3) then (k.coreTicks + 1) % U32 else k.coreTicks) && k'.syncs == k.syncs
  {
    hide After, DueIn, CoreEvents, BuiltinTable, PluginTick;
    AfterIs(k, s, 3, x);
    PluginAdds(k, x.now);
    PluginIsTalk(k, x.now);
  }

  lemma MenuSlot(k: Kernel, s: S.Sched, x: Input)
    requires WellFormed(k) && Ranges(k) && BuiltinTable(s) && |k.bus.pending| < 64
    ensures var k' := After(k, s, 5, x);
            && Adds(k, k', if DueIn(s, 5) then MenuEvents((k.syncs + 1) % U32, x) else [])
            && k'.syncs == (if DueIn(s, 5) && x.key == 52 then (k.syncs + 1) % U32 else k.syncs) && k'.coreTicks == k.coreTicks
  {
    hide After, DueIn, MenuEvents, BuiltinTable, MenuTick;
    AfterIs(k, s, 5, x);
    MenuAdds(k, x);
    MenuIsTalk(k, x);
  }

  lemma CallbacksAdd(k: Kernel, s: S.Sched, x: Input)
    requires WellFormed(k) && Ranges(k) && BuiltinTable(s) && B.Fifo(k.bus) && !Callbacks(k, S.Begin(s), 0, x).halted
    ensures var k' := Callbacks(k, S.Begin(s), 0, x);
            && k'.bus.pending == TickEvents(s, k.syncs, k.coreTicks, x) && k'.bus.dispatched == k.bus.accepted
            && k'.syncs == (k.syncs + (if DueIn(s, 2) then 1 else 0) + (if DueIn(s, 5) && x.key == 52 then 1 else 0)) % U32
            && k'.coreTicks == (k.coreTicks + if DueIn(s, 3) then 1 else 0) % U32
  {
    hide Callbacks, After, Drain, DueIn, MirrorEvents, CoreEvents, MenuEvents, S.Begin, B.WellFormed, B.Fifo;
    SevenCallbacks(k, s, x);
    DrainDispatches(k);
    assert S.WellFormed(s);
    hide BuiltinTable, S.WellFormed;
    var k2 := Drain(k);
    MirrorSlot(k2, s, x);
    var k3 := After(k2, s, 2, x);
    PluginSlot(k3, s, x);
    var k4 := After(k3, s, 3, x);
    MenuSlot(k4, s, x);
    ModSteps(k.syncs);
    Counted(k.syncs, DueIn(s, 2), DueIn(s, 5) && x.key == 52);
    Counted(k.coreTicks, DueIn(s, 3), false);
  }

  /** A counter that may be stepped twice. */
  lemma Counted(n: int, a: bool, b: bool)
    requires 0 <= n < U32
    ensures var n1 := if a then (n + 1) % U32 else n;
            (if b then (n1 + 1) % U32 else n1) == (n + (if a then 1 else 0) + (if b then 1 else 0)) % U32
  {
    ModSteps(n);
  }

  lemma ModSteps(n: int)
    ensures ((n + 1) % U32 + 1) % U32 == (n + 2) % U32
  {}

  /** One tick dispatches everything accepted before it and leaves exactly its own events pending. */
  lemma TickExact(k: Kernel, x: Input)
    requires Steady(k) && Ranges(k) && B.Fifo(k.bus) && !Tick(k, x).halted
    ensures var k' := Tick(k, x);
            && k'.bus.dispatched == k.bus.accepted && B.Fifo(k'.bus) && Ranges(k')
            && k'.bus.pending == TickEvents(k.sched, k.syncs, k.coreTicks, x)
                                 + [B.Event(topic := 4, data := (k.sched.tick + 1) % U32, timestamp := x.now)]
            && k'.syncs == (k.syncs + (if DueIn(k.sched, 2) then 1 else 0)
                            + (if DueIn(k.sched, 5) && x.key == 52 then 1 else 0)) % U32
            && k'.coreTicks == (k.coreTicks + if DueIn(k.sched, 3) then 1 else 0) % U32
  {
    hide Callbacks, DueIn, MirrorEvents, CoreEvents, MenuEvents, QuietTick, Publish, BuiltinTable, NoSubscribers;
    CallbacksAdd(k, k.sched, x);
    var k1 := Callbacks(k, S.Begin(k.sched), 0, x).(sched := QuietTick(k.sched));
    PublishAdds(k1, B.TOPIC_SCHEDULER_SWITCH, S.Begin(k.sched).tick, x.now);
    PublishFrame(k1, B.TOPIC_SCHEDULER_SWITCH, S.Begin(k.sched).tick, x.now);
    TickFifo(k, x);
  }

  lemma PublishFrame(k: Kernel, topic: nat, data: int, now: int)
    requires WellFormed(k)
    ensures Publish(k, topic, data, now).syncs == k.syncs && Publish(k, topic, data, now).coreTicks == k.coreTicks
    ensures Publish(k, topic, data, now).halted == k.halted
  {}

  lemma TickFifo(k: Kernel, x: Input)
    requires Steady(k) && B.Fifo(k.bus) && !Tick(k, x).halted
    ensures B.Fifo(Tick(k, x).bus)
  {
    hide Tick, NoSubscribers, BuiltinTalk, T.TalkFrom, T.Said, B.Run, S.Due, B.Do, S.Begin, B.Fifo, S.Tick;
    var g := S.Begin(k.sched);
    var mirror := S.Due(g.tasks[2], g.tick);
    TickIsTalk(k, x, mirror);
    var talk := BuiltinTalk(k.syncs, k.coreTicks, mirror, x);
    T.TalkIsRun(g, k.bus, 0, Idle, talk, NoReaction);
    FifoThroughout(k.bus, T.Said(g, 0, Idle, talk), B.Publish(B.TOPIC_SCHEDULER_SWITCH, g.tick, x.now));
  }

  lemma FifoThroughout(b: B.Bus, steps: seq<B.Step>, op: B.Op)
    requires B.WellFormed(b) && B.Fifo(b)
    ensures B.Fifo(B.Do(B.Run(b, steps, NoReaction), op).0)
  {
    hide B.Run, B.Do;
    B.RunIsFifo(b, steps, NoReaction);
    B.DoExtends(B.Run(b, steps, NoReaction), op);
  }

  // ----- every tick of every run

  lemma {:induction false} TicksSnoc(k: Kernel, xs: seq<Input>)
    requires WellFormed(k) && xs != []
    ensures Ticks(k, xs) == Tick(Ticks(k, xs[..|xs| - 1]), xs[|xs| - 1])
    decreases |xs|
  {
    hide Tick;
    var n := |xs| - 1;
    if n == 0 {
      assert xs[1..] == [] && xs[..0] == [];
    } else {
      TicksSnoc(Tick(k, xs[0]), xs[1..]);
      assert xs[1..][..n - 1] == xs[..n][1..] && xs[1..][n - 1] == xs[n];
    }
  }

  /** A task registered at tick 0 with period p is due at tick n exactly when p divides n. */
  lemma DueExact(s: S.Sched, i: nat, n: nat)
    requires S.WellFormed(s) && i < S.MAX_TASKS && s.tick == 0 && s.tasks[i].period > 0
    requires s.tasks[i].state == S.READY && s.tasks[i].runs == 0 && s.tasks[i].lastRun == 0
    ensures S.AllOps(Idle) && DueIn(S.Ticks(s, n, Idle), i) <==> (n + 1) % s.tasks[i].period == 0
    ensures S.Ticks(s, n, Idle).tick == n % U32
  {
    hide S.Ticks, SL.RunsAfter, SL.LatestRun, S.Elapsed;
    var p := s.tasks[i].period;
    IdleIsQuiet();
    SL.Cadence(s, Idle, i, n);
    SL.NextRunExact(0, p, n);
    SL.FloorFormula(p, n);
    SL.FloorFormula(p, n + 1);
    SL.TickShift(0, n);
    Divides(n, p);
  }

  lemma Divides(n: nat, p: int)
    requires p > 0
    ensures (n + 1) % p == 0 <==> (n + 1) / p == n / p + 1
    ensures (n + 1) / p == n / p || (n + 1) / p == n / p + 1
  {
    SL.DivStep(n, p);
    SL.DivStep(n + 1, p);
    var q := n / p;
    assert (q + 1) * p == q * p + p;
  }

  /** How often '4' was pressed at a tick at which the menu looks, every second one. */
  function Presses(xs: seq<Input>): nat {
    if xs == [] then 0
    else Presses(xs[..|xs| - 1]) + if |xs| % 2 == 0 && xs[|xs| - 1].key == 52 then 1 else 0
  }

  /** What is known after the ticks `xs`. */
  ghost predicate Known(k: Kernel, s: S.Sched, xs: seq<Input>) {
    && Steady(k) && B.Fifo(k.bus) && Added(s, |Builtin|) && S.AllOps(Idle) && k.sched == S.Ticks(s, |xs|, Idle)
    && k.coreTicks == |xs| / 5 % U32 && k.syncs == (1 + |xs| / 10 + Presses(xs)) % U32
  }

  lemma KnownDue(k: Kernel, s: S.Sched, xs: seq<Input>)
    requires Known(k, s, xs)
    ensures DueIn(k.sched, 2) <==> (|xs| + 1) % 10 == 0
    ensures DueIn(k.sched, 3) <==> (|xs| + 1) % 5 == 0
    ensures DueIn(k.sched, 5) <==> (|xs| + 1) % 2 == 0
    ensures k.sched.tick == |xs| % U32 && Ranges(k)
  {
    hide S.Ticks, DueIn, NoSubscribers, B.Fifo, BuiltinTable, Presses, S.AllOps;
    DueExact(s, 2, |xs|);
    DueExact(s, 3, |xs|);
    DueExact(s, 5, |xs|);
  }

  /** The events of tick n, when '4' was pressed `presses` times before it. */
  function EventsOfTick(n: nat, presses: nat, x: Input): seq<B.Event> {
    (if n % 10 == 0 then MirrorEvents((1 + n / 10 + presses) % U32, x.now) else [])
    + (if n % 5 == 0 then CoreEvents(n / 5 % U32, x.now) else [])
    + (if n % 2 == 0 then MenuEvents((2 + n / 10 + presses) % U32, x) else [])
    + [B.Event(topic := 4, data := n % U32, timestamp := x.now)]
  }

  lemma StepCounts(n: nat)
    ensures (n + 1) / 10 == n / 10 + (if (n + 1) % 10 == 0 then 1 else 0)
    ensures (n + 1) / 5 == n / 5 + (if (n + 1) % 5 == 0 then 1 else 0)
  {}

  lemma ModAdd(a: int, b: int)
    ensures (a % U32 + b) % U32 == (a + b) % U32
  {}

  /** The counters after tick n + 1. */
  lemma CountersStep(n: nat, presses: nat, press: nat)
    ensures (n / 5 % U32 + (if (n + 1) % 5 == 0 then 1 else 0)) % U32 == (n + 1) / 5 % U32
    ensures ((1 + n / 10 + presses) % U32 + (if (n + 1) % 10 == 0 then 1 else 0) + press) % U32
         == (1 + (n + 1) / 10 + (presses + press)) % U32
  {
    StepCounts(n);
    ModAdd(n / 5, if (n + 1) % 5 == 0 then 1 else 0);
    ModAdd(1 + n / 10 + presses, (if (n + 1) % 10 == 0 then 1 else 0) + press);
  }

  lemma PressesSnoc(xs: seq<Input>, x: Input)
    ensures Presses(xs + [x]) == Presses(xs) + if (|xs| + 1) % 2 == 0 && x.key == 52 then 1 else 0
  {
    assert (xs + [x])[..|xs|] == xs;
  }

  /** One more tick of a run keeps all of this known. */
  lemma KnownTick(k: Kernel, s: S.Sched, xs: seq<Input>, x: Input)
    requires Known(k, s, xs) && !Tick(k, x).halted
    ensures Known(Tick(k, x), s, xs + [x])
  {
    hide Tick, NoSubscribers, B.Fifo, TickEvents, BuiltinTable, DueIn, S.Tick, Added, Presses, Calm;
    KnownDue(k, s, xs);
    TickExact(k, x);
    TickSteady(k, x);
    TickMoves(k, x);
    PressesSnoc(xs, x);
    CountersStep(|xs|, Presses(xs), if (|xs| + 1) % 2 == 0 && x.key == 52 then 1 else 0);
  }

  lemma EventCounts(n: nat, presses: nat)
    ensures ((n / 5) % U32 + 1) % U32 == (n / 5 + 1) % U32
    ensures ((1 + n / 10 + presses) % U32 + 1) % U32 == (2 + n / 10 + presses) % U32
    ensures ((1 + n / 10 + presses) % U32 + 2) % U32 == (3 + n / 10 + presses) % U32
    ensures (n % U32 + 1) % U32 == (n + 1) % U32
  {
    ModAdd(n / 5, 1);
    ModAdd(1 + n / 10 + presses, 1);
    ModAdd(1 + n / 10 + presses, 2);
    ModAdd(n, 1);
  }

  lemma EventsWhenIs(n: nat, presses: nat, x: Input)
    ensures EventsWhen((n + 1) % 10 == 0, (n + 1) % 5 == 0, (n + 1) % 2 == 0, (1 + n / 10 + presses) % U32, n / 5 % U32, x)
            + [B.Event(topic := 4, data := (n % U32 + 1) % U32, timestamp := x.now)]
         == EventsOfTick(n + 1, presses, x)
  {
    hide MirrorEvents, CoreEvents, MenuEvents;
    StepCounts(n);
    EventCounts(n, presses);
  }

  /** It dispatches everything accepted before and leaves these events pending. */
  lemma KnownEvents(k: Kernel, s: S.Sched, xs: seq<Input>, x: Input)
    requires Known(k, s, xs) && !Tick(k, x).halted
    ensures Tick(k, x).bus.dispatched == k.bus.accepted
    ensures Tick(k, x).bus.pending == EventsOfTick(|xs| + 1, Presses(xs), x)
  {
    hide Tick, NoSubscribers, B.Fifo, EventsWhen, EventsOfTick, BuiltinTable, DueIn, Added, Presses, Calm, S.Ticks;
    KnownDue(k, s, xs);
    TickExact(k, x);
    EventsWhenIs(|xs|, Presses(xs), x);
  }

  lemma TickMoves(k: Kernel, x: Input)
    requires Steady(k) && !Tick(k, x).halted
    ensures S.AllOps(Idle) && Tick(k, x).sched == S.Tick(k.sched, Idle)
  {
    hide S.Tick, Callbacks, Publish, NoSubscribers;
    IdleIsQuiet();
    var k1 := Callbacks(k, S.Begin(k.sched), 0, x).(sched := QuietTick(k.sched));
    PublishKeepsTable(k1, B.TOPIC_SCHEDULER_SWITCH, S.Begin(k.sched).tick, x.now);
  }

  lemma BootKnown(names: seq<seq<byte>>, now: int)
    requires |names| == |Builtin| && forall i :: 0 <= i < |names| ==> 0 in names[i]
    ensures Known(Booted(names, now), AddBuiltins(EmptySched(), names, |Builtin|), [])
  {
    hide AddBuiltins, LoadPlugins, Publish;
    IdleIsQuiet();
    BootIsSteady(names, now);
    BuiltinsAdded(names, |Builtin|);
    var k := Kernel(B.Empty(), AddBuiltins(EmptySched(), names, |Builtin|), 0, 0, false, 0, 0);
    PluginsLoaded(k, 4, now);
    LoadFifo(k, 4, now);
  }

  lemma {:induction false} LoadFifo(k: Kernel, n: nat, now: int)
    requires WellFormed(k) && B.Fifo(k.bus)
    ensures B.Fifo(LoadPlugins(k, n, now).bus)
  {
    if n > 0 {
      LoadFifo(k, n - 1, now);
      B.DoExtends(LoadPlugins(k, n - 1, now).bus, B.Publish(B.TOPIC_PLUGIN_LOADED, n - 1, now));
    }
  }

  /** At boot the registrations of the four built-in plugins are pending, in slot order. */
  lemma BootPublishes(names: seq<seq<byte>>, now: int)
    requires |names| == |Builtin| && forall i :: 0 <= i < |names| ==> 0 in names[i]
    ensures var b := Booted(names, now).bus;
            b.dispatched == [] && b.pending == seq(4, i => B.Event(topic := 1, data := i, timestamp := now))
  {
    hide AddBuiltins, LoadPlugins, Publish, EmptySched;
    var k := Kernel(B.Empty(), AddBuiltins(EmptySched(), names, |Builtin|), 0, 0, false, 0, 0);
    LoadPending(k, 4, now);
  }

  lemma {:induction false} LoadPending(k: Kernel, n: nat, now: int)
    requires WellFormed(k) && k.bus.pending == [] && k.bus.dispatched == [] && n <= 4
    ensures var b := LoadPlugins(k, n, now).bus;
            b.dispatched == [] && b.pending == seq(n, i => B.Event(topic := 1, data := i, timestamp := now))
    ensures LoadPlugins(k, n, now).syncs == k.syncs
  {
    hide Publish;
    if n > 0 {
      LoadPending(k, n - 1, now);
      PublishAdds(LoadPlugins(k, n - 1, now), B.TOPIC_PLUGIN_LOADED, n - 1, now);
      PublishFrame(LoadPlugins(k, n - 1, now), B.TOPIC_PLUGIN_LOADED, n - 1, now);
    }
  }

  lemma {:induction false} RunKnown(names: seq<seq<byte>>, now: int, xs: seq<Input>)
    requires |names| == |Builtin| && forall i :: 0 <= i < |names| ==> 0 in names[i]
    requires !Ticks(Booted(names, now), xs).halted
    ensures Known(Ticks(Booted(names, now), xs), AddBuiltins(EmptySched(), names, |Builtin|), xs)
    decreases |xs|
  {
    hide Ticks, Booted, Known, Tick, AddBuiltins;
    if xs == [] {
      BootKnown(names, now);
      TicksNone(Booted(names, now));
    } else {
      var n := |xs| - 1;
      TicksSnoc(Booted(names, now), xs);
      var k := Ticks(Booted(names, now), xs[..n]);
      HaltStays(k, xs[n]);
      RunKnown(names, now, xs[..n]);
      KnownTick(k, AddBuiltins(EmptySched(), names, |Builtin|), xs[..n], xs[n]);
      assert xs[..n] + [xs[n]] == xs;
    }
  }

  lemma TicksNone(k: Kernel)
    requires WellFormed(k)
    ensures Ticks(k, []) == k
  {}

  lemma HaltStays(k: Kernel, x: Input)
    requires WellFormed(k)
    ensures k.halted ==> Tick(k, x).halted
  {}

  /** Tick n of every run that has not halted: everything accepted before it is dispatched, and what it
      publishes is a sync event with every 256th sync, a core event with every 1000th call of aura_core,
      what the key asks for, and the tick itself, in this order and with these data. */
  lemma TickPublishes(names: seq<seq<byte>>, now: int, xs: seq<Input>, x: Input)
    requires |names| == |Builtin| && forall i :: 0 <= i < |names| ==> 0 in names[i]
    requires !Ticks(Booted(names, now), xs + [x]).halted
    ensures var k, k' := Ticks(Booted(names, now), xs), Ticks(Booted(names, now), xs + [x]);
            k'.bus.dispatched == k.bus.accepted && k'.bus.pending == EventsOfTick(|xs| + 1, Presses(xs), x)
  {
    hide Ticks, Booted, Known, Tick, AddBuiltins, EventsOfTick, Presses, WellFormed, EmptySched;
    var k0 := Booted(names, now);
    TicksSnoc(k0, xs + [x]);
    assert (xs + [x])[..|xs|] == xs;
    var k := Ticks(k0, xs);
    HaltStays(k, x);
    RunKnown(names, now, xs);
    KnownEvents(k, AddBuiltins(EmptySched(), names, |Builtin|), xs, x);
  }
}

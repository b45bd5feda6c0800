/** What every run of the plugin manager keeps, and what the lifecycle of a registration looks like. */
module PluginLaws {
  import opened Bytes
  import opened Common
  import opened KString
  import opened PluginSpec

  // ----- the lifecycle automaton

  /** Where a registration stands; Illegal is what no history may reach. */
  datatype Phase = Illegal | Idle | Live | Failed

  function After(p: Phase, e: LifeEvent): Phase {
    match (p, e)
    case (Idle, Init(true)) => Live
    case (Idle, Init(false)) => Failed
    case (Live, Tick(_)) => Live
    case (Live, Shutdown) => Idle
    case _ => Illegal
  }

  function PhaseOf(life: seq<LifeEvent>): Phase {
    if life == [] then Idle else After(PhaseOf(life[..|life| - 1]), life[|life| - 1])
  }

  lemma PhaseOfSnoc(life: seq<LifeEvent>, e: LifeEvent)
    ensures PhaseOf(life + [e]) == After(PhaseOf(life), e)
  {
    assert (life + [e])[..|life|] == life;
  }

  /** A prefix of a legal history is legal. */
  lemma {:induction false} PrefixLegal(life: seq<LifeEvent>, i: nat)
    requires PhaseOf(life) != Illegal && i <= |life|
    ensures PhaseOf(life[..i]) != Illegal
    decreases |life| - i
  {
    if i < |life| {
      PrefixLegal(life, i + 1);
      assert life[..i + 1][..i] == life[..i];
    } else {
      assert life[..i] == life;
    }
  }

  /** While no init succeeds after position `i`, the registration is not live unless it was at `i`,
      and while no shutdown happens it stays live. */
  lemma {:induction false} PhaseBetween(life: seq<LifeEvent>, i: nat, j: nat)
    requires PhaseOf(life) != Illegal && i <= j <= |life|
    ensures PhaseOf(life[..i]) == Live && (forall k :: i <= k < j ==> life[k] != Shutdown) ==> PhaseOf(life[..j]) == Live
    ensures PhaseOf(life[..i]) != Live && (forall k :: i <= k < j ==> life[k] != Init(true)) ==> PhaseOf(life[..j]) != Live
    decreases j - i
  {
    if i < j {
      PhaseBetween(life, i, j - 1);
      PrefixLegal(life, j);
      assert life[..j][..j - 1] == life[..j - 1];
    }
  }

  /** The phase just before event `i`. */
  lemma EventNeeds(life: seq<LifeEvent>, i: nat)
    requires PhaseOf(life) != Illegal && i < |life|
    ensures life[i].Init? ==> PhaseOf(life[..i]) == Idle
    ensures !life[i].Init? ==> PhaseOf(life[..i]) == Live
    ensures PhaseOf(life[..i + 1]) == After(PhaseOf(life[..i]), life[i]) != Illegal
  {
    PrefixLegal(life, i + 1);
    assert life[..i + 1][..i] == life[..i];
  }

  lemma LegalAlternates(life: seq<LifeEvent>, i: nat, j: nat)
    requires PhaseOf(life) != Illegal && i < j < |life|
    ensures life[i] == Init(true) && life[j].Init? ==> exists k :: i < k < j && life[k] == Shutdown
    ensures life[i] == Shutdown && life[j] == Shutdown ==> exists k :: i < k < j && life[k] == Init(true)
  {
    EventNeeds(life, i);
    EventNeeds(life, j);
    PhaseBetween(life, i + 1, j);
  }

  /** A live registration has a latest successful init, and no shutdown since. */
  lemma {:induction false} LatestInit(life: seq<LifeEvent>, j: nat) returns (i: nat)
    requires PhaseOf(life) != Illegal && j <= |life| && PhaseOf(life[..j]) == Live
    ensures i < j && life[i] == Init(true) && forall k :: i < k < j ==> life[k] != Shutdown
    decreases j
  {
    EventNeeds(life, j - 1);
    if life[j - 1] == Init(true) {
      i := j - 1;
    } else {
      i := LatestInit(life, j - 1);
    }
  }

  lemma LegalOnlyWhileLive(life: seq<LifeEvent>, j: nat) returns (i: nat)
    requires PhaseOf(life) != Illegal && j < |life| && !life[j].Init?
    ensures i < j && life[i] == Init(true) && forall k :: i < k < j ==> life[k] != Shutdown
  {
    EventNeeds(life, j);
    i := LatestInit(life, j);
  }

  lemma LegalFailureIsLast(life: seq<LifeEvent>, i: nat)
    requires PhaseOf(life) != Illegal && i < |life| && life[i] == Init(false)
    ensures i == |life| - 1
  {
    EventNeeds(life, i);
    if i + 1 < |life| { EventNeeds(life, i + 1); }
  }

  // ----- the invariant

  /** The events whose callback is not NULL. */
  function Visible(desc: Desc, life: seq<LifeEvent>): seq<LifeEvent> {
    if life == [] then [] else
    var e := life[|life| - 1];
    var callback := match e case Init(_) => desc.init case Tick(_) => desc.tick case Shutdown => desc.shutdown;
    Visible(desc, life[..|life| - 1]) + if callback == 0 then [] else [e]
  }

  predicate Matches(p: Phase, s: PluginState) {
    match s
    case LOADED => p == Idle
    case ACTIVE => p == Live
    case ERROR => p == Failed
    case UNLOADED => false
  }

  /** The history agrees with the state of the slot, and the callbacks called are those of the history. */
  ghost predicate SlotOk(s: Slot) {
    s.state != UNLOADED ==> Matches(PhaseOf(s.history.life), s.state) && s.history.calls == Visible(s.desc, s.history.life)
  }

  /** A registration that has ended was legal, was not left live, and called what it should. */
  ghost predicate Closed(r: Registration) {
    PhaseOf(r.history.life) in {Idle, Failed} && r.history.calls == Visible(r.desc, r.history.life)
  }

  function Occupied(slots: seq<Slot>): int {
    if slots == [] then 0 else (if slots[0].state == UNLOADED then 0 else 1) + Occupied(slots[1..])
  }

  ghost predicate DistinctNames(slots: seq<Slot>) {
    forall i, j :: 0 <= i < j < |slots| && slots[i].state != UNLOADED && slots[j].state != UNLOADED ==>
      Key(slots[i].desc.name) != Key(slots[j].desc.name)
  }

  ghost predicate Inv(m: Manager) {
    && WellFormed(m) && m.count == Occupied(m.slots) && DistinctNames(m.slots)
    && (forall i :: 0 <= i < PLUGIN_MAX ==> SlotOk(m.slots[i]))
    && (forall i :: 0 <= i < |m.past| ==> Closed(m.past[i]))
  }

  lemma {:induction false} OccupiedUpdate(slots: seq<Slot>, i: nat, s: Slot)
    requires i < |slots|
    ensures Occupied(slots[i := s])
         == Occupied(slots) - (if slots[i].state == UNLOADED then 0 else 1) + (if s.state == UNLOADED then 0 else 1)
  {
    if i > 0 {
      OccupiedUpdate(slots[1..], i - 1, s);
      assert slots[i := s][1..] == slots[1..][i - 1 := s];
    } else {
      assert slots[0 := s][1..] == slots[1..];
    }
  }

  lemma {:induction false} OccupiedAll(slots: seq<Slot>)
    requires forall i :: 0 <= i < |slots| ==> slots[i].state != UNLOADED
    ensures Occupied(slots) == |slots|
  {
    if slots != [] { OccupiedAll(slots[1..]); }
  }

  lemma RecordOk(desc: Desc, h: History, e: LifeEvent, callback: nat)
    requires h.calls == Visible(desc, h.life)
    requires callback == match e case Init(_) => desc.init case Tick(_) => desc.tick case Shutdown => desc.shutdown
    ensures PhaseOf(Record(h, e, callback).life) == After(PhaseOf(h.life), e)
    ensures Record(h, e, callback).calls == Visible(desc, Record(h, e, callback).life)
  {
    PhaseOfSnoc(h.life, e);
    assert (h.life + [e])[..|h.life|] == h.life;
  }

  /** Replacing slot `i` by one for the same plugin that is still loaded keeps the invariant. */
  lemma KeepsSlot(m: Manager, i: nat, s: Slot, asked: nat)
    requires Inv(m) && i < PLUGIN_MAX && m.slots[i].state != UNLOADED && s.state != UNLOADED
    requires s.desc == m.slots[i].desc && SlotOk(s)
    ensures Inv(m.(slots := m.slots[i := s], asked := asked))
  {
    hide SlotOk, Closed, Key;
    OccupiedUpdate(m.slots, i, s);
  }

  lemma ActivateKeeps(m: Manager, i: nat, answers: Answers)
    requires Inv(m) && i < PLUGIN_MAX && m.slots[i].state != UNLOADED
    ensures Inv(Activated(m, i, answers).0)
  {
    hide Closed, Key, Visible, PhaseOf, Record;
    var s := m.slots[i];
    if s.state == LOADED {
      var ok := s.desc.init == 0 || answers(m.asked) == OK;
      RecordOk(s.desc, s.history, Init(ok), s.desc.init);
      var m' := Activated(m, i, answers).0;
      KeepsSlot(m, i, m'.slots[i], m'.asked);
    }
  }

  lemma DeactivateKeeps(m: Manager, i: nat)
    requires Inv(m) && i < PLUGIN_MAX && m.slots[i].state != UNLOADED
    ensures Inv(Deactivated(m, i).0)
  {
    hide Closed, Key, Visible, PhaseOf, Record;
    var s := m.slots[i];
    if s.state == ACTIVE {
      RecordOk(s.desc, s.history, Shutdown, s.desc.shutdown);
      var m' := Deactivated(m, i).0;
      KeepsSlot(m, i, m'.slots[i], m'.asked);
    }
  }

  lemma TickSlotKeeps(m: Manager, i: nat, answers: Answers)
    requires Inv(m) && i < PLUGIN_MAX
    ensures Inv(TickSlot(m, i, answers))
  {
    hide Closed, Key, Visible, PhaseOf, Record;
    var s := m.slots[i];
    if s.state == ACTIVE && s.desc.tick != 0 {
      RecordOk(s.desc, s.history, Tick(answers(m.asked) == OK), s.desc.tick);
      var m' := TickSlot(m, i, answers);
      KeepsSlot(m, i, m'.slots[i], m'.asked);
    }
  }

  lemma {:induction false} TickFromKeeps(m: Manager, i: nat, answers: Answers)
    requires Inv(m) && i <= PLUGIN_MAX
    ensures Inv(TickFrom(m, i, answers))
    decreases PLUGIN_MAX - i
  {
    hide Inv, TickSlot;
    InvWellFormed(m);
    if i < PLUGIN_MAX {
      TickSlotKeeps(m, i, answers);
      TickFromKeeps(TickSlot(m, i, answers), i + 1, answers);
    }
  }

  lemma InvWellFormed(m: Manager)
    requires Inv(m)
    ensures WellFormed(m)
  {}

  lemma UnregisterKeeps(m: Manager, i: nat)
    requires Inv(m) && i < PLUGIN_MAX && m.slots[i].state != UNLOADED
    ensures Inv(Unregistered(m, i))
  {
    hide Key, Visible, PhaseOf, Record;
    var s, m' := m.slots[i], Unregistered(m, i);
    if s.state == ACTIVE { RecordOk(s.desc, s.history, Shutdown, s.desc.shutdown); }
    OccupiedUpdate(m.slots, i, m'.slots[i]);
    assert Closed(Registration(s.desc, ShutDown(s)));
  }

  /** With the counter below the limit there is a free slot: the second NOSLOT exit is never taken. */
  lemma FreeSlotExists(m: Manager)
    requires Inv(m) && m.count < PLUGIN_MAX
    ensures FindUnloaded(m.slots, 0) < PLUGIN_MAX
  {
    hide SlotOk, Closed, Key;
    if FindUnloaded(m.slots, 0) == PLUGIN_MAX { OccupiedAll(m.slots); }
  }

  lemma RegisterKeeps(m: Manager, desc: Desc, now: int)
    requires Inv(m) && |desc.name| == NAME_LEN
    ensures Inv(Registered(m, desc, now).0)
  {
    hide Key, Closed;
    if m.count < PLUGIN_MAX && Find(m.slots, desc.name, 0) == PLUGIN_MAX {
      FreeSlotExists(m);
      var i := FindUnloaded(m.slots, 0);
      OccupiedUpdate(m.slots, i, Registered(m, desc, now).0.slots[i]);
    }
  }

  lemma DoKeeps(m: Manager, op: Op, answers: Answers)
    requires Inv(m) && IsOp(op)
    ensures Inv(Do(m, op, answers).0)
  {
    hide Inv, Registered, Unregistered, Activated, Deactivated, TickFrom, Key;
    InvWellFormed(m);
    match op
    case Register(desc, now) => RegisterKeeps(m, desc, now);
    case Unregister(name) =>
      var i := Find(m.slots, name, 0);
      if i < PLUGIN_MAX { UnregisterKeeps(m, i); }
    case Activate(name) =>
      var i := Find(m.slots, name, 0);
      if i < PLUGIN_MAX { ActivateKeeps(m, i, answers); }
    case Deactivate(name) =>
      var i := Find(m.slots, name, 0);
      if i < PLUGIN_MAX { DeactivateKeeps(m, i); }
    case TickAll => TickFromKeeps(m, 0, answers);
  }

  function Run(m: Manager, ops: seq<Op>, answers: Answers): (m': Manager)
    requires WellFormed(m) && forall i :: 0 <= i < |ops| ==> IsOp(ops[i])
    ensures WellFormed(m')
    decreases |ops|
  {
    if ops == [] then m else Run(Do(m, ops[0], answers).0, ops[1..], answers)
  }

  /** Over every run and every answer of the callbacks: distinct names, an exact counter, and a legal
      lifecycle for every registration, present and past. */
  lemma {:induction false} RunKeeps(m: Manager, ops: seq<Op>, answers: Answers)
    requires Inv(m) && forall i :: 0 <= i < |ops| ==> IsOp(ops[i])
    ensures Inv(Run(m, ops, answers))
    decreases |ops|
  {
    hide Inv, Do;
    InvWellFormed(m);
    if ops != [] {
      DoKeeps(m, ops[0], answers);
      RunKeeps(Do(m, ops[0], answers).0, ops[1..], answers);
    }
  }

  lemma {:induction false} FullVisible(desc: Desc, life: seq<LifeEvent>)
    requires desc.init != 0 && desc.tick != 0 && desc.shutdown != 0
    ensures Visible(desc, life) == life
  {
    if life != [] { FullVisible(desc, life[..|life| - 1]); }
  }

  // ----- the trace properties, for every registration of every run

  /** `r` is a registration of `m`, present or past, with its history so far. */
  ghost predicate Recorded(m: Manager, r: Registration) {
    || r in m.past
    || exists i :: 0 <= i < |m.slots| && m.slots[i].state != UNLOADED && Registration(m.slots[i].desc, m.slots[i].history) == r
  }

  /** The manager after plugin_manager_init has no registration at all. */
  ghost predicate Fresh(m: Manager) {
    && WellFormed(m) && m.count == 0 && m.past == []
    && forall i :: 0 <= i < PLUGIN_MAX ==> m.slots[i].state == UNLOADED
  }

  lemma {:induction false} OccupiedNone(slots: seq<Slot>)
    requires forall i :: 0 <= i < |slots| ==> slots[i].state == UNLOADED
    ensures Occupied(slots) == 0
  {
    if slots != [] { OccupiedNone(slots[1..]); }
  }

  lemma FreshInv(m: Manager)
    requires Fresh(m)
    ensures Inv(m)
  {
    OccupiedNone(m.slots);
  }

  lemma RecordedLegal(m: Manager, ops: seq<Op>, answers: Answers, r: Registration)
    requires Fresh(m) && (forall i :: 0 <= i < |ops| ==> IsOp(ops[i])) && Recorded(Run(m, ops, answers), r)
    ensures PhaseOf(r.history.life) != Illegal && r.history.calls == Visible(r.desc, r.history.life)
  {
    hide Run, PhaseOf, Visible;
    FreshInv(m);
    RunKeeps(m, ops, answers);
    var m' := Run(m, ops, answers);
    if r in m'.past {
      var i :| 0 <= i < |m'.past| && m'.past[i] == r;
      assert Closed(m'.past[i]);
    } else {
      var i :| 0 <= i < |m'.slots| && m'.slots[i].state != UNLOADED
               && Registration(m'.slots[i].desc, m'.slots[i].history) == r;
      assert SlotOk(m'.slots[i]);
    }
  }

  /** Successful inits and shutdowns of a registration alternate. */
  lemma InitsAndShutdownsAlternate(m: Manager, ops: seq<Op>, answers: Answers, r: Registration, i: nat, j: nat)
    requires Fresh(m) && (forall k :: 0 <= k < |ops| ==> IsOp(ops[k])) && Recorded(Run(m, ops, answers), r)
    requires i < j < |r.history.life|
    ensures var life := r.history.life;
            && (life[i] == Init(true) && life[j].Init? ==> exists k :: i < k < j && life[k] == Shutdown)
            && (life[i] == Shutdown && life[j] == Shutdown ==> exists k :: i < k < j && life[k] == Init(true))
  {
    hide Run, Recorded;
    RecordedLegal(m, ops, answers, r);
    LegalAlternates(r.history.life, i, j);
  }

  /** A tick or shutdown happens only after a successful init that no shutdown has followed. */
  lemma OnlyWhileLive(m: Manager, ops: seq<Op>, answers: Answers, r: Registration, j: nat) returns (i: nat)
    requires Fresh(m) && (forall k :: 0 <= k < |ops| ==> IsOp(ops[k])) && Recorded(Run(m, ops, answers), r)
    requires j < |r.history.life| && !r.history.life[j].Init?
    ensures i < j && r.history.life[i] == Init(true) && forall k :: i < k < j ==> r.history.life[k] != Shutdown
  {
    hide Run, Recorded;
    RecordedLegal(m, ops, answers, r);
    i := LegalOnlyWhileLive(r.history.life, j);
  }

  /** Nothing happens to a registration after a failed init. */
  lemma NothingAfterFailure(m: Manager, ops: seq<Op>, answers: Answers, r: Registration, i: nat)
    requires Fresh(m) && (forall k :: 0 <= k < |ops| ==> IsOp(ops[k])) && Recorded(Run(m, ops, answers), r)
    requires i < |r.history.life| && r.history.life[i] == Init(false)
    ensures i == |r.history.life| - 1
  {
    hide Run, Recorded;
    RecordedLegal(m, ops, answers, r);
    LegalFailureIsLast(r.history.life, i);
  }

  /** A plugin with all three callbacks is called exactly along its lifecycle. */
  lemma FullPluginSeesAll(m: Manager, ops: seq<Op>, answers: Answers, r: Registration)
    requires Fresh(m) && (forall k :: 0 <= k < |ops| ==> IsOp(ops[k])) && Recorded(Run(m, ops, answers), r)
    requires r.desc.init != 0 && r.desc.tick != 0 && r.desc.shutdown != 0
    ensures r.history.calls == r.history.life
  {
    hide Run, Recorded;
    RecordedLegal(m, ops, answers, r);
    FullVisible(r.desc, r.history.life);
  }

  /** A registration that has ended was not left live. */
  lemma EndedNotLive(m: Manager, ops: seq<Op>, answers: Answers, i: nat)
    requires Fresh(m) && (forall k :: 0 <= k < |ops| ==> IsOp(ops[k])) && i < |Run(m, ops, answers).past|
    ensures PhaseOf(Run(m, ops, answers).past[i].history.life) in {Idle, Failed}
  {
    hide Run, PhaseOf;
    FreshInv(m);
    RunKeeps(m, ops, answers);
    assert Closed(Run(m, ops, answers).past[i]);
  }

  // ----- what each operation does

  /** Only slot `i` differs, and it is still the same plugin. */
  ghost predicate OnlySlot(m: Manager, m': Manager, i: int)
    requires WellFormed(m) && WellFormed(m') && 0 <= i < 16
  {
    && m' == m.(slots := m'.slots, asked := m'.asked)
    && (forall j :: 0 <= j < 16 && j != i ==> m'.slots[j] == m.slots[j])
    && m'.slots[i].desc == m.slots[i].desc && m'.slots[i].loadTick == m.slots[i].loadTick
  }

  /** plugin_activate asks the init callback, if there is one, and returns what it answers; the plugin is
      ACTIVE afterwards exactly if that was OK. On every other exit nothing changes. */
  lemma ActivateLaw(m: Manager, name: seq<byte>, answers: Answers)
    requires WellFormed(m) && IsName(name)
    ensures var (m', r) := Do(m, Activate(name), answers);
            var i := Find(m.slots, name, 0);
            && (i == 16 ==> r == NOTFOUND && m' == m)
            && (i < 16 && m.slots[i].state != LOADED ==> r == ERR && m' == m)
            && (i < 16 && m.slots[i].state == LOADED ==>
                  var s, s' := m.slots[i], m'.slots[i];
                  && r == (if s.desc.init == 0 then OK else answers(m.asked)) && OnlySlot(m, m', i)
                  && s'.state == (if r == OK then ACTIVE else ERROR)
                  && s'.history.life == s.history.life + [Init(r == OK)] && s'.ticks == s.ticks
                  && s'.history.calls == s.history.calls + (if s.desc.init == 0 then [] else [Init(r == OK)])
                  && s'.errors == (if r == OK then s.errors else (s.errors + 1) % 0x1_0000_0000)
                  && m'.asked == m.asked + (if s.desc.init == 0 then 0 else 1))
  {
    hide Find, Holds;
  }

  /** plugin_deactivate shuts an active plugin down and leaves it loaded. */
  lemma DeactivateLaw(m: Manager, name: seq<byte>, answers: Answers)
    requires WellFormed(m) && IsName(name)
    ensures var (m', r) := Do(m, Deactivate(name), answers);
            var i := Find(m.slots, name, 0);
            && (i == 16 ==> r == NOTFOUND && m' == m)
            && (i < 16 && m.slots[i].state != ACTIVE ==> r == ERR && m' == m)
            && (i < 16 && m.slots[i].state == ACTIVE ==>
                  var s, s' := m.slots[i], m'.slots[i];
                  && r == OK && OnlySlot(m, m', i) && s'.state == LOADED
                  && s'.history.life == s.history.life + [Shutdown] && s'.ticks == s.ticks && s'.errors == s.errors
                  && s'.history.calls == s.history.calls + (if s.desc.shutdown == 0 then [] else [Shutdown])
                  && m'.asked == m.asked + (if s.desc.shutdown == 0 then 0 else 1))
  {
    hide Find, Holds;
  }

  /** plugin_unregister ends a registration, after shutting it down if it is active, and says so on the bus. */
  lemma UnregisterLaw(m: Manager, name: seq<byte>, answers: Answers)
    requires WellFormed(m) && IsName(name)
    ensures var (m', r) := Do(m, Unregister(name), answers);
            var i := Find(m.slots, name, 0);
            && (i == 16 ==> r == NOTFOUND && m' == m)
            && (i < 16 ==>
                  var s, down := m.slots[i], m.slots[i].state == ACTIVE;
                  && r == OK && m'.slots[i].state == UNLOADED && m'.count == m.count - 1
                  && (forall j :: 0 <= j < 16 && j != i ==> m'.slots[j] == m.slots[j])
                  && m'.published == m.published + [Unloaded]
                  && |m'.past| == |m.past| + 1 && m.past <= m'.past && m'.past[|m.past|].desc == s.desc
                  && m'.past[|m.past|].history.life == s.history.life + (if down then [Shutdown] else [])
                  && m'.past[|m.past|].history.calls == s.history.calls + (if down && s.desc.shutdown != 0 then [Shutdown] else [])
                  && m'.asked == m.asked + (if down && s.desc.shutdown != 0 then 1 else 0))
  {
    hide Find, Holds;
  }

  /** plugin_register refuses when 16 plugins are there or the name is taken; otherwise the descriptor is
      in the first free slot, loaded and with all counters at 0, and its slot is published. */
  lemma RegisterLaw(m: Manager, desc: Desc, now: int, answers: Answers)
    requires Inv(m) && |desc.name| == NAME_LEN
    ensures var (m', r) := Do(m, Register(desc, now), answers);
            && (r == NOSLOT <==> m.count >= 16)
            && (r == ERR <==> m.count < 16 && exists j :: 0 <= j < 16 && Holds(m.slots[j], desc.name))
            && r in {OK, NOSLOT, ERR} && (r != OK ==> m' == m)
            && (r == OK ==>
                  exists i :: 0 <= i < 16 && m.slots[i].state == UNLOADED && (forall j :: 0 <= j < i ==> m.slots[j].state != UNLOADED)
                    && m'.slots[i] == Slot(desc := desc, state := LOADED, loadTick := now, ticks := 0, errors := 0,
                                           history := History(life := [], calls := []))
                    && (forall j :: 0 <= j < 16 && j != i ==> m'.slots[j] == m.slots[j])
                    && m' == m.(slots := m'.slots, count := m.count + 1, published := m.published + [Loaded(i)]))
  {
    hide Holds, SlotOk, Closed, DistinctNames, Occupied;
    if m.count < PLUGIN_MAX { FreeSlotExists(m); }
  }

  predicate Ticking(s: Slot) { s.state == ACTIVE && s.desc.tick != 0 }

  /** How many of the slots from `i` up to `k` tick. */
  function TickingIn(slots: seq<Slot>, i: nat, k: nat): nat
    requires k <= |slots|
    decreases k - i
  {
    if i >= k then 0 else (if Ticking(slots[i]) then 1 else 0) + TickingIn(slots, i + 1, k)
  }

  lemma {:induction false} TickingSame(slots: seq<Slot>, slots': seq<Slot>, i: nat, k: nat)
    requires k <= |slots| == |slots'| && forall j :: i <= j < k ==> slots'[j] == slots[j]
    ensures TickingIn(slots', i, k) == TickingIn(slots, i, k)
    decreases k - i
  {
    if i < k { TickingSame(slots, slots', i + 1, k); }
  }

  /** The slot after a tick that was answered with `ok`. */
  ghost predicate Ticked(s: Slot, s': Slot, ok: bool) {
    && s'.ticks == (s.ticks + 1) % 0x1_0000_0000 && s'.errors == (if ok then s.errors else (s.errors + 1) % 0x1_0000_0000)
    && s'.history.life == s.history.life + [Tick(ok)] && s'.history.calls == s.history.calls + [Tick(ok)]
    && s'.state == ACTIVE && s'.desc == s.desc && s'.loadTick == s.loadTick
  }

  lemma {:induction false} TickFromLaw(m: Manager, i: nat, answers: Answers, k: nat)
    requires WellFormed(m) && i <= PLUGIN_MAX && k < PLUGIN_MAX
    ensures var m' := TickFrom(m, i, answers);
            && m'.asked == m.asked + TickingIn(m.slots, i, 16)
            && m' == m.(slots := m'.slots, asked := m'.asked)
            && (if i <= k && Ticking(m.slots[k]) then Ticked(m.slots[k], m'.slots[k], answers(m.asked + TickingIn(m.slots, i, k)) == OK)
                else m'.slots[k] == m.slots[k])
    decreases PLUGIN_MAX - i
  {
    hide Ticked;
    if i < PLUGIN_MAX {
      var m1 := TickSlot(m, i, answers);
      TickFromLaw(m1, i + 1, answers, k);
      TickingSame(m.slots, m1.slots, i + 1, 16);
      TickingSame(m.slots, m1.slots, i + 1, k);
      TickSlotLaw(m, i, answers);
    }
  }

  lemma TickSlotLaw(m: Manager, i: nat, answers: Answers)
    requires WellFormed(m) && i < PLUGIN_MAX
    ensures Ticking(m.slots[i]) ==> Ticked(m.slots[i], TickSlot(m, i, answers).slots[i], answers(m.asked) == OK)
  {}

  /** plugin_tick_all calls every active plugin that has a tick once, in slot order. Each call counts as a
      tick, an answer other than OK as an error as well, and nothing else changes. */
  lemma TickAllLaw(m: Manager, answers: Answers, k: nat)
    requires WellFormed(m) && k < 16
    ensures var m' := Do(m, TickAll, answers).0;
            && m' == m.(slots := m'.slots, asked := m.asked + TickingIn(m.slots, 0, 16))
            && (if Ticking(m.slots[k]) then Ticked(m.slots[k], m'.slots[k], answers(m.asked + TickingIn(m.slots, 0, k)) == OK)
                else m'.slots[k] == m.slots[k])
  {
    hide TickFrom, Ticked;
    TickFromLaw(m, 0, answers, k);
  }

  /** Names of up to 24 characters are told apart as a whole. */
  lemma NamesToldApart(s: Slot, name: seq<byte>)
    requires |s.desc.name| == 24 && |CStr(name)| <= 24
    ensures Holds(s, name) <==> s.state != UNLOADED && CStr(s.desc.name) == CStr(name)
  {}
}

/** The plugin manager as a state machine, with the lifecycle history of every registration. */
module PluginSpec {
  import opened Bytes
  import opened Common
  import opened KString

  const PLUGIN_MAX := 16
  const NAME_LEN := 24

  datatype PluginState = UNLOADED | LOADED | ACTIVE | ERROR

  /** plugin_desc_t: the name field and the three callbacks, 0 for NULL. */
  datatype Desc = Desc(name: seq<byte>, init: nat, tick: nat, shutdown: nat)

  datatype LifeEvent = Init(ok: bool) | Tick(ok: bool) | Shutdown

  /** What has happened to one registration. `life` has every lifecycle event, `calls` only those
      for which a callback was there to be called. */
  datatype History = History(life: seq<LifeEvent>, calls: seq<LifeEvent>)

  /** plugin_slot_t. */
  datatype Slot = Slot(desc: Desc, state: PluginState, loadTick: int, ticks: int, errors: int, history: History)

  datatype Registration = Registration(desc: Desc, history: History)

  datatype Event = Loaded(slot: nat) | Unloaded

  /** `past` holds the registrations that have ended, `published` the events sent to the bus, and
      `asked` the number of callbacks called so far. */
  datatype Manager = Manager(slots: seq<Slot>, count: int, asked: nat, past: seq<Registration>, published: seq<Event>)

  /** The status the n-th callback of a run returns. */
  type Answers = nat -> Status

  predicate IsName(name: seq<byte>) { 0 in name || |name| >= NAME_LEN }

  /** strncmp_k over 24 bytes compares these. */
  function Key(name: seq<byte>): seq<byte> { Cut(CStr(name), NAME_LEN) }

  predicate Holds(s: Slot, name: seq<byte>) { s.state != UNLOADED && Key(s.desc.name) == Key(name) }

  ghost predicate WellFormed(m: Manager) {
    |m.slots| == PLUGIN_MAX && forall i :: 0 <= i < PLUGIN_MAX ==> |m.slots[i].desc.name| == NAME_LEN
  }

  /** plugin_find: the index of the plugin, or PLUGIN_MAX. */
  function Find(slots: seq<Slot>, name: seq<byte>, i: nat): (r: nat)
    requires i <= |slots|
    ensures i <= r <= |slots| && (r < |slots| ==> Holds(slots[r], name))
    ensures forall j :: i <= j < r ==> !Holds(slots[j], name)
    decreases |slots| - i
  {
    if i == |slots| || Holds(slots[i], name) then i else Find(slots, name, i + 1)
  }

  function FindUnloaded(slots: seq<Slot>, i: nat): (r: nat)
    requires i <= |slots|
    ensures i <= r <= |slots| && (r < |slots| ==> slots[r].state == UNLOADED)
    ensures forall j :: i <= j < r ==> slots[j].state != UNLOADED
    decreases |slots| - i
  {
    if i == |slots| || slots[i].state == UNLOADED then i else FindUnloaded(slots, i + 1)
  }

  function Record(h: History, e: LifeEvent, callback: nat): History {
    History(h.life + [e], if callback == 0 then h.calls else h.calls + [e])
  }

  datatype Op =
    | Register(desc: Desc, now: int)
    | Unregister(name: seq<byte>)
    | Activate(name: seq<byte>)
    | Deactivate(name: seq<byte>)
    | TickAll

  predicate IsOp(op: Op) {
    match op
    case Register(desc, _) => |desc.name| == NAME_LEN
    case Unregister(name) => IsName(name)
    case Activate(name) => IsName(name)
    case Deactivate(name) => IsName(name)
    case TickAll => true
  }

  function Registered(m: Manager, desc: Desc, now: int): (r: (Manager, Status))
    requires WellFormed(m) && |desc.name| == NAME_LEN
    ensures WellFormed(r.0)
  {
    if m.count >= PLUGIN_MAX then (m, NOSLOT)
    else if Find(m.slots, desc.name, 0) < PLUGIN_MAX then (m, ERR)
    else
      var i := FindUnloaded(m.slots, 0);
      if i == PLUGIN_MAX then (m, NOSLOT)
      else
        (m.(slots := m.slots[i := Slot(desc, LOADED, now, 0, 0, History([], []))], count := m.count + 1,
            published := m.published + [Loaded(i)]), OK)
  }

  /** The number of calls that shutting down `s` makes. */
  function ShutdownCalls(s: Slot): nat { if s.state == ACTIVE && s.desc.shutdown != 0 then 1 else 0 }

  function ShutDown(s: Slot): History {
    if s.state == ACTIVE then Record(s.history, Shutdown, s.desc.shutdown) else s.history
  }

  function Unregistered(m: Manager, i: nat): (m': Manager)
    requires WellFormed(m) && i < PLUGIN_MAX
    ensures WellFormed(m')
  {
    var s := m.slots[i];
    m.(slots := m.slots[i := s.(state := UNLOADED, history := History([], []))], count := m.count - 1,
       asked := m.asked + ShutdownCalls(s),
       past := m.past + [Registration(s.desc, ShutDown(s))], published := m.published + [Unloaded])
  }

  function Activated(m: Manager, i: nat, answers: Answers): (r: (Manager, Status))
    requires WellFormed(m) && i < PLUGIN_MAX
    ensures WellFormed(r.0)
  {
    var s := m.slots[i];
    if s.state != LOADED then (m, ERR)
    else if s.desc.init == 0 then
      (m.(slots := m.slots[i := s.(state := ACTIVE, history := Record(s.history, Init(true), 0))]), OK)
    else if answers(m.asked) != OK then
      (m.(slots := m.slots[i := s.(state := ERROR, errors := (s.errors + 1) % U32,
                                   history := Record(s.history, Init(false), s.desc.init))], asked := m.asked + 1), answers(m.asked))
    else
      (m.(slots := m.slots[i := s.(state := ACTIVE, history := Record(s.history, Init(true), s.desc.init))],
          asked := m.asked + 1), OK)
  }

  function Deactivated(m: Manager, i: nat): (r: (Manager, Status))
    requires WellFormed(m) && i < PLUGIN_MAX
    ensures WellFormed(r.0)
  {
    var s := m.slots[i];
    if s.state != ACTIVE then (m, ERR)
    else (m.(slots := m.slots[i := s.(state := LOADED, history := ShutDown(s))], asked := m.asked + ShutdownCalls(s)), OK)
  }

  /** A failing tick is counted and changes nothing else. */
  function TickSlot(m: Manager, i: nat, answers: Answers): (m': Manager)
    requires WellFormed(m) && i < PLUGIN_MAX
    ensures WellFormed(m')
  {
    var s := m.slots[i];
    if s.state == ACTIVE && s.desc.tick != 0 then
      var ok := answers(m.asked) == OK;
      m.(slots := m.slots[i := s.(ticks := (s.ticks + 1) % U32, errors := if ok then s.errors else (s.errors + 1) % U32,
                                  history := Record(s.history, Tick(ok), s.desc.tick))], asked := m.asked + 1)
    else m
  }

  function TickFrom(m: Manager, i: nat, answers: Answers): (m': Manager)
    requires WellFormed(m) && i <= PLUGIN_MAX
    ensures WellFormed(m')
    decreases PLUGIN_MAX - i
  {
    if i == PLUGIN_MAX then m else TickFrom(TickSlot(m, i, answers), i + 1, answers)
  }

  function Do(m: Manager, op: Op, answers: Answers): (r: (Manager, Status))
    requires WellFormed(m) && IsOp(op)
    ensures WellFormed(r.0)
  {
    match op
    case Register(desc, now) => Registered(m, desc, now)
    case Unregister(name) =>
      var i := Find(m.slots, name, 0);
      if i == PLUGIN_MAX then (m, NOTFOUND) else (Unregistered(m, i), OK)
    case Activate(name) =>
      var i := Find(m.slots, name, 0);
      if i == PLUGIN_MAX then (m, NOTFOUND) else Activated(m, i, answers)
    case Deactivate(name) =>
      var i := Find(m.slots, name, 0);
      if i == PLUGIN_MAX then (m, NOTFOUND) else Deactivated(m, i)
    case TickAll => (TickFrom(m, 0, answers), OK)
  }
}

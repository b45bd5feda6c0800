/** The event bus as a bounded FIFO. Handlers may publish, subscribe and unsubscribe while an event
    is being dispatched; what the n-th handler call of a run does is given by a reaction, so that a
    law for every reaction is a law for every behaviour of the handlers. */
module BusSpec {
  import opened Common

  const MAX_TOPICS := 32
  const MAX_HANDLERS := 8
  const QUEUE_DEPTH := 64

  const TOPIC_KERNEL_TICK := 0
  const TOPIC_PLUGIN_LOADED := 1
  const TOPIC_MIRROR_SYNC := 3
  const TOPIC_SCHEDULER_SWITCH := 4

  datatype Event = Event(topic: nat, data: int, timestamp: int)

  /** A function pointer; 0 is NULL. */
  type Handler = nat

  datatype Op =
    | Publish(topic: nat, data: int, now: int)
    | Subscribe(topic: nat, handler: Handler)
    | Unsubscribe(topic: nat, handler: Handler)

  /** What the n-th handler call does, given the handler and the event. */
  type Reaction = (nat, Handler, Event) -> seq<Op>

  datatype Call = Call(handler: Handler, event: Event)

  /** `accepted`, `dispatched` and `calls` record the history. */
  datatype Bus = Bus(handlers: seq<Handler>, pending: seq<Event>,
                     accepted: seq<Event>, dispatched: seq<Event>, calls: seq<Call>)

  /** The bus after eventbus_init. */
  function Empty(): (b: Bus)
    ensures WellFormed(b) && forall i :: 0 <= i < MAX_TOPICS * MAX_HANDLERS ==> b.handlers[i] == 0
  {
    Bus(seq(MAX_TOPICS * MAX_HANDLERS, i => 0), [], [], [], [])
  }

  ghost predicate WellFormed(b: Bus) {
    && |b.handlers| == MAX_TOPICS * MAX_HANDLERS && |b.pending| <= QUEUE_DEPTH
    && forall i :: 0 <= i < |b.pending| ==> b.pending[i].topic < MAX_TOPICS
  }

  /** Index of slot `h` of `topic` in the handler table. */
  function SlotOf(topic: nat, h: nat): nat { topic * MAX_HANDLERS + h }

  /** The first slot of `topic` from `h` on that holds `x`, or MAX_HANDLERS. */
  function FindSlot(table: seq<Handler>, topic: nat, x: Handler, h: nat): (r: nat)
    requires |table| == MAX_TOPICS * MAX_HANDLERS && topic < MAX_TOPICS && h <= MAX_HANDLERS
    ensures h <= r <= MAX_HANDLERS && (r < MAX_HANDLERS ==> table[SlotOf(topic, r)] == x)
    ensures forall i :: h <= i < r ==> table[SlotOf(topic, i)] != x
    decreases MAX_HANDLERS - h
  {
    if h == MAX_HANDLERS || table[SlotOf(topic, h)] == x then h else FindSlot(table, topic, x, h + 1)
  }

  /** Puts `y` into the first slot of `topic` that holds `x`. */
  function Replace(b: Bus, topic: nat, x: Handler, y: Handler, missing: Status): (Bus, Status)
    requires WellFormed(b) && topic < MAX_TOPICS
  {
    var h := FindSlot(b.handlers, topic, x, 0);
    if h == MAX_HANDLERS then (b, missing) else (b.(handlers := b.handlers[SlotOf(topic, h) := y]), OK)
  }

  function Do(b: Bus, op: Op): (r: (Bus, Status))
    requires WellFormed(b)
    ensures WellFormed(r.0)
  {
    match op
    case Publish(topic, data, now) =>
      if topic >= MAX_TOPICS then (b, ERR)
      else if |b.pending| >= QUEUE_DEPTH then (b, BUSY)
      else
        var e := Event(topic, data, now);
        (b.(pending := b.pending + [e], accepted := b.accepted + [e]), OK)
    case Subscribe(topic, x) =>
      if topic >= MAX_TOPICS || x == 0 then (b, ERR) else Replace(b, topic, 0, x, NOSLOT)
    case Unsubscribe(topic, x) =>
      if topic >= MAX_TOPICS || x == 0 then (b, ERR) else Replace(b, topic, x, 0, NOTFOUND)
  }

  function DoAll(b: Bus, ops: seq<Op>): (b': Bus)
    requires WellFormed(b)
    ensures WellFormed(b')
    decreases |ops|
  {
    if ops == [] then b else DoAll(Do(b, ops[0]).0, ops[1..])
  }

  /** The handlers of slots `h` and up of the event's topic, each as found when its turn comes. */
  function CallFrom(b: Bus, e: Event, h: nat, react: Reaction): (b': Bus)
    requires WellFormed(b) && e.topic < MAX_TOPICS && h <= MAX_HANDLERS
    ensures WellFormed(b')
    decreases MAX_HANDLERS - h
  {
    if h == MAX_HANDLERS then b else CallFrom(CallSlot(b, e, h, react), e, h + 1, react)
  }

  function CallSlot(b: Bus, e: Event, h: nat, react: Reaction): (b': Bus)
    requires WellFormed(b) && e.topic < MAX_TOPICS && h < MAX_HANDLERS
    ensures WellFormed(b')
  {
    var x := b.handlers[SlotOf(e.topic, h)];
    if x == 0 then b else DoAll(b.(calls := b.calls + [Call(x, e)]), react(|b.calls|, x, e))
  }

  function Pop(b: Bus): (b': Bus)
    requires WellFormed(b) && b.pending != []
    ensures WellFormed(b')
  {
    b.(pending := b.pending[1..], dispatched := b.dispatched + [b.pending[0]])
  }

  /** One round of the drain loop. */
  function Dispatch(b: Bus, react: Reaction): (b': Bus)
    requires WellFormed(b)
    ensures WellFormed(b')
  {
    if b.pending == [] then b else CallFrom(Pop(b), b.pending[0], 0, react)
  }

  // ----- FIFO

  /** Every accepted event has been dispatched or is pending, once, in the order of acceptance. */
  ghost predicate Fifo(b: Bus) {
    b.accepted == b.dispatched + b.pending
  }

  /** `b'` comes from `b` by accepting further events and nothing is dispatched on the way. */
  ghost predicate Extends(b: Bus, b': Bus) {
    && b.pending <= b'.pending && b.dispatched == b'.dispatched && b.calls <= b'.calls
    && b'.accepted == b.accepted + b'.pending[|b.pending|..]
  }

  lemma DoExtends(b: Bus, op: Op)
    requires WellFormed(b)
    ensures Extends(b, Do(b, op).0)
  {}

  lemma ExtendsTrans(a: Bus, b: Bus, c: Bus)
    requires Extends(a, b) && Extends(b, c)
    ensures Extends(a, c)
  {
    assert c.pending[|a.pending|..] == b.pending[|a.pending|..] + c.pending[|b.pending|..];
  }

  lemma {:induction false} DoAllExtends(b: Bus, ops: seq<Op>)
    requires WellFormed(b)
    ensures Extends(b, DoAll(b, ops))
    decreases |ops|
  {
    if ops != [] {
      DoExtends(b, ops[0]);
      DoAllExtends(Do(b, ops[0]).0, ops[1..]);
      ExtendsTrans(b, Do(b, ops[0]).0, DoAll(b, ops));
    }
  }

  lemma CallSlotExtends(b: Bus, e: Event, h: nat, react: Reaction)
    requires WellFormed(b) && e.topic < MAX_TOPICS && h < MAX_HANDLERS
    ensures Extends(b, CallSlot(b, e, h, react))
  {
    var x := b.handlers[SlotOf(e.topic, h)];
    if x != 0 {
      var b1 := b.(calls := b.calls + [Call(x, e)]);
      DoAllExtends(b1, react(|b.calls|, x, e));
      ExtendsTrans(b, b1, CallSlot(b, e, h, react));
    }
  }

  lemma {:induction false} CallFromExtends(b: Bus, e: Event, h: nat, react: Reaction)
    requires WellFormed(b) && e.topic < MAX_TOPICS && h <= MAX_HANDLERS
    ensures Extends(b, CallFrom(b, e, h, react))
    decreases MAX_HANDLERS - h
  {
    if h < MAX_HANDLERS {
      var b1 := CallSlot(b, e, h, react);
      CallSlotExtends(b, e, h, react);
      CallFromExtends(b1, e, h + 1, react);
      ExtendsTrans(b, b1, CallFrom(b, e, h, react));
    }
  }

  /** One dispatch takes the oldest pending event, whatever its handlers do meanwhile. */
  lemma DispatchIsFifo(b: Bus, react: Reaction)
    requires WellFormed(b) && Fifo(b)
    ensures Fifo(Dispatch(b, react))
    ensures b.pending != [] ==> Dispatch(b, react).dispatched == b.dispatched + [b.pending[0]]
    ensures b.pending != [] ==> b.pending[1..] <= Dispatch(b, react).pending
  {
    hide CallFrom;
    if b.pending != [] {
      var b1 := Pop(b);
      CallFromExtends(b1, b.pending[0], 0, react);
      var b' := Dispatch(b, react);
      assert b.pending == [b.pending[0]] + b.pending[1..];
      assert b'.pending == b1.pending + b'.pending[|b1.pending|..];
    }
  }

  // ----- runs

  /** A step of the kernel: some code uses the bus, or the drain loop makes one round. */
  datatype Step = Use(op: Op) | Drain

  function Next(b: Bus, step: Step, react: Reaction): (b': Bus)
    requires WellFormed(b)
    ensures WellFormed(b')
  {
    match step
    case Use(op) => Do(b, op).0
    case Drain => Dispatch(b, react)
  }

  function Run(b: Bus, steps: seq<Step>, react: Reaction): (b': Bus)
    requires WellFormed(b)
    ensures WellFormed(b')
    decreases |steps|
  {
    if steps == [] then b else Run(Next(b, steps[0], react), steps[1..], react)
  }

  lemma {:induction false} RunIsFifo(b: Bus, steps: seq<Step>, react: Reaction)
    requires WellFormed(b) && Fifo(b)
    ensures Fifo(Run(b, steps, react))
    decreases |steps|
  {
    if steps != [] {
      var b1 := Next(b, steps[0], react);
      if steps[0].Drain? { DispatchIsFifo(b, react); } else { DoExtends(b, steps[0].op); }
      RunIsFifo(b1, steps[1..], react);
    }
  }

  /** Over every run from the empty bus: accepted = dispatched + pending, and in order. */
  lemma EveryRunIsFifo(steps: seq<Step>, react: Reaction)
    ensures var b := Run(Empty(), steps, react);
            && b.accepted == b.dispatched + b.pending
            && |b.accepted| == |b.dispatched| + |b.pending|
            && |b.pending| <= QUEUE_DEPTH
  {
    RunIsFifo(Empty(), steps, react);
  }
}

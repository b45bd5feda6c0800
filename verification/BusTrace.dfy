/** What the operations of a run, those of the handlers included, make of the bus: which are refused,
    which events are accepted with which contents, and what a handler is given. */
module BusTrace {
  import opened Common
  import opened BusSpec
  import opened BusLaws
  import opened BusDrain

  // ----- single operations

  /** An operation that is refused changes nothing. A publish is refused exactly for a topic that does
      not exist and for a full queue. */
  lemma PublishLaw(b: Bus, topic: nat, data: int, now: int)
    requires WellFormed(b)
    ensures var (b', r) := Do(b, Publish(topic, data, now));
            && r == (if topic >= 32 then ERR else if |b.pending| == 64 then BUSY else OK)
            && (r != OK ==> b' == b)
            && (r == OK ==> && |b'.pending| == |b.pending| + 1 && b.pending <= b'.pending
                            && b'.pending[|b.pending|].topic == topic && b'.pending[|b.pending|].data == data
                            && b'.pending[|b.pending|].timestamp == now
                            && b'.handlers == b.handlers && b'.calls == b.calls && b'.dispatched == b.dispatched)
  {}

  /** Handler `y` took the place of the first `x` in the slots of `topic`, and nothing else changed. */
  ghost predicate Swapped(b: Bus, b': Bus, topic: nat, x: Handler, y: Handler)
    requires WellFormed(b) && WellFormed(b') && topic < MAX_TOPICS
  {
    && b' == b.(handlers := b'.handlers)
    && exists h :: 0 <= h < 8 && b.handlers[SlotOf(topic, h)] == x && b'.handlers[SlotOf(topic, h)] == y
                   && (forall i :: 0 <= i < h ==> b.handlers[SlotOf(topic, i)] != x)
                   && (forall j :: 0 <= j < |b.handlers| && j != SlotOf(topic, h) ==> b'.handlers[j] == b.handlers[j])
  }

  lemma ReplaceLaw(b: Bus, topic: nat, x: Handler, y: Handler, missing: Status)
    requires WellFormed(b) && topic < MAX_TOPICS && missing != OK
    ensures var (b', r) := Replace(b, topic, x, y, missing);
            && r == (if forall h :: 0 <= h < 8 ==> b.handlers[SlotOf(topic, h)] != x then missing else OK)
            && (r != OK ==> b' == b) && (r == OK ==> WellFormed(b') && Swapped(b, b', topic, x, y))
  {
    var h := BusSpec.FindSlot(b.handlers, topic, x, 0);
    if h < MAX_HANDLERS {
      var b' := Replace(b, topic, x, y, missing).0;
      assert b'.handlers[SlotOf(topic, h)] == y;
    }
  }

  lemma SubscribeLaw(b: Bus, topic: nat, x: Handler)
    requires WellFormed(b)
    ensures var (b', r) := Do(b, Subscribe(topic, x));
            && (r == ERR <==> topic >= 32 || x == 0)
            && (r == NOSLOT <==> topic < 32 && x != 0 && forall h :: 0 <= h < 8 ==> b.handlers[SlotOf(topic, h)] != 0)
            && r in {OK, ERR, NOSLOT} && (r != OK ==> b' == b)
            && (r == OK ==> Swapped(b, b', topic, 0, x))
  {
    hide Swapped;
    if topic < MAX_TOPICS && x != 0 { ReplaceLaw(b, topic, 0, x, NOSLOT); }
  }

  lemma UnsubscribeLaw(b: Bus, topic: nat, x: Handler)
    requires WellFormed(b)
    ensures var (b', r) := Do(b, Unsubscribe(topic, x));
            && (r == ERR <==> topic >= 32 || x == 0)
            && (r == NOTFOUND <==> topic < 32 && x != 0 && forall h :: 0 <= h < 8 ==> b.handlers[SlotOf(topic, h)] != x)
            && r in {OK, ERR, NOTFOUND} && (r != OK ==> b' == b)
            && (r == OK ==> Swapped(b, b', topic, x, 0))
  {
    hide Swapped;
    if topic < MAX_TOPICS && x != 0 { ReplaceLaw(b, topic, x, 0, NOTFOUND); }
  }

  // ----- the operations of a run, with their results

  datatype Done = Done(op: Op, status: Status)

  function DoneAll(b: Bus, ops: seq<Op>): seq<Done>
    requires WellFormed(b)
    decreases |ops|
  {
    if ops == [] then [] else [Done(ops[0], Do(b, ops[0]).1)] + DoneAll(Do(b, ops[0]).0, ops[1..])
  }

  /** What the handler in slot `h` does, if there is one. */
  function DoneSlot(b: Bus, e: Event, h: nat, react: Reaction): seq<Done>
    requires WellFormed(b) && e.topic < MAX_TOPICS && h < MAX_HANDLERS
  {
    var x := b.handlers[SlotOf(e.topic, h)];
    if x == 0 then [] else DoneAll(b.(calls := b.calls + [Call(x, e)]), react(|b.calls|, x, e))
  }

  function DoneFrom(b: Bus, e: Event, h: nat, react: Reaction): seq<Done>
    requires WellFormed(b) && e.topic < MAX_TOPICS && h <= MAX_HANDLERS
    decreases MAX_HANDLERS - h
  {
    if h == MAX_HANDLERS then [] else DoneSlot(b, e, h, react) + DoneFrom(CallSlot(b, e, h, react), e, h + 1, react)
  }

  function DoneStep(b: Bus, step: Step, react: Reaction): seq<Done>
    requires WellFormed(b)
  {
    match step
    case Use(op) => DoneAll(b, [op])
    case Drain => if b.pending == [] then [] else DoneFrom(Pop(b), b.pending[0], 0, react)
  }

  function DoneRun(b: Bus, steps: seq<Step>, react: Reaction): seq<Done>
    requires WellFormed(b)
    decreases |steps|
  {
    if steps == [] then [] else DoneStep(b, steps[0], react) + DoneRun(Next(b, steps[0], react), steps[1..], react)
  }

  /** The events of the publishes that were not refused. */
  function Events(ds: seq<Done>): seq<Event> {
    if ds == [] then [] else
    (if ds[0].op.Publish? && ds[0].status == OK
     then [Event(topic := ds[0].op.topic, data := ds[0].op.data, timestamp := ds[0].op.now)] else []) + Events(ds[1..])
  }

  lemma {:induction false} EventsConcat(ds: seq<Done>, es: seq<Done>)
    ensures Events(ds + es) == Events(ds) + Events(es)
  {
    if ds == [] {
      assert ds + es == es;
    } else {
      assert (ds + es)[1..] == ds[1..] + es;
      EventsConcat(ds[1..], es);
    }
  }

  lemma {:induction false} DoAllAccepts(b: Bus, ops: seq<Op>)
    requires WellFormed(b)
    ensures DoAll(b, ops).accepted == b.accepted + Events(DoneAll(b, ops))
    decreases |ops|
  {
    hide Replace;
    if ops != [] {
      var b1, d := Do(b, ops[0]).0, Done(ops[0], Do(b, ops[0]).1);
      DoAllAccepts(b1, ops[1..]);
      assert ([d] + DoneAll(b1, ops[1..]))[1..] == DoneAll(b1, ops[1..]);
      ReplaceAccepts(b, ops[0]);
    }
  }

  lemma ReplaceAccepts(b: Bus, op: Op)
    requires WellFormed(b)
    ensures !op.Publish? ==> Do(b, op).0.accepted == b.accepted
  {}

  lemma {:induction false} CallFromAccepts(b: Bus, e: Event, h: nat, react: Reaction)
    requires WellFormed(b) && e.topic < MAX_TOPICS && h <= MAX_HANDLERS
    ensures CallFrom(b, e, h, react).accepted == b.accepted + Events(DoneFrom(b, e, h, react))
    decreases MAX_HANDLERS - h
  {
    hide DoAll, DoneAll, Events;
    EventsNone();
    if h < MAX_HANDLERS {
      var x, b1 := b.handlers[SlotOf(e.topic, h)], CallSlot(b, e, h, react);
      if x != 0 { DoAllAccepts(b.(calls := b.calls + [Call(x, e)]), react(|b.calls|, x, e)); }
      CallFromAccepts(b1, e, h + 1, react);
      EventsConcat(DoneSlot(b, e, h, react), DoneFrom(b1, e, h + 1, react));
    }
  }

  lemma EventsNone()
    ensures Events([]) == []
  {}

  lemma StepAccepts(b: Bus, step: Step, react: Reaction)
    requires WellFormed(b)
    ensures Next(b, step, react).accepted == b.accepted + Events(DoneStep(b, step, react))
  {
    hide DoAll, CallFrom, DoneFrom, DoneAll, Events;
    EventsNone();
    match step
    case Use(op) =>
      DoAllOne(b, op);
      DoAllAccepts(b, [op]);
    case Drain =>
      if b.pending != [] { CallFromAccepts(Pop(b), b.pending[0], 0, react); }
  }

  /** Over every run the accepted events are, in order, the topic, data and time of the publishes that
      were not refused, those made by handlers included. */
  lemma {:induction false} RunAccepts(b: Bus, steps: seq<Step>, react: Reaction)
    requires WellFormed(b)
    ensures Run(b, steps, react).accepted == b.accepted + Events(DoneRun(b, steps, react))
    decreases |steps|
  {
    hide Next, DoneStep, Events;
    EventsNone();
    if steps != [] {
      var b1 := Next(b, steps[0], react);
      StepAccepts(b, steps[0], react);
      RunAccepts(b1, steps[1..], react);
      EventsConcat(DoneStep(b, steps[0], react), DoneRun(b1, steps[1..], react));
    }
  }

  // ----- what a subscriber is given

  /** While handlers only publish, the queue loses one event per round at its front and keeps the rest. */
  lemma {:induction false} RoundsShiftQueue(b: Bus, react: Reaction, n: nat)
    requires WellFormed(b) && OnlyPublishes(react) && n <= |b.pending| && Fifo(b)
    ensures var b' := Rounds(b, react, n);
            Fifo(b') && b'.handlers == b.handlers && b.pending[n..] <= b'.pending
  {
    hide CallFrom, OnlyPublishes;
    if n > 0 {
      var b1 := Rounds(b, react, n - 1);
      RoundsShiftQueue(b, react, n - 1);
      assert b1.pending != [] by { assert b.pending[n - 1..] != []; }
      DispatchIsFifo(b1, react);
      ReachesEverySubscriber(Pop(b1), b1.pending[0], 0, react);
      assert b.pending[n - 1..][1..] == b.pending[n..];
    }
  }

  /** An event published behind n others is handed, in round n + 1, to every subscriber of its topic,
      with the topic, data and time it was published with. */
  lemma PublishedIsDelivered(b: Bus, topic: nat, data: int, now: int, react: Reaction)
    requires WellFormed(b) && Fifo(b) && OnlyPublishes(react) && Do(b, Publish(topic, data, now)).1 == OK
    ensures var b1, n := Do(b, Publish(topic, data, now)).0, |b.pending|;
            Rounds(b1, react, n + 1).calls
            == Rounds(b1, react, n).calls + Calls(Subscribers(b.handlers, topic, 0), Event(topic, data, now))
  {
    hide CallFrom, OnlyPublishes, Subscribers, Calls;
    var b1, n := Do(b, Publish(topic, data, now)).0, |b.pending|;
    DoExtends(b, Publish(topic, data, now));
    assert Fifo(b1);
    RoundsShiftQueue(b1, react, n);
    var b2 := Rounds(b1, react, n);
    assert b2.pending[0] == b1.pending[n..][0] == Event(topic, data, now);
    ReachesEverySubscriber(Pop(b2), b2.pending[0], 0, react);
  }
}

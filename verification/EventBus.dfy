/** The event bus: a handler table and a ring buffer, drained while handlers re-enter it. */
module EventBus {
  import opened Common
  import opened BusSpec
  import opened BusDrain

  /** The i-th place of the ring from `head` on. */
  function At(head: nat, i: nat): (p: nat)
    ensures p < QUEUE_DEPTH
  {
    (head + i) % QUEUE_DEPTH
  }

  /** The events in a ring of 64, oldest first. */
  function Ring(q: seq<Event>, head: nat, count: nat): (es: seq<Event>)
    requires |q| == QUEUE_DEPTH && head < QUEUE_DEPTH && count <= QUEUE_DEPTH
    ensures |es| == count
    ensures forall i :: 0 <= i < count ==> es[i] == q[At(head, i)]
  {
    seq(count, i requires 0 <= i < count => q[At(head, i)])
  }

  lemma AtDistinct(head: nat, i: nat, j: nat)
    requires head < QUEUE_DEPTH && i < j < QUEUE_DEPTH
    ensures At(head, i) != At(head, j)
  {
    assert At(head, i) == if head + i < QUEUE_DEPTH then head + i else head + i - QUEUE_DEPTH;
    assert At(head, j) == if head + j < QUEUE_DEPTH then head + j else head + j - QUEUE_DEPTH;
  }

  lemma RingPush(q: seq<Event>, head: nat, count: nat, e: Event)
    requires |q| == QUEUE_DEPTH && head < QUEUE_DEPTH && count < QUEUE_DEPTH
    ensures Ring(q[At(head, count) := e], head, count + 1) == Ring(q, head, count) + [e]
    ensures (At(head, count) + 1) % QUEUE_DEPTH == At(head, count + 1)
  {
    forall i | 0 <= i < count ensures At(head, i) != At(head, count) { AtDistinct(head, i, count); }
  }

  lemma AtNext(head: nat, i: nat)
    requires head < QUEUE_DEPTH && i < QUEUE_DEPTH
    ensures At((head + 1) % QUEUE_DEPTH, i) == At(head, i + 1)
  {
    assert (head + 1) % QUEUE_DEPTH == if head + 1 == QUEUE_DEPTH then 0 else head + 1;
  }

  lemma RingPop(q: seq<Event>, head: nat, count: nat)
    requires |q| == QUEUE_DEPTH && head < QUEUE_DEPTH && 0 < count <= QUEUE_DEPTH
    ensures Ring(q, head, count)[0] == q[head]
    ensures Ring(q, (head + 1) % QUEUE_DEPTH, count - 1) == Ring(q, head, count)[1..]
    ensures At((head + 1) % QUEUE_DEPTH, count - 1) == At(head, count)
  {
    assert At(head, 0) == head;
    var next := (head + 1) % QUEUE_DEPTH;
    forall i | 0 <= i < count ensures At(next, i) == At(head, i + 1) { AtNext(head, i); }
  }

  class EventBus {
    const handlers: array<Handler>
    const queue: array<Event>
    var qHead: nat
    var qTail: nat
    var qCount: nat
    /** Number of handler calls so far: selects what the next call does. */
    var callCount: nat
    /** The bus as BusSpec sees it, with its history. */
    ghost var bus: Bus

    ghost predicate Valid()
      reads this, handlers, queue
    {
      && handlers.Length == MAX_TOPICS * MAX_HANDLERS && queue.Length == QUEUE_DEPTH
      && WellFormed(bus) && Fifo(bus)
      && qHead < QUEUE_DEPTH && qCount <= QUEUE_DEPTH && qTail == At(qHead, qCount)
      && bus.handlers == handlers[..] && bus.pending == Ring(queue[..], qHead, qCount)
      && callCount == |bus.calls|
    }

    /** eventbus_init. */
    constructor ()
      ensures Valid() && bus == Empty() && fresh(handlers) && fresh(queue)
    {
      handlers := new Handler[MAX_TOPICS * MAX_HANDLERS](_ => 0);
      queue := new Event[QUEUE_DEPTH](_ => Event(0, 0, 0));
      qHead, qTail, qCount, callCount := 0, 0, 0, 0;
      bus := Empty();
    }

    /** The loop shared by subscribe and unsubscribe: the first slot of `topic` holding `x`. */
    method Locate(topic: nat, x: Handler) returns (h: nat)
      requires Valid() && topic < MAX_TOPICS
      ensures h == BusSpec.FindSlot(bus.handlers, topic, x, 0)
    {
      h := 0;
      while h < MAX_HANDLERS
        invariant 0 <= h <= MAX_HANDLERS
        invariant BusSpec.FindSlot(bus.handlers, topic, x, 0) == BusSpec.FindSlot(bus.handlers, topic, x, h)
      {
        if handlers[topic * MAX_HANDLERS + h] == x { return; }
        h := h + 1;
      }
    }

    method Subscribe(topic: nat, x: Handler) returns (s: Status)
      requires Valid()
      modifies this`bus, handlers
      ensures Valid() && (bus, s) == Do(old(bus), Op.Subscribe(topic, x))
    {
      if topic >= MAX_TOPICS || x == 0 { return ERR; }
      var h := Locate(topic, 0);
      if h == MAX_HANDLERS { return NOSLOT; }
      handlers[topic * MAX_HANDLERS + h] := x;
      bus := bus.(handlers := handlers[..]);
      return OK;
    }

    method Unsubscribe(topic: nat, x: Handler) returns (s: Status)
      requires Valid()
      modifies this`bus, handlers
      ensures Valid() && (bus, s) == Do(old(bus), Op.Unsubscribe(topic, x))
    {
      if topic >= MAX_TOPICS || x == 0 { return ERR; }
      var h := Locate(topic, x);
      if h == MAX_HANDLERS { return NOTFOUND; }
      handlers[topic * MAX_HANDLERS + h] := 0;
      bus := bus.(handlers := handlers[..]);
      return OK;
    }

    method Publish(topic: nat, data: int, now: int) returns (s: Status)
      requires Valid()
      modifies this, queue
      ensures Valid() && (bus, s) == Do(old(bus), Op.Publish(topic, data, now))
    {
      if topic >= MAX_TOPICS { return ERR; }
      if qCount >= QUEUE_DEPTH { return BUSY; }
      ghost var b := bus;
      RingPush(queue[..], qHead, qCount, Event(topic, data, now));
      DoExtends(bus, Op.Publish(topic, data, now));
      queue[qTail] := Event(topic, data, now);
      qTail := (qTail + 1) % QUEUE_DEPTH;
      qCount := qCount + 1;
      bus := Do(b, Op.Publish(topic, data, now)).0;
      return OK;
    }

    /** What a handler does to the bus while it runs. */
    method Perform(ops: seq<Op>)
      requires Valid()
      modifies this, queue, handlers
      ensures Valid() && bus == DoAll(old(bus), ops)
      decreases |ops|
    {
      if ops != [] {
        var s;
        match ops[0] {
          case Publish(topic, data, now) => s := Publish(topic, data, now);
          case Subscribe(topic, x) => s := Subscribe(topic, x);
          case Unsubscribe(topic, x) => s := Unsubscribe(topic, x);
        }
        Perform(ops[1..]);
      }
    }

    /** Slot `h` of the event's topic, as it is now. */
    method Invoke(evt: Event, h: nat, react: Reaction)
      requires Valid() && evt.topic < MAX_TOPICS && h < MAX_HANDLERS
      modifies this, queue, handlers
      ensures Valid() && bus == CallSlot(old(bus), evt, h, react)
    {
      hide DoAll, Ring, At;
      var x := handlers[evt.topic * MAX_HANDLERS + h];
      if x != 0 {
        var n := callCount;
        callCount := callCount + 1;
        bus := bus.(calls := bus.calls + [Call(x, evt)]);
        Perform(react(n, x, evt));
      }
    }

    /** One round of the drain loop: the event is off the queue before its handlers run, and the
        handler table is read anew for every slot. */
    method DispatchNext(react: Reaction)
      requires Valid() && qCount > 0
      modifies this, queue, handlers
      ensures Valid() && bus == Dispatch(old(bus), react)
    {
      hide CallSlot, Ring, At;
      RingPop(queue[..], qHead, qCount);
      PopFifo(bus);
      var evt := queue[qHead];
      qHead := (qHead + 1) % QUEUE_DEPTH;
      qCount := qCount - 1;
      bus := Pop(bus);
      var h := 0;
      while h < MAX_HANDLERS
        invariant 0 <= h <= MAX_HANDLERS && Valid()
        invariant Dispatch(old(bus), react) == CallFrom(bus, evt, h, react)
      {
        Invoke(evt, h, react);
        h := h + 1;
      }
    }

    /** What kernel code outside a handler does to the bus: uses of it and rounds of the drain loop. */
    method Act(steps: seq<Step>, react: Reaction)
      requires Valid()
      modifies this, queue, handlers
      ensures Valid() && bus == Run(old(bus), steps, react)
      decreases |steps|
    {
      hide Do, Dispatch, DoAll, Ring;
      if steps != [] {
        if steps[0].Use? {
          OneOp(bus, steps[0].op);
          Perform([steps[0].op]);
        } else if qCount > 0 {
          DispatchNext(react);
        } else {
          NoEvent(bus, react);
        }
        Act(steps[1..], react);
      }
    }

    /** eventbus_process, whenever the loop ends at all. */
    method Process(react: Reaction)
      requires Valid() && Drains(bus, react)
      modifies this, queue, handlers
      ensures Valid() && bus == Drained(old(bus), react) && qCount == 0
    {
      hide Dispatch, Rounds, Drained;
      ghost var n: nat :| Rounds(bus, react, n).pending == [];
      DrainedIs(bus, react, n);
      while qCount > 0
        invariant Valid() && Rounds(bus, react, n) == Drained(old(bus), react)
        decreases n
      {
        RoundsNone(bus, react);
        RoundsShift(bus, react, n - 1);
        DispatchNext(react);
        n := n - 1;
      }
      RoundsNone(bus, react);
      RoundsStop(bus, react, 0, n);
    }
  }

  lemma PopFifo(b: Bus)
    requires WellFormed(b) && Fifo(b) && b.pending != []
    ensures Fifo(Pop(b))
  {
    assert b.pending == [b.pending[0]] + b.pending[1..];
  }

  lemma OneOp(b: Bus, op: Op)
    requires WellFormed(b)
    ensures DoAll(b, [op]) == Do(b, op).0
  {
    assert [op][1..] == [];
  }

  lemma NoEvent(b: Bus, react: Reaction)
    requires WellFormed(b) && b.pending == []
    ensures Dispatch(b, react) == b
  {}
}

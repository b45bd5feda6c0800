/** Who is called for an event, and what subscribing and unsubscribing undo. */
module BusLaws {
  import opened Common
  import opened BusSpec

  /** Slots without a handler do nothing. */
  lemma {:induction false} IdleSlots(b: Bus, e: Event, h: nat, react: Reaction)
    requires WellFormed(b) && e.topic < MAX_TOPICS && h <= MAX_HANDLERS
    requires forall i :: h <= i < MAX_HANDLERS ==> b.handlers[SlotOf(e.topic, i)] == 0
    ensures CallFrom(b, e, h, react) == b
    decreases MAX_HANDLERS - h
  {
    if h < MAX_HANDLERS { IdleSlots(b, e, h + 1, react); }
  }

  lemma DoAllOne(b: Bus, op: Op)
    requires WellFormed(b)
    ensures DoAll(b, [op]) == Do(b, op).0
  {
    assert [op][1..] == [];
  }

  // ----- who is called

  /** The non-NULL handlers of `topic` from slot `h` on, in slot order. */
  function Subscribers(table: seq<Handler>, topic: nat, h: nat): seq<Handler>
    requires |table| == MAX_TOPICS * MAX_HANDLERS && topic < MAX_TOPICS && h <= MAX_HANDLERS
    decreases MAX_HANDLERS - h
  {
    if h == MAX_HANDLERS then []
    else (if table[SlotOf(topic, h)] == 0 then [] else [table[SlotOf(topic, h)]]) + Subscribers(table, topic, h + 1)
  }

  function Calls(hs: seq<Handler>, e: Event): seq<Call> {
    seq(|hs|, i requires 0 <= i < |hs| => Call(hs[i], e))
  }

  ghost predicate OnlyPublishes(react: Reaction) {
    forall n, h, e, i :: 0 <= i < |react(n, h, e)| ==> react(n, h, e)[i].Publish?
  }

  lemma {:induction false} PublishesKeepTable(b: Bus, ops: seq<Op>)
    requires WellFormed(b) && forall i :: 0 <= i < |ops| ==> ops[i].Publish?
    ensures DoAll(b, ops).handlers == b.handlers && DoAll(b, ops).calls == b.calls
    decreases |ops|
  {
    if ops != [] { PublishesKeepTable(Do(b, ops[0]).0, ops[1..]); }
  }

  lemma SlotReaches(b: Bus, e: Event, h: nat, react: Reaction)
    requires WellFormed(b) && e.topic < MAX_TOPICS && h < MAX_HANDLERS && OnlyPublishes(react)
    ensures var x, b' := b.handlers[SlotOf(e.topic, h)], CallSlot(b, e, h, react);
            b'.handlers == b.handlers && b'.calls == b.calls + Calls(if x == 0 then [] else [x], e)
  {
    hide DoAll;
    var x := b.handlers[SlotOf(e.topic, h)];
    if x != 0 { PublishesKeepTable(b.(calls := b.calls + [Call(x, e)]), react(|b.calls|, x, e)); }
  }

  lemma CallsNone(e: Event)
    ensures Calls([], e) == []
  {}

  lemma CallsConcat(hs: seq<Handler>, gs: seq<Handler>, e: Event)
    ensures Calls(hs + gs, e) == Calls(hs, e) + Calls(gs, e)
  {}

  /** If handlers leave the subscriptions alone, an event reaches every subscriber of its topic
      exactly once, in slot order. */
  lemma {:induction false} ReachesEverySubscriber(b: Bus, e: Event, h: nat, react: Reaction)
    requires WellFormed(b) && e.topic < MAX_TOPICS && h <= MAX_HANDLERS && OnlyPublishes(react)
    ensures CallFrom(b, e, h, react).calls == b.calls + Calls(Subscribers(b.handlers, e.topic, h), e)
    ensures CallFrom(b, e, h, react).handlers == b.handlers
    decreases MAX_HANDLERS - h
  {
    hide CallSlot, OnlyPublishes, Calls;
    CallsNone(e);
    if h < MAX_HANDLERS {
      SlotReaches(b, e, h, react);
      ReachesEverySubscriber(CallSlot(b, e, h, react), e, h + 1, react);
      var x := b.handlers[SlotOf(e.topic, h)];
      CallsConcat(if x == 0 then [] else [x], Subscribers(b.handlers, e.topic, h + 1), e);
    }
  }

  // ----- subscribing and unsubscribing

  lemma FindSlotIs(table: seq<Handler>, topic: nat, x: Handler, h: nat, r: nat)
    requires |table| == MAX_TOPICS * MAX_HANDLERS && topic < MAX_TOPICS && h <= r < MAX_HANDLERS
    requires table[SlotOf(topic, r)] == x && forall i :: h <= i < r ==> table[SlotOf(topic, i)] != x
    ensures BusSpec.FindSlot(table, topic, x, h) == r
  {}

  /** Unsubscribing undoes a subscription exactly when the handler was not already in an earlier slot
      of the topic; otherwise it is the earlier slot that is emptied. */
  lemma UnsubscribeUndoes(b: Bus, topic: nat, x: Handler)
    requires WellFormed(b) && topic < MAX_TOPICS && x != 0
    requires Do(b, Subscribe(topic, x)).1 == OK
    ensures Do(Do(b, Subscribe(topic, x)).0, Unsubscribe(topic, x)).1 == OK
    ensures Do(Do(b, Subscribe(topic, x)).0, Unsubscribe(topic, x)).0 == b
       <==> BusSpec.FindSlot(b.handlers, topic, x, 0) > BusSpec.FindSlot(b.handlers, topic, 0, 0)
  {
    var f, g := BusSpec.FindSlot(b.handlers, topic, 0, 0), BusSpec.FindSlot(b.handlers, topic, x, 0);
    var b1 := Do(b, Subscribe(topic, x)).0;
    if g > f {
      FindSlotIs(b1.handlers, topic, x, 0, f);
      assert b1.handlers[SlotOf(topic, f) := 0] == b.handlers;
    } else {
      FindSlotIs(b1.handlers, topic, x, 0, g);
      assert b1.handlers[SlotOf(topic, g) := 0][SlotOf(topic, f)] == x;
    }
  }

  /** A handler subscribed twice and unsubscribed once sits in the second slot, not in the first. */
  lemma SubscribedTwice(topic: nat, x: Handler)
    requires topic < MAX_TOPICS && x != 0
    ensures var b := Do(Empty(), Subscribe(topic, x)).0;
            && Do(b, Subscribe(topic, x)).1 == OK
            && Do(Do(b, Subscribe(topic, x)).0, Unsubscribe(topic, x)).0 != b
  {
    hide Empty;
    FindSlotIs(Empty().handlers, topic, 0, 0, 0);
    var b := Do(Empty(), Subscribe(topic, x)).0;
    FindSlotIs(b.handlers, topic, 0, 0, 1);
    FindSlotIs(b.handlers, topic, x, 0, 0);
    UnsubscribeUndoes(b, topic, x);
  }
}

/** When the drain loop ends. */
module BusDrain {
  import opened BusSpec
  import opened BusLaws

  // ----- rounds of the loop

  function Rounds(b: Bus, react: Reaction, n: nat): (b': Bus)
    requires WellFormed(b)
    ensures WellFormed(b')
  {
    if n == 0 then b else Dispatch(Rounds(b, react, n - 1), react)
  }

  /** The loop ends: after some number of rounds the queue is empty. */
  ghost predicate Drains(b: Bus, react: Reaction)
    requires WellFormed(b)
  {
    exists n: nat :: Rounds(b, react, n).pending == []
  }

  lemma {:induction false} RoundsShift(b: Bus, react: Reaction, n: nat)
    requires WellFormed(b)
    ensures Rounds(b, react, n + 1) == Rounds(Dispatch(b, react), react, n)
  {
    hide Dispatch;
    if n > 0 { RoundsShift(b, react, n - 1); }
  }

  /** Rounds on an empty queue change nothing. */
  lemma {:induction false} RoundsStop(b: Bus, react: Reaction, m: nat, n: nat)
    requires WellFormed(b) && m <= n && Rounds(b, react, m).pending == []
    ensures Rounds(b, react, n) == Rounds(b, react, m)
  {
    hide CallFrom;
    if m < n { RoundsStop(b, react, m, n - 1); }
  }

  /** The state in which the drain loop stops. */
  ghost function Drained(b: Bus, react: Reaction): (b': Bus)
    requires WellFormed(b) && Drains(b, react)
    ensures WellFormed(b') && b'.pending == []
  {
    var n: nat :| Rounds(b, react, n).pending == [];
    Rounds(b, react, n)
  }

  lemma DrainedIs(b: Bus, react: Reaction, n: nat)
    requires WellFormed(b) && Rounds(b, react, n).pending == []
    ensures Drains(b, react) && Drained(b, react) == Rounds(b, react, n)
  {
    hide Rounds;
    var m: nat :| Rounds(b, react, m).pending == [] && Drained(b, react) == Rounds(b, react, m);
    if m <= n { RoundsStop(b, react, m, n); } else { RoundsStop(b, react, n, m); }
  }

  lemma {:induction false} RoundsFifo(b: Bus, react: Reaction, n: nat)
    requires WellFormed(b) && Fifo(b)
    ensures Fifo(Rounds(b, react, n))
  {
    hide Dispatch;
    if n > 0 {
      RoundsFifo(b, react, n - 1);
      DispatchIsFifo(Rounds(b, react, n - 1), react);
    }
  }

  /** A drain that ends has dispatched every accepted event, and nothing else. */
  lemma DrainDispatchesAll(b: Bus, react: Reaction)
    requires WellFormed(b) && Fifo(b) && Drains(b, react)
    ensures Drained(b, react).dispatched == Drained(b, react).accepted
  {
    hide Rounds;
    var n: nat :| Rounds(b, react, n).pending == [];
    DrainedIs(b, react, n);
    RoundsFifo(b, react, n);
  }

  // ----- a ranking makes it end

  /** Handlers publish only below the rank of the topic they serve. What is published to a topic
      that does not exist is refused and does not matter. */
  ghost predicate Ranked(react: Reaction, rank: nat -> nat) {
    forall n, h, e, i :: 0 <= i < |react(n, h, e)| && IsPublish(react(n, h, e)[i]) && e.topic < MAX_TOPICS ==>
      rank(react(n, h, e)[i].topic) < rank(e.topic)
  }

  predicate IsPublish(op: Op) { op.Publish? && op.topic < MAX_TOPICS }

  function Pow(r: nat): (p: nat)
    ensures p >= 1
  {
    if r == 0 then 1 else 65 * Pow(r - 1)
  }

  /** An event weighs more than a full queue of events of lower rank. */
  function Weight(es: seq<Event>, rank: nat -> nat): nat {
    if es == [] then 0 else Pow(rank(es[0].topic)) + Weight(es[1..], rank)
  }

  lemma {:induction false} WeightConcat(es: seq<Event>, fs: seq<Event>, rank: nat -> nat)
    ensures Weight(es + fs, rank) == Weight(es, rank) + Weight(fs, rank)
  {
    if es == [] {
      assert es + fs == fs;
    } else {
      assert (es + fs)[1..] == es[1..] + fs;
      WeightConcat(es[1..], fs, rank);
    }
  }

  lemma {:induction false} PowMonotone(a: nat, b: nat)
    requires a <= b
    ensures Pow(a) <= Pow(b)
  {
    if a < b { PowMonotone(a, b - 1); }
  }

  lemma {:induction false} WeightBound(es: seq<Event>, rank: nat -> nat, r: nat)
    requires forall i :: 0 <= i < |es| ==> rank(es[i].topic) <= r
    ensures Weight(es, rank) <= |es| * Pow(r)
  {
    if es != [] {
      WeightBound(es[1..], rank, r);
      PowMonotone(rank(es[0].topic), r);
      assert |es| * Pow(r) == Pow(r) + (|es| - 1) * Pow(r);
    }
  }

  /** The events that `b'` has beyond `b` all rank below `r`. */
  ghost predicate AddsBelow(b: Bus, b': Bus, rank: nat -> nat, r: nat) {
    b.pending <= b'.pending && forall i :: |b.pending| <= i < |b'.pending| ==> rank(b'.pending[i].topic) < r
  }

  lemma {:induction false} DoAllAddsBelow(b: Bus, ops: seq<Op>, rank: nat -> nat, r: nat)
    requires WellFormed(b) && forall i :: 0 <= i < |ops| && ops[i].Publish? && ops[i].topic < MAX_TOPICS ==> rank(ops[i].topic) < r
    ensures AddsBelow(b, DoAll(b, ops), rank, r)
    decreases |ops|
  {
    if ops != [] { DoAllAddsBelow(Do(b, ops[0]).0, ops[1..], rank, r); }
  }

  lemma CallSlotAddsBelow(b: Bus, e: Event, h: nat, react: Reaction, rank: nat -> nat)
    requires WellFormed(b) && e.topic < MAX_TOPICS && h < MAX_HANDLERS && Ranked(react, rank)
    ensures AddsBelow(b, CallSlot(b, e, h, react), rank, rank(e.topic))
  {
    hide DoAll;
    var x := b.handlers[SlotOf(e.topic, h)];
    if x != 0 {
      DoAllAddsBelow(b.(calls := b.calls + [Call(x, e)]), react(|b.calls|, x, e), rank, rank(e.topic));
    }
  }

  lemma {:induction false} CallFromAddsBelow(b: Bus, e: Event, h: nat, react: Reaction, rank: nat -> nat)
    requires WellFormed(b) && e.topic < MAX_TOPICS && h <= MAX_HANDLERS && Ranked(react, rank)
    ensures AddsBelow(b, CallFrom(b, e, h, react), rank, rank(e.topic))
    decreases MAX_HANDLERS - h
  {
    hide CallSlot, Ranked;
    if h < MAX_HANDLERS {
      CallSlotAddsBelow(b, e, h, react, rank);
      CallFromAddsBelow(CallSlot(b, e, h, react), e, h + 1, react, rank);
    }
  }

  /** A dispatch may lengthen the queue, but it makes it lighter: the queue bound limits how many
      lighter events one dispatch can add. */
  lemma DispatchDecreases(b: Bus, react: Reaction, rank: nat -> nat)
    requires WellFormed(b) && b.pending != [] && Ranked(react, rank)
    ensures Weight(Dispatch(b, react).pending, rank) < Weight(b.pending, rank)
  {
    hide CallFrom, Ranked;
    var b1, e := Pop(b), b.pending[0];
    var b' := Dispatch(b, react);
    var r := rank(e.topic);
    CallFromAddsBelow(b1, e, 0, react, rank);
    var added := b'.pending[|b1.pending|..];
    assert b'.pending == b1.pending + added;
    WeightConcat(b1.pending, added, rank);
    assert forall i :: 0 <= i < |added| ==> rank(added[i].topic) < r;
    if added == [] {
      assert Weight(added, rank) == 0;
    } else {
      assert rank(added[0].topic) < r;
      WeightBound(added, rank, r - 1);
      assert |added| * Pow(r - 1) <= 64 * Pow(r - 1) by { Scale(|added|, 64, Pow(r - 1)); }
    }
  }

  lemma Scale(a: nat, b: nat, p: nat)
    requires a <= b
    ensures a * p <= b * p
  {}

  /** With ranked handlers the loop ends. */
  lemma {:induction false} RankedDrains(b: Bus, react: Reaction, rank: nat -> nat)
    requires WellFormed(b) && Ranked(react, rank)
    ensures Drains(b, react)
    decreases Weight(b.pending, rank)
  {
    hide Dispatch, Ranked, Rounds;
    if b.pending == [] {
      RoundsNone(b, react);
    } else {
      DispatchDecreases(b, react, rank);
      RankedDrains(Dispatch(b, react), react, rank);
      var n: nat :| Rounds(Dispatch(b, react), react, n).pending == [];
      RoundsShift(b, react, n);
    }
  }

  lemma RoundsNone(b: Bus, react: Reaction)
    requires WellFormed(b)
    ensures Rounds(b, react, 0) == b
  {}

  // ----- the exact condition, over what handlers may publish

  /** `may(t, u)`: a handler of topic `t` may publish to topic `u`. */
  type Relation = (nat, nat) -> bool

  ghost predicate Within(react: Reaction, may: Relation) {
    forall n, h, e, i :: 0 <= i < |react(n, h, e)| && IsPublish(react(n, h, e)[i]) && e.topic < MAX_TOPICS ==>
      may(e.topic, react(n, h, e)[i].topic)
  }

  ghost predicate RanksOn(s: set<nat>, may: Relation, rank: nat -> nat) {
    forall t, u :: t in s && u in s && may(t, u) ==> rank(u) < rank(t)
  }

  function Below(n: nat): (s: set<nat>)
    ensures forall t: nat :: t in s <==> t < n
  {
    if n == 0 then {} else Below(n - 1) + {n - 1}
  }

  function Topics(): (s: set<nat>)
    ensures forall t: nat :: t in s <==> t < MAX_TOPICS
  {
    Below(MAX_TOPICS)
  }

  ghost predicate HasRanking(may: Relation) {
    exists rank: nat -> nat :: RanksOn(Topics(), may, rank)
  }

  /** Every topic of `c` may publish into `c`. */
  ghost predicate Recurrent(c: set<nat>, may: Relation) {
    c != {} && forall t :: t in c ==> exists u :: u in c && may(t, u)
  }

  /** Topic `t` of `s` may not publish into `s`. */
  ghost predicate Final(s: set<nat>, may: Relation, t: nat) { t in s && forall u :: u in s ==> !may(t, u) }

  lemma NoneFinal(s: set<nat>, may: Relation)
    requires s != {} && forall t :: !Final(s, may, t)
    ensures Recurrent(s, may)
  {
    forall t | t in s ensures exists u :: u in s && may(t, u) { assert !Final(s, may, t); }
  }

  /** Topic `t` at the bottom, all others one up. */
  function Raise(rank: nat -> nat, t: nat): nat -> nat {
    (x: nat) => if x == t then 0 else rank(x) + 1
  }

  lemma RaiseRanks(s: set<nat>, may: Relation, rank: nat -> nat, t: nat)
    requires Final(s, may, t) && RanksOn(s - {t}, may, rank)
    ensures RanksOn(s, may, Raise(rank, t))
  {
    forall x, y | x in s && y in s && may(x, y) ensures Raise(rank, t)(y) < Raise(rank, t)(x) {
      if y != t { assert y in s - {t} && x in s - {t}; }
    }
  }

  /** A finite set of topics has a ranking or a recurrent part. */
  lemma {:induction false} RankingOrRecurrent(s: set<nat>, may: Relation) returns (rank: nat -> nat, c: set<nat>)
    ensures RanksOn(s, may, rank) || (c <= s && Recurrent(c, may))
    decreases |s|
  {
    hide RanksOn, Recurrent, Raise;
    if s == {} {
      rank, c := (t: nat) => 0, s;
      NothingRanked(may, rank);
    } else if t :| Final(s, may, t) {
      rank, c := RankingOrRecurrent(s - {t}, may);
      if RanksOn(s - {t}, may, rank) {
        RaiseRanks(s, may, rank, t);
        rank := Raise(rank, t);
      }
    } else {
      rank, c := (t: nat) => 0, s;
      NoneFinal(s, may);
    }
  }

  lemma NothingRanked(may: Relation, rank: nat -> nat)
    ensures RanksOn({}, may, rank)
  {}

  /** A topic of `c` that `t` may publish to. */
  ghost function Successor(c: set<nat>, may: Relation, t: nat): (u: nat)
    requires Recurrent(c, may)
    ensures t in c ==> u in c && may(t, u)
  {
    if t in c then (var u :| u in c && may(t, u); u) else t
  }

  /** The reaction that answers every event of `c` with one event of a successor topic. */
  ghost function Chase(c: set<nat>, may: Relation): Reaction
    requires Recurrent(c, may)
  {
    (n: nat, h: Handler, e: Event) => if e.topic in c then [Publish(Successor(c, may, e.topic), e.data, e.timestamp)] else []
  }

  /** Handler 1 alone serves every topic of `c`, and one event of `c` is pending. */
  ghost predicate Chasing(b: Bus, c: set<nat>) {
    && WellFormed(b) && c <= Topics() && |b.pending| == 1 && b.pending[0].topic in c
    && forall t, h :: t in c && 0 <= h < MAX_HANDLERS ==> b.handlers[SlotOf(t, h)] == if h == 0 then 1 else 0
  }

  lemma ChaseStep(b: Bus, c: set<nat>, may: Relation)
    requires Recurrent(c, may) && Chasing(b, c)
    ensures Chasing(Dispatch(b, Chase(c, may)), c)
  {
    hide CallFrom, DoAll, Recurrent, Successor;
    var b1, e, react := Pop(b), b.pending[0], Chase(c, may);
    assert b1.handlers[SlotOf(e.topic, 0)] == 1;
    CallFromFirst(b1, e, react);
    var c1 := b1.(calls := b1.calls + [Call(1, e)]);
    var op := Publish(Successor(c, may, e.topic), e.data, e.timestamp);
    DoAllOne(c1, op);
    assert CallSlot(b1, e, 0, react) == Do(c1, op).0;
    IdleSlots(Do(c1, op).0, e, 1, react);
  }

  lemma CallFromFirst(b: Bus, e: Event, react: Reaction)
    requires WellFormed(b) && e.topic < MAX_TOPICS
    ensures CallFrom(b, e, 0, react) == CallFrom(CallSlot(b, e, 0, react), e, 1, react)
  {}

  lemma {:induction false} ChaseNeverDrains(b: Bus, c: set<nat>, may: Relation, n: nat)
    requires Recurrent(c, may) && Chasing(b, c)
    ensures Chasing(Rounds(b, Chase(c, may), n), c)
  {
    hide Dispatch, Chase, Recurrent;
    if n > 0 {
      ChaseNeverDrains(b, c, may, n - 1);
      ChaseStep(Rounds(b, Chase(c, may), n - 1), c, may);
    }
  }

  lemma ChaseWithin(c: set<nat>, may: Relation)
    requires Recurrent(c, may)
    ensures Within(Chase(c, may), may)
  {
    hide Recurrent, Successor;
  }

  // ----- such a bus is reached by subscribing and publishing

  /** Subscribes handler 1 to every topic of `c` below `n`. */
  function SubscribeAll(c: set<nat>, n: nat): seq<Step> {
    if n == 0 then [] else SubscribeAll(c, n - 1) + if n - 1 in c then [Use(Subscribe(n - 1, 1))] else []
  }

  ghost predicate Serves(b: Bus, c: set<nat>, n: nat) {
    && WellFormed(b) && b.pending == []
    && forall t, h :: 0 <= t < MAX_TOPICS && 0 <= h < MAX_HANDLERS ==>
         b.handlers[SlotOf(t, h)] == if t < n && t in c && h == 0 then 1 else 0
  }

  lemma {:induction false} RunConcat(b: Bus, xs: seq<Step>, ys: seq<Step>, react: Reaction)
    requires WellFormed(b)
    ensures Run(b, xs + ys, react) == Run(Run(b, xs, react), ys, react)
    decreases |xs|
  {
    hide Next;
    if xs == [] {
      assert xs + ys == ys;
    } else {
      assert (xs + ys)[1..] == xs[1..] + ys;
      RunConcat(Next(b, xs[0], react), xs[1..], ys, react);
    }
  }

  lemma RunNone(b: Bus, react: Reaction)
    requires WellFormed(b)
    ensures Run(b, [], react) == b
  {}

  lemma RunOne(b: Bus, x: Step, react: Reaction)
    requires WellFormed(b)
    ensures Run(b, [x], react) == Next(b, x, react)
  {
    assert [x][1..] == [];
  }

  lemma SubscribeServes(b: Bus, c: set<nat>, n: nat)
    requires Serves(b, c, n) && n < MAX_TOPICS && n in c
    ensures Serves(Do(b, Subscribe(n, 1)).0, c, n + 1)
  {
    FindSlotIs(b.handlers, n, 0, 0, 0);
  }

  lemma NothingServed(c: set<nat>, react: Reaction)
    ensures Serves(Run(Empty(), SubscribeAll(c, 0), react), c, 0)
  {}

  lemma NotServed(b: Bus, c: set<nat>, n: nat)
    requires Serves(b, c, n) && n !in c
    ensures Serves(b, c, n + 1)
  {}

  lemma {:induction false} SubscribedServes(c: set<nat>, n: nat, react: Reaction)
    requires n <= MAX_TOPICS
    ensures Serves(Run(Empty(), SubscribeAll(c, n), react), c, n)
  {
    hide Do, Run, Serves;
    if n == 0 {
      NothingServed(c, react);
    } else {
      SubscribedServes(c, n - 1, react);
      var steps, b := SubscribeAll(c, n - 1), Run(Empty(), SubscribeAll(c, n - 1), react);
      if n - 1 in c {
        RunConcat(Empty(), steps, [Use(Subscribe(n - 1, 1))], react);
        RunOne(b, Use(Subscribe(n - 1, 1)), react);
        SubscribeServes(b, c, n - 1);
      } else {
        assert SubscribeAll(c, n) == steps;
        NotServed(b, c, n - 1);
      }
    }
  }

  /** The run that sets the chase off. */
  lemma ChaseReachable(c: set<nat>, react: Reaction) returns (steps: seq<Step>)
    requires c != {} && c <= Topics()
    ensures Chasing(Run(Empty(), steps, react), c)
  {
    hide Run;
    var t :| t in c;
    var subs := SubscribeAll(c, MAX_TOPICS);
    SubscribedServes(c, MAX_TOPICS, react);
    steps := subs + [Use(Publish(t, 0, 0))];
    RunConcat(Empty(), subs, [Use(Publish(t, 0, 0))], react);
    RunOne(Run(Empty(), subs, react), Use(Publish(t, 0, 0)), react);
  }

  /** If handlers may publish as `may` allows and that has no ranking, some handlers that keep to it
      bring the kernel, from boot on, into a drain loop that never ends. */
  lemma UnrankedMayNotEnd(may: Relation) returns (react: Reaction, steps: seq<Step>)
    requires !HasRanking(may)
    ensures Within(react, may) && !Drains(Run(Empty(), steps, react), react)
  {
    hide Dispatch, Chase;
    var rank, c := RankingOrRecurrent(Topics(), may);
    assert !RanksOn(Topics(), may, rank);
    react := Chase(c, may);
    ChaseWithin(c, may);
    steps := ChaseReachable(c, react);
    var b := Run(Empty(), steps, react);
    forall n: nat ensures Rounds(b, react, n).pending != [] { ChaseNeverDrains(b, c, may, n); }
  }

  /** The exact condition: the drain loop ends for all handlers that keep to `may`, from every state of
      every run, if and only if `may` has a ranking. */
  lemma DrainEndsIffRanked(may: Relation)
    ensures HasRanking(may) <==>
              forall react: Reaction, b: Bus :: Within(react, may) && WellFormed(b) ==> Drains(b, react)
    ensures HasRanking(may) <==>
              forall react: Reaction, steps: seq<Step> :: Within(react, may) ==> Drains(Run(Empty(), steps, react), react)
  {
    hide Within, Drains, RanksOn, Run;
    if HasRanking(may) {
      var rank: nat -> nat :| RanksOn(Topics(), may, rank);
      forall react: Reaction, b: Bus | Within(react, may) && WellFormed(b) ensures Drains(b, react) {
        RankingRanks(react, may, rank);
        RankedDrains(b, react, rank);
      }
    } else {
      var react, steps := UnrankedMayNotEnd(may);
    }
  }

  lemma RankingRanks(react: Reaction, may: Relation, rank: nat -> nat)
    requires Within(react, may) && RanksOn(Topics(), may, rank)
    ensures Ranked(react, rank)
  {}
}

/** What the callbacks of a tick do to the event bus. */
module TickTalk {
  import opened SchedSpec
  import opened SchedLaws
  import B = BusSpec
  import BD = BusDrain

  /** What the n-th task callback, a call of `fn`, does to the event bus; the drain loop is a row of
      single rounds. */
  type Talk = (nat, nat) -> seq<B.Step>

  /** The bus after the callback of slot `i`, if it is due. */
  function TalkSlot(s: Sched, b: B.Bus, i: nat, talk: Talk, handlers: B.Reaction): (b': B.Bus)
    requires WellFormed(s) && B.WellFormed(b) && i < MAX_TASKS
    ensures B.WellFormed(b')
  {
    if Due(s.tasks[i], s.tick) then B.Run(b, talk(s.calls, s.tasks[i].fn), handlers) else b
  }

  /** The bus after the callbacks of the slots from `i` on, each due or not when its turn comes. */
  function TalkFrom(s: Sched, b: B.Bus, i: nat, react: Reaction, talk: Talk, handlers: B.Reaction): (b': B.Bus)
    requires WellFormed(s) && B.WellFormed(b) && i <= MAX_TASKS && AllOps(react)
    ensures B.WellFormed(b')
    decreases MAX_TASKS - i
  {
    if i == MAX_TASKS then b
    else TalkFrom(RunSlot(s, i, react), TalkSlot(s, b, i, talk, handlers), i + 1, react, talk, handlers)
  }

  /** Everything the callbacks of the slots from `i` on do to the bus, one after the other. */
  function Said(s: Sched, i: nat, react: Reaction, talk: Talk): seq<B.Step>
    requires WellFormed(s) && i <= MAX_TASKS && AllOps(react)
    decreases MAX_TASKS - i
  {
    if i == MAX_TASKS then [] else
    (if Due(s.tasks[i], s.tick) then talk(s.calls, s.tasks[i].fn) else []) + Said(RunSlot(s, i, react), i + 1, react, talk)
  }

  /** Whatever the callbacks do to the task table, the bus runs through what they say, in slot order. */
  lemma {:induction false} TalkIsRun(s: Sched, b: B.Bus, i: nat, react: Reaction, talk: Talk, handlers: B.Reaction)
    requires WellFormed(s) && B.WellFormed(b) && i <= MAX_TASKS && AllOps(react)
    ensures TalkFrom(s, b, i, react, talk, handlers) == B.Run(b, Said(s, i, react, talk), handlers)
    decreases MAX_TASKS - i
  {
    hide RunSlot, AllOps, B.Run, Due;
    if i == MAX_TASKS {
      BD.RunNone(b, handlers);
    } else {
      var s1, said := RunSlot(s, i, react), if Due(s.tasks[i], s.tick) then talk(s.calls, s.tasks[i].fn) else [];
      BD.RunNone(b, handlers);
      TalkIsRun(s1, TalkSlot(s, b, i, talk, handlers), i + 1, react, talk, handlers);
      BD.RunConcat(b, said, Said(s1, i + 1, react, talk), handlers);
    }
  }

  /** The same for the slots due in `s`, without looking at what the callbacks do to the table. */
  function DueTalk(s: Sched, i: nat, calls: nat, talk: Talk): seq<B.Step>
    requires |s.tasks| == MAX_TASKS && i <= MAX_TASKS
    decreases MAX_TASKS - i
  {
    if i == MAX_TASKS then []
    else if Due(s.tasks[i], s.tick) then talk(calls, s.tasks[i].fn) + DueTalk(s, i + 1, calls + 1, talk)
    else DueTalk(s, i + 1, calls, talk)
  }

  lemma {:induction false} DueTalkSame(s: Sched, s': Sched, i: nat, calls: nat, talk: Talk)
    requires |s.tasks| == |s'.tasks| == MAX_TASKS && i <= MAX_TASKS && s'.tick == s.tick
    requires forall j :: i <= j < MAX_TASKS ==> s'.tasks[j] == s.tasks[j]
    ensures DueTalk(s', i, calls, talk) == DueTalk(s, i, calls, talk)
    decreases MAX_TASKS - i
  {
    hide Due;
    if i < MAX_TASKS { DueTalkSame(s, s', i + 1, if Due(s.tasks[i], s.tick) then calls + 1 else calls, talk); }
  }

  lemma QuietSlot(s: Sched, i: nat, react: Reaction)
    requires WellFormed(s) && i < MAX_TASKS && AllOps(react) && Quiet(react)
    ensures var s' := RunSlot(s, i, react);
            && s'.tick == s.tick && s'.calls == (if Due(s.tasks[i], s.tick) then s.calls + 1 else s.calls)
            && forall j :: 0 <= j < MAX_TASKS && j != i ==> s'.tasks[j] == s.tasks[j]
  {
    hide Due, AllOps;
    assert react(s.calls, s.tasks[i].fn) == [];
  }

  /** With callbacks that leave the table alone, the callbacks made are those of the slots due when the
      tick begins, in slot order. */
  lemma {:induction false} QuietSaid(s: Sched, i: nat, react: Reaction, talk: Talk)
    requires WellFormed(s) && i <= MAX_TASKS && AllOps(react) && Quiet(react)
    ensures Said(s, i, react, talk) == DueTalk(s, i, s.calls, talk)
    decreases MAX_TASKS - i
  {
    hide Due, AllOps, Quiet, RunSlot;
    if i < MAX_TASKS {
      var s1 := RunSlot(s, i, react);
      QuietSlot(s, i, react);
      QuietSaid(s1, i + 1, react, talk);
      DueTalkSame(s, s1, i + 1, s1.calls, talk);
    }
  }
}

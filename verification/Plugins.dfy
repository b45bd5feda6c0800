/** The plugin manager: a table of slots that the operations search and update in place. */
module Plugins {
  import opened Bytes
  import opened Common
  import opened KString
  import opened PluginSpec
  import opened PluginLaws

  class PluginManager {
    const table: array<Slot>
    var count: int
    /** Number of callbacks called so far: selects what the next one answers. */
    var asked: nat
    ghost var past: seq<Registration>
    var published: seq<Event>

    ghost function State(): Manager
      reads this, table
    {
      Manager(table[..], count, asked, past, published)
    }

    ghost predicate Valid()
      reads this, table
    {
      table.Length == PLUGIN_MAX && Inv(State())
    }

    /** plugin_manager_init on zeroed memory. */
    constructor ()
      ensures Valid() && fresh(table) && Fresh(State()) && asked == 0 && published == []
    {
      table := new Slot[PLUGIN_MAX](_ => Slot(Desc(seq(NAME_LEN, _ => 0), 0, 0, 0), UNLOADED, 0, 0, 0, History([], [])));
      count, asked, past, published := 0, 0, [], [];
      new;
      FreshInv(State());
    }

    method FindPlugin(name: seq<byte>) returns (i: nat)
      requires table.Length == PLUGIN_MAX && WellFormed(State()) && IsName(name)
      ensures i == Find(table[..], name, 0)
    {
      hide CStr, Cut;
      i := 0;
      while i < PLUGIN_MAX
        invariant 0 <= i <= PLUGIN_MAX && Find(table[..], name, 0) == Find(table[..], name, i)
      {
        if table[i].state != UNLOADED {
          var c := StrNCmp(table[i].desc.name, name, NAME_LEN);
          if c == 0 { return; }
        }
        i := i + 1;
      }
    }

    method Register(desc: Desc, now: int, ghost answers: Answers) returns (r: Status)
      requires Valid() && |desc.name| == NAME_LEN
      modifies this, table
      ensures Valid() && (State(), r) == Do(old(State()), Op.Register(desc, now), answers)
    {
      hide Inv, Find, Key, CStr, Cut;
      InvWellFormed(State());
      DoKeeps(State(), Op.Register(desc, now), answers);
      if count >= PLUGIN_MAX { return NOSLOT; }
      var twin := FindPlugin(desc.name);
      if twin < PLUGIN_MAX { return ERR; }
      var slot := 0;
      while slot < PLUGIN_MAX && table[slot].state != UNLOADED
        invariant 0 <= slot <= PLUGIN_MAX && FindUnloaded(table[..], 0) == FindUnloaded(table[..], slot)
        modifies {}
      {
        slot := slot + 1;
      }
      FreeSlotExists(State());
      table[slot] := Slot(desc, LOADED, now, 0, 0, History([], []));
      count := count + 1;
      published := published + [Loaded(slot)];
      return OK;
    }

    method Unregister(name: seq<byte>, ghost answers: Answers) returns (r: Status)
      requires Valid() && IsName(name)
      modifies this, table
      ensures Valid() && (State(), r) == Do(old(State()), Op.Unregister(name), answers)
    {
      hide Inv, Find, Key, CStr, Cut;
      InvWellFormed(State());
      DoKeeps(State(), Op.Unregister(name), answers);
      var i := FindPlugin(name);
      if i == PLUGIN_MAX { return NOTFOUND; }
      past := past + [Registration(table[i].desc, ShutDown(table[i]))];
      if table[i].state == ACTIVE && table[i].desc.shutdown != 0 {
        asked := asked + 1;
      }
      published := published + [Unloaded];
      table[i] := table[i].(state := UNLOADED, history := History([], []));
      count := count - 1;
      return OK;
    }

    method Activate(name: seq<byte>, answers: Answers) returns (r: Status)
      requires Valid() && IsName(name)
      modifies this, table
      ensures Valid() && (State(), r) == Do(old(State()), Op.Activate(name), answers)
    {
      hide Inv, Find, Key, CStr, Cut;
      InvWellFormed(State());
      DoKeeps(State(), Op.Activate(name), answers);
      var i := FindPlugin(name);
      if i == PLUGIN_MAX { return NOTFOUND; }
      if table[i].state != LOADED { return ERR; }
      if table[i].desc.init != 0 {
        r := answers(asked);
        asked := asked + 1;
        if r != OK {
          table[i] := table[i].(state := ERROR, errors := (table[i].errors + 1) % U32,
                                history := Record(table[i].history, Init(false), table[i].desc.init));
          return r;
        }
      }
      table[i] := table[i].(state := ACTIVE, history := Record(table[i].history, Init(true), table[i].desc.init));
      return OK;
    }

    method Deactivate(name: seq<byte>, ghost answers: Answers) returns (r: Status)
      requires Valid() && IsName(name)
      modifies this, table
      ensures Valid() && (State(), r) == Do(old(State()), Op.Deactivate(name), answers)
    {
      hide Inv, Find, Key, CStr, Cut;
      InvWellFormed(State());
      DoKeeps(State(), Op.Deactivate(name), answers);
      var i := FindPlugin(name);
      if i == PLUGIN_MAX { return NOTFOUND; }
      if table[i].state != ACTIVE { return ERR; }
      if table[i].desc.shutdown != 0 {
        asked := asked + 1;
      }
      table[i] := table[i].(state := LOADED, history := Record(table[i].history, Shutdown, table[i].desc.shutdown));
      return OK;
    }

    method Tick(i: nat, answers: Answers)
      requires table.Length == PLUGIN_MAX && WellFormed(State()) && i < PLUGIN_MAX
      modifies this`asked, table
      ensures WellFormed(State()) && State() == TickSlot(old(State()), i, answers)
    {
      if table[i].state == ACTIVE && table[i].desc.tick != 0 {
        var r := answers(asked);
        asked := asked + 1;
        table[i] := table[i].(ticks := (table[i].ticks + 1) % U32,
                              history := Record(table[i].history, LifeEvent.Tick(r == OK), table[i].desc.tick));
        if r != OK {
          table[i] := table[i].(errors := (table[i].errors + 1) % U32);
        }
      }
    }

    method TickAll(answers: Answers)
      requires Valid()
      modifies this, table
      ensures Valid() && State() == Do(old(State()), Op.TickAll, answers).0
    {
      hide Inv, TickSlot;
      InvWellFormed(State());
      DoKeeps(State(), Op.TickAll, answers);
      var i := 0;
      while i < PLUGIN_MAX
        invariant 0 <= i <= PLUGIN_MAX && WellFormed(State())
        invariant TickFrom(old(State()), 0, answers) == TickFrom(State(), i, answers)
      {
        Tick(i, answers);
        i := i + 1;
      }
    }
  }
}

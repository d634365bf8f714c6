/**
 The hold-and-decide controller: what each of its atomic operations does to the held units, as
 functions on a value (`Ctl`), and the controller object whose methods are proved against them.
 */
module Tamper {
  import opened Bytes
  import opened Framing
  import opened Options

  type Id = nat

  datatype Action = Forward | Drop | Modified

  /** A verdict: an action, and replacement bytes that only count when the action is MODIFIED. */
  datatype Verdict = Verdict(action: Action, modified: Option<seq<byte>>)

  /** A held unit: the bytes shown to the operator, its verdict fields, and whether its future is resolved. */
  datatype Held = Held(bytes: seq<byte>, verdict: Verdict, done: bool)

  /** The controller: the switch, the ids waiting for a verdict, and every unit ever held. */
  datatype Ctl = Ctl(enabled: bool, pending: set<Id>, units: map<Id, Held>)

  ghost predicate Valid(c: Ctl) {
    c.pending <= c.units.Keys
  }

  /** The verdict fields after `set_verdict` ran: the replacement is only stored for MODIFIED. */
  function Decide(was: Verdict, action: Action, data: Option<seq<byte>>): Verdict {
    Verdict(action, if action == Modified then data else was.modified)
  }

  /** The bytes a verdict puts on the wire before operator-scope rules. */
  function Effective(bytes: seq<byte>, v: Verdict): seq<byte> {
    if v.action == Modified && v.modified.Some? then v.modified.value else bytes
  }

  /** `process` up to its await: the frame becomes a pending unit. */
  function AfterHold(c: Ctl, id: Id, bytes: seq<byte>): Ctl {
    c.(pending := c.pending + {id},
       units := c.units[id := Held(bytes, Verdict(Forward, None), false)])
  }

  /** `process` after its await: the unit leaves the pending table. */
  function AfterFinish(c: Ctl, id: Id): Ctl {
    c.(pending := c.pending - {id})
  }

  /** A task that awaits a unit's future was told to stop: the future is cancelled and takes no result any more. */
  function AfterRevoke(c: Ctl, id: Id): Ctl
    requires id in c.units
  {
    c.(units := c.units[id := c.units[id].(done := true)])
  }

  function Decided(u: Held, action: Action, data: Option<seq<byte>>): Held {
    u.(verdict := Decide(u.verdict, action, data), done := true)
  }

  predicate Accepts(c: Ctl, id: Id)
    requires c.pending <= c.units.Keys
  {
    id in c.pending && !c.units[id].done
  }

  function AfterVerdict(c: Ctl, id: Id, action: Action, data: Option<seq<byte>>): Ctl
    requires c.pending <= c.units.Keys
  {
    if Accepts(c, id) then c.(units := c.units[id := Decided(c.units[id], action, data)]) else c
  }

  function Forwarded(u: Held): Held {
    if u.done then u else u.(verdict := u.verdict.(action := Forward), done := true)
  }

  /** Resolves the given ids with FORWARD where they are still open. */
  function AfterForwarding(c: Ctl, ids: set<Id>): Ctl
    requires c.pending <= c.units.Keys
  {
    c.(units := map id | id in c.units :: if id in ids && id in c.pending then Forwarded(c.units[id]) else c.units[id])
  }

  function AfterForwardAllPending(c: Ctl): Ctl
    requires c.pending <= c.units.Keys
  {
    AfterForwarding(c, c.pending).(pending := {})
  }

  function AfterSwitch(c: Ctl, value: bool): Ctl
    requires c.pending <= c.units.Keys
  {
    var c' := c.(enabled := value);
    if value then c' else AfterForwardAllPending(c')
  }

  /** Ids that a "forward all" resolves. */
  function Open(c: Ctl): set<Id>
    requires c.pending <= c.units.Keys
  {
    set id | id in c.pending && !c.units[id].done
  }

  // ---- what the operations mean to the waiting relays ----

  /** Later states never change a decided unit, and an undecided one can still be found by the operator. */
  ghost predicate Evolves(c: Ctl, c': Ctl) {
    && c.units.Keys <= c'.units.Keys
    && (forall id :: id in c.units ==> c'.units[id].bytes == c.units[id].bytes)
    && (forall id :: id in c.units && c.units[id].done ==> c'.units[id] == c.units[id])
    && (forall id :: id in c.pending && id in c'.units && !c'.units[id].done ==> id in c'.pending)
  }

  /** A verdict call succeeds exactly on a pending, undecided unit, and then fixes that unit's verdict and no other. */
  lemma {:induction false} VerdictDecides(c: Ctl, id: Id, action: Action, data: Option<seq<byte>>)
    requires Valid(c)
    ensures var c' := AfterVerdict(c, id, action, data);
            && Valid(c') && Evolves(c, c')
            && (Accepts(c, id) ==>
                && c'.units[id].done && c'.units[id].bytes == c.units[id].bytes && c'.units[id].verdict.action == action
                && c'.units[id].verdict.modified == if action == Modified then data else c.units[id].verdict.modified)
            && !Accepts(c', id)
            && (forall other :: other in c.units && other != id ==> c'.units[other] == c.units[other])
  {
  }

  lemma {:induction false} HoldEvolves(c: Ctl, id: Id, bytes: seq<byte>)
    requires Valid(c) && id !in c.units
    ensures Valid(AfterHold(c, id, bytes)) && Evolves(c, AfterHold(c, id, bytes))
            && Accepts(AfterHold(c, id, bytes), id)
  {
  }

  lemma {:induction false} FinishEvolves(c: Ctl, id: Id)
    requires Valid(c) && id in c.units && c.units[id].done
    ensures Valid(AfterFinish(c, id)) && Evolves(c, AfterFinish(c, id))
    ensures AfterFinish(c, id) == Ctl(c.enabled, c.pending - {id}, c.units)
  {
  }

  /** A cancelled future keeps the unit in the table, where no call succeeds on it any more. */
  lemma {:induction false} RevokeEvolves(c: Ctl, id: Id)
    requires Valid(c) && id in c.units && !c.units[id].done
    ensures var c' := AfterRevoke(c, id);
            && Valid(c') && Evolves(c, c') && c'.pending == c.pending
            && !Accepts(c', id)
            && (forall other :: other in c.units && other != id ==> c'.units[other] == c.units[other])
  {
  }

  /**
   Disabling or shutting down empties the table and decides its open units with FORWARD; what is still
   undecided had left the table undecided before.
   */
  lemma {:induction false} ForwardAllDecides(c: Ctl)
    requires Valid(c)
    ensures var c' := AfterForwardAllPending(c);
            && Valid(c') && Evolves(c, c') && c'.pending == {}
            && (forall id :: id in c.pending ==> c'.units[id].done)
            && (forall id :: Accepts(c, id) ==> c'.units[id].verdict.action == Forward)
            && (forall id :: id in c.units && !Accepts(c, id) ==> c'.units[id] == c.units[id])
            && (forall id :: id in c'.units && !c'.units[id].done ==>
                id in c.units && !c.units[id].done && id !in c.pending)
  {
  }

  /** Forwarding one more pending id. */
  lemma {:induction false} ForwardOneMore(c: Ctl, ids: set<Id>, id: Id)
    requires Valid(c) && id in c.pending && id !in ids
    ensures AfterVerdict(AfterForwarding(c, ids), id, Forward, None) == AfterForwarding(c, ids + {id})
    ensures Accepts(AfterForwarding(c, ids), id) <==> Accepts(c, id)
    ensures Open(c) * (ids + {id}) == Open(c) * ids + if Accepts(c, id) then {id} else {}
  {
    var c' := AfterForwarding(c, ids);
    var x, y := AfterVerdict(c', id, Forward, None).units, AfterForwarding(c, ids + {id}).units;
    assert c'.units.Keys == c.units.Keys && x.Keys == c'.units.Keys && y.Keys == c.units.Keys;
    assert forall k :: k in c.units ==> x[k] == y[k];
  }

  lemma {:induction false} ForwardNone(c: Ctl)
    requires Valid(c)
    ensures AfterForwarding(c, {}) == c && Open(c) * {} == {}
    ensures Open(c) * c.pending == Open(c)
  {
    assert AfterForwarding(c, {}).units == c.units;
  }

  // ---- what is held ----

  /** Whether every filter that is set lets the frame through to the operator. */
  predicate Selects(directionFilter: Option<Direction>, sessionFilter: Option<set<string>>,
                    interceptFilter: Option<Frame -> bool>, frame: Frame, session: string)
  {
    && (directionFilter.None? || frame.direction == directionFilter.value)
    && (sessionFilter.None? || session in sessionFilter.value)
    && (interceptFilter.None? || interceptFilter.value(frame))
  }

  /** Clearing a filter only ever selects more; each filter alone decides when the others are clear. */
  lemma {:induction false} ClearingSelectsMore(directionFilter: Option<Direction>, sessionFilter: Option<set<string>>,
                                               interceptFilter: Option<Frame -> bool>, frame: Frame, session: string)
    ensures Selects(directionFilter, sessionFilter, interceptFilter, frame, session) ==>
              && Selects(None, sessionFilter, interceptFilter, frame, session)
              && Selects(directionFilter, None, interceptFilter, frame, session)
              && Selects(directionFilter, sessionFilter, None, frame, session)
    ensures Selects(None, None, None, frame, session)
    ensures Selects(Some(ClientToServer), None, None, frame, session) <==> frame.direction == ClientToServer
    ensures Selects(Some(ServerToClient), None, None, frame, session) <==> frame.direction == ServerToClient
    ensures forall names :: Selects(None, Some(names), None, frame, session) <==> session in names
    ensures forall f :: Selects(None, None, Some(f), frame, session) <==> f(frame)
  {
  }

  // ---- the controller object ----

  class TamperedUnit {
    const id: Id
    const frame: Frame
    var action: Action
    var modifiedData: Option<seq<byte>>

    constructor FromFrame(id: Id, frame: Frame)
      ensures this.id == id && this.frame == frame && action == Forward && modifiedData == None
    {
      this.id, this.frame := id, frame;
      action, modifiedData := Forward, None;
    }

    ghost function View(done: bool): Held
      reads this
    {
      Held(frame.rawBytes, Verdict(action, modifiedData), done)
    }
  }

  /** A one-shot future; it resolves to the unit object it was created for. */
  class Future {
    var done: bool

    constructor ()
      ensures !done
    {
      done := false;
    }
  }

  datatype Entry = Entry(unit: TamperedUnit, future: Future)

  class QueuedTamperController {
    var enabled: bool
    var directionFilter: Option<Direction>
    var sessionFilter: Option<set<string>>
    var interceptFilter: Option<Frame -> bool>
    var pending: map<Id, Entry>
    var incoming: seq<TamperedUnit>

    /** Every entry ever made, whether or not it is still pending. */
    ghost var entries: map<Id, Entry>

    ghost predicate WellFormed()
      reads this`pending, this`entries
    {
      && (forall id :: id in pending ==> id in entries && pending[id] == entries[id])
      && (forall id :: id in entries ==> entries[id].unit.id == id)
      && (forall i, j :: i in entries && j in entries && i != j ==> entries[i].future != entries[j].future)
    }

    ghost function HeldUnits(): set<TamperedUnit>
      reads this`entries
    {
      set id | id in entries :: entries[id].unit
    }

    ghost function Futures(): set<Future>
      reads this`entries
    {
      set id | id in entries :: entries[id].future
    }

    ghost function Units(): map<Id, Held>
      reads this`entries, HeldUnits(), Futures()
    {
      map id | id in entries :: entries[id].unit.View(entries[id].future.done)
    }

    /** The controller's state as a value. */
    ghost function Abs(): Ctl
      reads this`enabled, this`pending, this`entries, HeldUnits(), Futures()
    {
      Ctl(enabled, pending.Keys, Units())
    }

    constructor (enabled: bool, directionFilter: Option<Direction>, sessionFilter: Option<set<string>>,
                 interceptFilter: Option<Frame -> bool>)
      ensures WellFormed() && Abs() == Ctl(enabled, {}, map[]) && incoming == []
      ensures this.directionFilter == directionFilter && this.sessionFilter == sessionFilter
              && this.interceptFilter == interceptFilter
    {
      this.enabled, this.directionFilter, this.sessionFilter, this.interceptFilter :=
        enabled, directionFilter, sessionFilter, interceptFilter;
      pending, incoming, entries := map[], [], map[];
    }

    /** `process` up to its await: the unit is ready, or its future is to be awaited. */
    method Begin(frame: Frame, session: string, id: Id) returns (unit: TamperedUnit, future: Option<Future>)
      requires WellFormed() && id !in entries
      modifies this`pending, this`incoming, this`entries
      ensures WellFormed() && fresh(unit) && unit.id == id && unit.frame == frame
      ensures future.Some? <==> enabled && Selects(directionFilter, sessionFilter, interceptFilter, frame, session)
      ensures !enabled ==> future.None?
      ensures enabled && directionFilter.None? && sessionFilter.None? && interceptFilter.None? ==> future.Some?
      ensures directionFilter.Some? && frame.direction != directionFilter.value ==> future.None?
      ensures sessionFilter.Some? && session !in sessionFilter.value ==> future.None?
      ensures interceptFilter.Some? && !interceptFilter.value(frame) ==> future.None?
      ensures future.None? ==>
                || !enabled
                || (directionFilter.Some? && directionFilter != Some(frame.direction))
                || (sessionFilter.Some? && session !in sessionFilter.value)
                || (interceptFilter.Some? && !interceptFilter.value(frame))
      ensures future.None? ==>
                unit.View(true) == Held(frame.rawBytes, Verdict(Forward, None), true) && Abs() == old(Abs())
      ensures future.Some? ==> fresh(future.value) && Abs() == AfterHold(old(Abs()), id, frame.rawBytes)
      ensures future.Some? ==> entries == old(entries)[id := Entry(unit, future.value)]
      ensures incoming == if future.Some? then old(incoming) + [unit] else old(incoming)
    {
      ghost var us, fs, c := HeldUnits(), Futures(), Abs();
      unit := new TamperedUnit.FromFrame(id, frame);
      assert HeldUnits() == us && Futures() == fs && Abs() == c;
      hide Units, HeldUnits, Futures, AfterHold, Accepts;
      if !enabled {
        return unit, None;
      }
      if directionFilter.Some? && frame.direction != directionFilter.value {
        return unit, None;
      }
      if sessionFilter.Some? && session !in sessionFilter.value {
        return unit, None;
      }
      if interceptFilter.Some? && !interceptFilter.value(frame) {
        return unit, None;
      }
      var f := Enqueue(unit);
      return unit, Some(f);
    }

    /** Setting or clearing a filter decides about frames to come; what is held stays held. */
    method SetDirectionFilter(value: Option<Direction>)
      modifies this`directionFilter
      ensures directionFilter == value && Abs() == old(Abs())
    {
      directionFilter := value;
    }

    method SetSessionFilter(value: Option<set<string>>)
      modifies this`sessionFilter
      ensures sessionFilter == value && Abs() == old(Abs())
    {
      sessionFilter := value;
    }

    method SetInterceptFilter(value: Option<Frame -> bool>)
      modifies this`interceptFilter
      ensures interceptFilter == value && Abs() == old(Abs())
    {
      interceptFilter := value;
    }

    /** Registers a new unit as pending and puts it on the operator's queue. */
    method Enqueue(unit: TamperedUnit) returns (future: Future)
      requires WellFormed() && unit.id !in entries
      requires unit.action == Forward && unit.modifiedData == None
      modifies this`pending, this`incoming, this`entries
      ensures WellFormed() && fresh(future)
      ensures Abs() == AfterHold(old(Abs()), unit.id, unit.frame.rawBytes)
      ensures incoming == old(incoming) + [unit]
      ensures entries == old(entries)[unit.id := Entry(unit, future)]
    {
      hide *;
      future := Register(unit);
      PutIncoming(unit);
    }

    method PutIncoming(unit: TamperedUnit)
      requires WellFormed()
      modifies this`incoming
      ensures WellFormed() && Abs() == old(Abs()) && incoming == old(incoming) + [unit]
    {
      incoming := incoming + [unit];
    }

    method Register(unit: TamperedUnit) returns (future: Future)
      requires WellFormed() && unit.id !in entries
      requires unit.action == Forward && unit.modifiedData == None
      modifies this`pending, this`entries
      ensures WellFormed() && fresh(future)
      ensures Abs() == AfterHold(old(Abs()), unit.id, unit.frame.rawBytes)
      ensures entries == old(entries)[unit.id := Entry(unit, future)]
    {
      ghost var us, fs, c := HeldUnits(), Futures(), Abs();
      future := new Future();
      assert HeldUnits() == us && Futures() == fs && future !in fs;
      assert Abs() == c;
      hide *;
      Insert(unit, future);
    }

    method Insert(unit: TamperedUnit, future: Future)
      requires WellFormed() && unit.id !in entries && future !in Futures() && !future.done
      requires unit.action == Forward && unit.modifiedData == None
      modifies this`pending, this`entries
      ensures WellFormed()
      ensures Abs() == AfterHold(old(Abs()), unit.id, unit.frame.rawBytes)
      ensures entries == old(entries)[unit.id := Entry(unit, future)]
    {
      Note(unit, future);
      hide *;
      SetPending(unit, future);
    }

    method SetPending(unit: TamperedUnit, future: Future)
      requires WellFormed() && unit.id in entries && entries[unit.id] == Entry(unit, future)
      modifies this`pending
      ensures WellFormed() && Units() == old(Units()) && pending.Keys == old(pending.Keys) + {unit.id}
    {
      pending := pending[unit.id := Entry(unit, future)];
    }

    ghost method Note(unit: TamperedUnit, future: Future)
      requires WellFormed() && unit.id !in entries && future !in Futures() && !future.done
      requires unit.action == Forward && unit.modifiedData == None
      modifies this`entries
      ensures WellFormed() && entries == old(entries)[unit.id := Entry(unit, future)]
      ensures Units() == old(Units())[unit.id := Held(unit.frame.rawBytes, Verdict(Forward, None), false)]
    {
      assert forall id :: id in entries ==> entries[id].future in Futures();
      hide HeldUnits, Futures;
      entries := entries[unit.id := Entry(unit, future)];
    }

    /** `process` after its await, on every path out: the entry is dropped if it is still there. */
    method End(id: Id)
      requires WellFormed()
      modifies this`pending
      ensures WellFormed()
      ensures Abs() == AfterFinish(old(Abs()), id)
    {
      pending := pending - {id};
    }

    /** The task that awaits a unit's future is told to stop: asyncio cancels the future, the entry stays for now. */
    method CancelWait(id: Id, future: Future)
      requires WellFormed() && id in entries && entries[id].future == future
      modifies future
      ensures WellFormed()
      ensures Abs() == AfterRevoke(old(Abs()), id)
    {
      ghost var units := Units();
      future.done := true;
      assert Units() == units[id := units[id].(done := true)];
    }

    /** The operator takes the oldest unit off the queue; nothing comes, and nothing moves, while there is none. */
    method GetPending() returns (unit: Option<TamperedUnit>)
      requires WellFormed()
      modifies this`incoming
      ensures WellFormed() && Abs() == old(Abs())
      ensures unit.None? <==> old(incoming) == []
      ensures old(incoming) == (if unit.None? then [] else [unit.value]) + incoming
    {
      if incoming == [] {
        return None;
      }
      unit, incoming := Some(incoming[0]), incoming[1..];
    }

    /** Writes a verdict into a unit and resolves its future. */
    method Resolve(id: Id, unit: TamperedUnit, future: Future, action: Action, data: Option<seq<byte>>)
      requires WellFormed() && id in entries && entries[id] == Entry(unit, future)
      modifies unit, future
      ensures WellFormed()
      ensures Abs() == old(Abs()).(units := old(Abs()).units[id := Decided(old(Abs()).units[id], action, data)])
    {
      ghost var units := Units();
      unit.action := action;
      if action == Modified {
        unit.modifiedData := data;
      }
      future.done := true;
      assert Units() == units[id := Decided(units[id], action, data)];
    }

    method SetVerdict(id: Id, action: Action, data: Option<seq<byte>>) returns (ok: bool)
      requires WellFormed()
      modifies HeldUnits(), Futures()
      ensures WellFormed()
      ensures ok == Accepts(old(Abs()), id)
      ensures Abs() == AfterVerdict(old(Abs()), id, action, data)
    {
      if id !in pending {
        return false;
      }
      var unit, future := pending[id].unit, pending[id].future;
      if future.done {
        return false;
      }
      Resolve(id, unit, future, action, data);
      return true;
    }

    method ForwardUnit(id: Id) returns (ok: bool)
      requires WellFormed()
      modifies HeldUnits(), Futures()
      ensures WellFormed()
      ensures ok == Accepts(old(Abs()), id)
      ensures Abs() == AfterVerdict(old(Abs()), id, Forward, None)
    {
      ok := SetVerdict(id, Forward, None);
    }

    method DropUnit(id: Id) returns (ok: bool)
      requires WellFormed()
      modifies HeldUnits(), Futures()
      ensures WellFormed()
      ensures ok == Accepts(old(Abs()), id)
      ensures Abs() == AfterVerdict(old(Abs()), id, Drop, None)
    {
      ok := SetVerdict(id, Drop, None);
    }

    method ModifyAndForward(id: Id, data: seq<byte>) returns (ok: bool)
      requires WellFormed()
      modifies HeldUnits(), Futures()
      ensures WellFormed()
      ensures ok == Accepts(old(Abs()), id)
      ensures Abs() == AfterVerdict(old(Abs()), id, Modified, Some(data))
    {
      ok := SetVerdict(id, Modified, Some(data));
    }

    /** Forwards every pending unit; counts the ones that were still open. */
    method ForwardAll() returns (count: nat)
      requires WellFormed()
      modifies HeldUnits(), Futures()
      ensures WellFormed()
      ensures Abs() == AfterForwarding(old(Abs()), old(Abs()).pending)
      ensures count == |Open(old(Abs()))|
    {
      AbsIsValid();
      ghost var c := Abs();
      count := 0;
      ghost var done: set<Id> := {};
      var left := pending.Keys;
      ForwardStart(c);
      hide *;
      while left != {}
        invariant WellFormed() && ForwardedSoFar(c, done, left, count)
        decreases |left|
      {
        var id :| id in left;
        count := ForwardOne(id, count, c, done, left);
        done, left := done + {id}, left - {id};
      }
      ForwardDone(c, done, count);
    }

    method ForwardOne(id: Id, count0: nat, ghost c: Ctl, ghost done: set<Id>, ghost left: set<Id>) returns (count: nat)
      requires WellFormed() && ForwardedSoFar(c, done, left, count0) && id in left
      modifies HeldUnits(), Futures()
      ensures WellFormed() && ForwardedSoFar(c, done + {id}, left - {id}, count)
    {
      hide *;
      ForwardStep(c, done, left, id, count0);
      var ok := ForwardUnit(id);
      count := if ok then count0 + 1 else count0;
      ForwardNext(c, done, left, id, count);
    }

    /** Mid-loop: the ids of `done` are forwarded, `count` of them by this call, and `left` is still to do. */
    ghost predicate ForwardedSoFar(c: Ctl, done: set<Id>, left: set<Id>, count: nat)
      reads this, HeldUnits(), Futures()
    {
      && Valid(c) && done !! left && done + left == c.pending
      && Abs() == AfterForwarding(c, done)
      && count == |Open(c) * done|
    }

    lemma {:induction false} ForwardStep(c: Ctl, done: set<Id>, left: set<Id>, id: Id, count: nat)
      requires ForwardedSoFar(c, done, left, count) && id in left
      ensures AfterVerdict(Abs(), id, Forward, None) == AfterForwarding(c, done + {id})
      ensures (if Accepts(Abs(), id) then count + 1 else count) == |Open(c) * (done + {id})|
      ensures Valid(c) && done !! left && done + left == c.pending
    {
      ForwardOneMore(c, done, id);
    }

    lemma {:induction false} ForwardStart(c: Ctl)
      requires Valid(c) && c == Abs()
      ensures ForwardedSoFar(c, {}, pending.Keys, 0)
    {
      ForwardNone(c);
    }

    lemma {:induction false} ForwardNext(c: Ctl, done: set<Id>, left: set<Id>, id: Id, count: nat)
      requires Valid(c) && done !! left && done + left == c.pending && id in left
      requires Abs() == AfterForwarding(c, done + {id}) && count == |Open(c) * (done + {id})|
      ensures ForwardedSoFar(c, done + {id}, left - {id}, count)
    {
    }

    lemma {:induction false} ForwardDone(c: Ctl, done: set<Id>, count: nat)
      requires ForwardedSoFar(c, done, {}, count)
      ensures Abs() == AfterForwarding(c, c.pending) && count == |Open(c)|
    {
      assert done == c.pending;
      assert Open(c) * done == Open(c);
    }

    lemma AbsIsValid()
      requires WellFormed()
      ensures Valid(Abs())
    {
    }

    /** Resolves every pending future with FORWARD and empties the table. */
    method ForwardAllPending()
      requires WellFormed()
      modifies this`pending, HeldUnits(), Futures()
      ensures WellFormed()
      ensures Abs() == AfterForwardAllPending(old(Abs()))
    {
      AbsIsValid();
      ghost var c := Abs();
      var n := ForwardAll();
      ClearPending(c);
    }

    method ClearPending(ghost c: Ctl)
      requires WellFormed() && Valid(c) && Abs() == AfterForwarding(c, c.pending)
      modifies this`pending
      ensures WellFormed() && Abs() == AfterForwardAllPending(c)
    {
      hide AfterForwarding, HeldUnits, Futures;
      ghost var units := Units();
      pending := map[];
      assert pending.Keys == {} && Units() == units;
    }

    /** The master switch; turning it off releases everything that is held. */
    method SetEnabled(value: bool)
      requires WellFormed()
      modifies this`enabled, this`pending, HeldUnits(), Futures()
      ensures WellFormed() && enabled == value
      ensures Abs() == AfterSwitch(old(Abs()), value)
    {
      AbsIsValid();
      hide *;
      enabled := value;
      if !value {
        ForwardAllPending();
      }
    }

    method Shutdown()
      requires WellFormed()
      modifies this`pending, HeldUnits(), Futures()
      ensures WellFormed()
      ensures Abs() == AfterForwardAllPending(old(Abs()))
    {
      ForwardAllPending();
    }
  }
}

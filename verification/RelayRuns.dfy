/** What whole runs of the interception pipeline deliver, log and can always reach. */
module RelayRuns {
  import opened Bytes
  import opened Framing
  import opened Options
  import opened Relay
  import opened Tamper

  // ---- what reaches the destination ----

  /**
   One frame's share of the output, from the arguments of the operator's call: nothing when it was lost or
   dropped; what the operator was shown when it was forwarded or nobody decided it; the replacement after
   operator-scope rules when there is one, and those rules on what was shown when there is none.
   */
  ghost predicate Delivered(cfg: Config, s: Sys, r: RelayId, d: Decision, piece: seq<byte>) {
    var shown := if cfg.hasRules then cfg.traffic(r, d.raw) else d.raw;
    match d
    case Lost(_) => piece == []
    case Decision(_, None, _) => piece == shown
    case Decision(_, Some(id), _) =>
      && id in s.ctl.units && s.ctl.units[id].bytes == shown
      && ((forall k :: 0 <= k < |s.accepted| ==> s.accepted[k].id != id) ==> piece == shown)
      && (forall k :: 0 <= k < |s.accepted| && s.accepted[k].id == id ==>
            match s.accepted[k].action
            case Drop => piece == []
            case Forward => piece == shown
            case Modified =>
              var data := if s.accepted[k].edit.Some? then s.accepted[k].edit.value else shown;
              piece == if cfg.hasRules then cfg.tamper(r, data) else data)
  }

  ghost predicate DeliveredAll(cfg: Config, s: Sys, r: RelayId, pieces: seq<seq<byte>>)
    requires r in s.relays
  {
    && |pieces| == |s.relays[r].settled|
    && (forall k :: 0 <= k < |pieces| ==> Delivered(cfg, s, r, s.relays[r].settled[k], pieces[k]))
    && s.relays[r].out == Concat(pieces)
  }

  lemma {:induction false} EntitledIsDelivered(cfg: Config, s: Sys, r: RelayId, d: Decision)
    requires r in s.relays && Entitled(cfg, s, r, d)
    ensures Delivered(cfg, s, r, d, Result(cfg, r, d))
  {
  }

  function Results(cfg: Config, r: RelayId, settled: seq<Decision>): (pieces: seq<seq<byte>>)
    ensures |pieces| == |settled|
  {
    seq(|settled|, k requires 0 <= k < |settled| => Result(cfg, r, settled[k]))
  }

  lemma {:induction false} OutcomesJoined(cfg: Config, r: RelayId, settled: seq<Decision>)
    ensures Outcomes(cfg, r, settled) == Concat(Results(cfg, r, settled))
    decreases |settled|
  {
    hide Result;
    if settled == [] {
      assert Results(cfg, r, settled) == [];
    } else {
      var init, last := settled[..|settled| - 1], settled[|settled| - 1];
      OutcomesJoined(cfg, r, init);
      var piece := Result(cfg, r, last);
      assert Results(cfg, r, settled) == Results(cfg, r, init) + [piece];
      ConcatAppend(Results(cfg, r, init), [piece]);
      assert Concat([piece]) == piece;
    }
  }

  /**
   In every reachable state a direction's output is, frame by frame and in order, what the operator's own
   calls and the rules make of the frames; a done direction has dealt with every frame.
   */
  lemma {:induction false} OutputIsDelivered(cfg: Config, s: Sys, r: RelayId)
    requires Reachable(cfg, s) && r in s.relays
    ensures exists pieces :: DeliveredAll(cfg, s, r, pieces)
    ensures s.relays[r].phase.Finished? ==> Raws(s.relays[r].settled) == FramesOf(cfg.cut(r), s.relays[r])
  {
    hide Reachable, Entitled, Delivered, Outcomes, FramesOf;
    OutputRefinesSpec(cfg, s, r);
    var settled := s.relays[r].settled;
    OutcomesJoined(cfg, r, settled);
    var pieces := Results(cfg, r, settled);
    forall k | 0 <= k < |settled|
      ensures Delivered(cfg, s, r, settled[k], pieces[k])
    {
      EntitledIsDelivered(cfg, s, r, settled[k]);
    }
    assert DeliveredAll(cfg, s, r, pieces);
  }

  // ---- what the logs of a run record ----

  /** The chunks a run reads for one direction, in order. */
  ghost function DataRead(steps: seq<Step>, r: RelayId): seq<seq<byte>> {
    if steps == [] then []
    else (if steps[0].Read? && steps[0].r == r then [steps[0].data] else []) + DataRead(steps[1..], r)
  }

  /** The operator calls of a run made on a unit that was pending with its future open. */
  ghost function CallsThatHit(cfg: Config, s: Sys, steps: seq<Step>): seq<Accepted>
    requires Legal(cfg, s, steps)
    decreases |steps|
  {
    if steps == [] then []
    else
      var later := CallsThatHit(cfg, Next(cfg, s, steps[0]), steps[1..]);
      match steps[0]
      case Operate(id, action, edit) =>
        if id in s.ctl.pending && id in s.ctl.units && !s.ctl.units[id].done then [Accepted(id, action, edit)] + later
        else later
      case _ => later
  }

  lemma {:induction false} AdvanceReadsNothing(cfg: Config, r: RelayId, x: RelayState)
    ensures Advance(cfg, r, x).chunks == x.chunks
  {
  }

  lemma {:induction false} CompleteReadsNothing(cfg: Config, r: RelayId, x: RelayState, raw: seq<byte>, u: Unit,
                                                bytes: seq<byte>, v: Verdict)
    ensures AfterComplete(cfg, r, x, raw, u, bytes, v).chunks == x.chunks
  {
    hide Advance, Sent;
    AdvanceReadsNothing(cfg, r, Settle(x, Decision(raw, Source(u), v)));
  }

  lemma {:induction false} ReadReads(cfg: Config, r: RelayId, x: RelayState, data: seq<byte>)
    ensures AfterRead(cfg, r, x, data).chunks == x.chunks + [data]
    ensures AfterStreamEnds(cfg, r, x).chunks == x.chunks
    ensures AfterInterrupt(cfg, r, x).chunks == x.chunks
  {
    hide InHand;
  }

  lemma {:induction false} StepReads(cfg: Config, s: Sys, step: Step, r: RelayId)
    requires Enabled(s, step) && r in s.relays
    ensures var s' := Next(cfg, s, step);
            && r in s'.relays
            && s'.relays[r].chunks == s.relays[r].chunks + if step.Read? && step.r == r then [step.data] else []
  {
    hide AfterRead, AfterStreamEnds, AfterInterrupt, AfterComplete, Advance, UnitBytes, UnitVerdict;
    var x := s.relays[r];
    match step {
      case Read(q, data) => ReadReads(cfg, q, s.relays[q], data);
      case StreamEnds(q) => ReadReads(cfg, q, s.relays[q], []);
      case Interrupt(q) => ReadReads(cfg, q, s.relays[q], []);
      case Drained(q) => AdvanceReadsNothing(cfg, q, s.relays[q]);
      case Complete(q) =>
        var u := s.relays[q].phase.unit;
        CompleteReadsNothing(cfg, q, s.relays[q], s.relays[q].phase.raw, u, UnitBytes(s.ctl, u), UnitVerdict(s.ctl, u));
      case _ =>
    }
  }

  lemma {:induction false} StepAccepts(cfg: Config, s: Sys, step: Step)
    requires Enabled(s, step)
    ensures var s' := Next(cfg, s, step);
            match step
            case Operate(id, action, edit) =>
              s'.accepted == s.accepted +
                (if id in s.ctl.pending && id in s.ctl.units && !s.ctl.units[id].done then [Accepted(id, action, edit)]
                 else [])
            case _ => s'.accepted == s.accepted
  {
    hide AfterComplete, AfterRead, AfterStreamEnds, AfterInterrupt, Advance;
  }

  /** The recorded reads and calls are those of the run, in order and with the arguments they were made with. */
  lemma {:induction false} LogsAreTrue(cfg: Config, s: Sys, steps: seq<Step>, r: RelayId)
    requires Legal(cfg, s, steps) && r in s.relays
    ensures var t := Run(cfg, s, steps);
            && r in t.relays && t.relays[r].chunks == s.relays[r].chunks + DataRead(steps, r)
            && t.accepted == s.accepted + CallsThatHit(cfg, s, steps)
    decreases |steps|
  {
    hide Next, Enabled;
    if steps != [] {
      StepReads(cfg, s, steps[0], r);
      StepAccepts(cfg, s, steps[0]);
      var s' := Next(cfg, s, steps[0]);
      LogsAreTrue(cfg, s', steps[1..], r);
      Joined(s.relays[r].chunks, if steps[0].Read? && steps[0].r == r then [steps[0].data] else [],
             DataRead(steps[1..], r));
      JoinedCalls(s.accepted, s'.accepted, CallsThatHit(cfg, s', steps[1..]));
    }
  }

  lemma {:induction false} Joined<T>(x: seq<T>, y: seq<T>, z: seq<T>)
    ensures (x + y) + z == x + (y + z)
  {
  }

  lemma {:induction false} JoinedCalls(x: seq<Accepted>, y: seq<Accepted>, z: seq<Accepted>)
    ensures y == x ==> y + z == x + z
    ensures forall a :: y == x + [a] ==> y + z == x + ([a] + z)
  {
  }

  // ---- the switch ----

  /** Holding a frame puts what the rules make of it before the operator, undecided, and the relay waits for it. */
  lemma {:induction false} HeldIsShown(cfg: Config, s: Sys, r: RelayId)
    requires r in s.relays && s.relays[r].phase.Captured? && !s.relays[r].cancelling
    ensures Enabled(s, Process(r, true)) <==> s.ctl.enabled
    ensures s.ctl.enabled ==>
              var s', raw := Next(cfg, s, Process(r, true)), s.relays[r].phase.raw;
              var id := s.nextId;
              && s'.ctl.pending == s.ctl.pending + {id} && id in s'.ctl.units
              && s'.ctl.units[id] ==
                   Held(if cfg.hasRules then cfg.traffic(r, raw) else raw, Verdict(Forward, None), false)
              && s'.relays[r].phase == Waiting(raw, id) && s'.nextId == id + 1
  {
  }

  /** Whoever sets the switch finds it set, and off or at shutdown nothing stays pending. */
  lemma {:induction false} SwitchIsSet(cfg: Config, s: Sys, value: bool)
    requires Valid(s.ctl)
    ensures Next(cfg, s, Switch(value)).ctl.enabled == value
    ensures value ==> Next(cfg, s, Switch(value)).ctl == s.ctl.(enabled := true)
    ensures !value ==> Next(cfg, s, Switch(value)).ctl.pending == {}
    ensures Next(cfg, s, Stop).ctl.enabled == s.ctl.enabled && Next(cfg, s, Stop).ctl.pending == {}
  {
  }

  lemma {:induction false} OffStep(cfg: Config, s: Sys, step: Step)
    requires Enabled(s, step) && step != Switch(true) && !s.ctl.enabled && s.ctl.pending == {}
    ensures var s' := Next(cfg, s, step);
            !s'.ctl.enabled && s'.ctl.pending == {} && s'.ctl.units.Keys == s.ctl.units.Keys
            && s'.accepted == s.accepted
  {
    hide AfterComplete, AfterRead, AfterStreamEnds, AfterInterrupt, Advance;
  }

  /** From switching off until switching on again no frame is held and no operator call succeeds. */
  lemma {:induction false} OffHoldsNothing(cfg: Config, s: Sys, steps: seq<Step>)
    requires Legal(cfg, s, steps) && !s.ctl.enabled && s.ctl.pending == {}
    requires Switch(true) !in steps
    ensures var t := Run(cfg, s, steps);
            !t.ctl.enabled && t.ctl.pending == {} && t.ctl.units.Keys == s.ctl.units.Keys && t.accepted == s.accepted
    decreases |steps|
  {
    if steps != [] {
      OffStep(cfg, s, steps[0]);
      hide Next;
      OffHoldsNothing(cfg, Next(cfg, s, steps[0]), steps[1..]);
    }
  }

  // ---- no relay is ever stuck ----

  function PhaseRank(p: Phase): nat {
    match p
    case Captured(_) => 6
    case Waiting(_, _) => 5
    case Returned(_, _) => 4
    case Logging(_, _, _) => 3
    case Draining => 2
    case Reading => 1
    case SendingEof => 1
    case Finished => 0
  }

  /** The steps that bring a relay nearer to its end: its own next one, after a verdict if it needs one. */
  ghost function Onward(s: Sys, r: RelayId): seq<Step>
    requires r in s.relays
  {
    var x := s.relays[r];
    if x.cancelling then [Interrupt(r)]
    else match x.phase
      case Reading => [StreamEnds(r)]
      case Captured(_) => [Process(r, false)]
      case Waiting(_, id) =>
        if id in s.ctl.units && s.ctl.units[id].done then [Wake(r)] else [Operate(id, Forward, None), Wake(r)]
      case Returned(_, _) => [Complete(r)]
      case Logging(_, _, _) => [WriteModified(r)]
      case Draining => [Drained(r)]
      case SendingEof => [EofDone(r)]
      case Finished => []
  }

  ghost predicate Nearer(y: RelayState, x: RelayState) {
    || (y.closing && !x.closing)
    || (y.closing == x.closing && |y.todo| < |x.todo|)
    || (y.closing == x.closing && |y.todo| == |x.todo| && PhaseRank(y.phase) < PhaseRank(x.phase))
    || y.phase.Finished?
  }

  lemma {:induction false} AdvanceIsNearer(cfg: Config, r: RelayId, x: RelayState, y: RelayState)
    requires y.closing == x.closing && y.todo == x.todo && PhaseRank(x.phase) >= 2
    ensures Nearer(Advance(cfg, r, y), x)
  {
  }

  lemma {:induction false} EndIsNearer(cfg: Config, r: RelayId, x: RelayState)
    requires !x.closing
    ensures Nearer(AfterStreamEnds(cfg, r, x), x) && Nearer(AfterInterrupt(cfg, r, x), x)
  {
    hide InHand, AllLost;
  }

  lemma {:induction false} CompleteIsNearer(cfg: Config, r: RelayId, x: RelayState, bytes: seq<byte>, v: Verdict)
    requires x.phase.Returned?
    ensures Nearer(AfterComplete(cfg, r, x, x.phase.raw, x.phase.unit, bytes, v), x)
  {
    hide Advance, Sent;
    AdvanceIsNearer(cfg, r, x, Settle(x, Decision(x.phase.raw, Source(x.phase.unit), v)));
  }

  /** What the invariant says of the unit a relay deals with, and of a relay that reads. */
  lemma {:induction false} UnitIsKnown(cfg: Config, s: Sys, r: RelayId)
    requires Inv(cfg, s) && r in s.relays
    ensures var p := s.relays[r].phase;
            && (p.Waiting? ==> p.id in s.ctl.units)
            && (p.Returned? && p.unit.Taken? ==> p.unit.id in s.ctl.units)
            && (p.Logging? && p.unit.Taken? ==> p.unit.id in s.ctl.units)
            && (p.Reading? ==> !s.relays[r].closing)
  {
    hide PendingAwaited, VerdictsStand, UnitsFollowed, SourcesDiffer, Justified, Traffic, Outcome, Outcomes, FramesOf;
    assert Linked(cfg, s.ctl, s.owner, r, s.relays[r]) && Accounted(cfg, r, s.relays[r]);
  }

  lemma {:induction false} CompleteStep(cfg: Config, s: Sys, r: RelayId)
    requires r in s.relays && !s.relays[r].cancelling && s.relays[r].phase.Returned?
    requires s.relays[r].phase.unit.Taken? ==> s.relays[r].phase.unit.id in s.ctl.units
    ensures Enabled(s, Complete(r)) && r in Next(cfg, s, Complete(r)).relays
    ensures Nearer(Next(cfg, s, Complete(r)).relays[r], s.relays[r])
  {
    hide Advance, AfterComplete, Nearer, UnitBytes, UnitVerdict;
    var u := s.relays[r].phase.unit;
    CompleteIsNearer(cfg, r, s.relays[r], UnitBytes(s.ctl, u), UnitVerdict(s.ctl, u));
  }

  lemma {:induction false} WriteStep(cfg: Config, s: Sys, r: RelayId)
    requires r in s.relays && !s.relays[r].cancelling && s.relays[r].phase.Logging?
    requires s.relays[r].phase.unit.Taken? ==> s.relays[r].phase.unit.id in s.ctl.units
    ensures Enabled(s, WriteModified(r)) && r in Next(cfg, s, WriteModified(r)).relays
    ensures Nearer(Next(cfg, s, WriteModified(r)).relays[r], s.relays[r])
  {
    hide Nearer, UnitVerdict;
    var x, u := s.relays[r], s.relays[r].phase.unit;
    RankIsNearer(x, AfterWrite(x, x.phase.raw, u, UnitVerdict(s.ctl, u), x.phase.data));
  }

  lemma {:induction false} PlainStep(cfg: Config, s: Sys, r: RelayId)
    requires r in s.relays && !s.relays[r].cancelling
    requires var p := s.relays[r].phase; p.Reading? || p.Captured? || p.Draining? || p.SendingEof?
    requires s.relays[r].phase.Reading? ==> !s.relays[r].closing
    ensures var step := Onward(s, r)[0];
            && Enabled(s, step) && r in Next(cfg, s, step).relays
            && Nearer(Next(cfg, s, step).relays[r], s.relays[r])
  {
    hide Advance, AfterStreamEnds, Nearer, Traffic;
    var x := s.relays[r];
    match x.phase {
      case Draining => AdvanceIsNearer(cfg, r, x, x);
      case Reading => EndIsNearer(cfg, r, x);
      case Captured(raw) => RankIsNearer(x, x.(phase := Returned(raw, Passed(Traffic(cfg, r, raw)))));
      case SendingEof => RankIsNearer(x, x.(phase := Finished));
    }
  }

  lemma {:induction false} OneStep(cfg: Config, s: Sys, r: RelayId)
    requires Inv(cfg, s) && r in s.relays && !s.relays[r].phase.Finished?
    requires !s.relays[r].cancelling && !s.relays[r].phase.Waiting?
    ensures |Onward(s, r)| == 1
    ensures var step := Onward(s, r)[0];
            && Enabled(s, step) && r in Next(cfg, s, step).relays
            && Nearer(Next(cfg, s, step).relays[r], s.relays[r])
  {
    UnitIsKnown(cfg, s, r);
    hide Inv, Enabled, Next, Nearer;
    if s.relays[r].phase.Returned? {
      CompleteStep(cfg, s, r);
    } else if s.relays[r].phase.Logging? {
      WriteStep(cfg, s, r);
    } else {
      PlainStep(cfg, s, r);
    }
  }

  lemma {:induction false} RankIsNearer(x: RelayState, y: RelayState)
    requires y.closing == x.closing && y.todo == x.todo && PhaseRank(y.phase) < PhaseRank(x.phase)
    ensures Nearer(y, x)
  {
  }

  lemma {:induction false} LeaveStep(cfg: Config, s: Sys, r: RelayId)
    requires r in s.relays && s.relays[r].cancelling
    ensures Enabled(s, Interrupt(r)) && r in Next(cfg, s, Interrupt(r)).relays
    ensures Nearer(Next(cfg, s, Interrupt(r)).relays[r], s.relays[r])
  {
    hide AfterInterrupt, Nearer;
    if s.relays[r].closing {
      InterruptEnds(cfg, r, s.relays[r]);
    } else {
      EndIsNearer(cfg, r, s.relays[r]);
    }
  }

  lemma {:induction false} InterruptEnds(cfg: Config, r: RelayId, x: RelayState)
    requires x.closing
    ensures Nearer(AfterInterrupt(cfg, r, x), x)
  {
    hide InHand, AllLost;
  }

  lemma {:induction false} WakeStep(cfg: Config, s: Sys, r: RelayId)
    requires Inv(cfg, s) && r in s.relays && !s.relays[r].cancelling && s.relays[r].phase.Waiting?
    requires s.relays[r].phase.id in s.ctl.units && s.ctl.units[s.relays[r].phase.id].done
    ensures Enabled(s, Wake(r)) && r in Next(cfg, s, Wake(r)).relays
    ensures Nearer(Next(cfg, s, Wake(r)).relays[r], s.relays[r])
  {
    hide Inv;
  }

  /** An open unit takes a verdict, and then its relay can go on. */
  lemma {:induction false} VerdictStep(cfg: Config, s: Sys, r: RelayId)
    requires Inv(cfg, s) && r in s.relays && !s.relays[r].cancelling && s.relays[r].phase.Waiting?
    requires s.relays[r].phase.id in s.ctl.units && !s.ctl.units[s.relays[r].phase.id].done
    ensures var step := Operate(s.relays[r].phase.id, Forward, None);
            Enabled(s, step) &&
            var s' := Next(cfg, s, step);
            s'.relays == s.relays && s.relays[r].phase.id in s'.ctl.units && s'.ctl.units[s.relays[r].phase.id].done
  {
    hide PendingAwaited, UnitsFollowed, Accounted, Linked;
    assert OpenUndecided(s.ctl);
  }

  lemma {:induction false} OnwardIsNearer(cfg: Config, s: Sys, r: RelayId)
    requires Inv(cfg, s) && r in s.relays && !s.relays[r].phase.Finished?
    ensures Legal(cfg, s, Onward(s, r))
    ensures var t := Run(cfg, s, Onward(s, r)); Inv(cfg, t) && r in t.relays && Nearer(t.relays[r], s.relays[r])
  {
    UnitIsKnown(cfg, s, r);
    hide Inv, Next, Enabled, Nearer;
    var x := s.relays[r];
    if x.cancelling {
      LeaveStep(cfg, s, r);
      OnlyStep(cfg, s, Interrupt(r));
    } else if !x.phase.Waiting? {
      OneStep(cfg, s, r);
      OnlyStep(cfg, s, Onward(s, r)[0]);
    } else if s.ctl.units[x.phase.id].done {
      WakeStep(cfg, s, r);
      OnlyStep(cfg, s, Wake(r));
    } else {
      var verdict := Operate(x.phase.id, Forward, None);
      VerdictStep(cfg, s, r);
      StepKeepsInv(cfg, s, verdict);
      var s' := Next(cfg, s, verdict);
      WakeStep(cfg, s', r);
      OnlyStep(cfg, s', Wake(r));
      assert [verdict, Wake(r)][1..] == [Wake(r)];
    }
  }

  lemma {:induction false} OnlyStep(cfg: Config, s: Sys, step: Step)
    requires Inv(cfg, s) && Enabled(s, step)
    ensures Legal(cfg, s, [step]) && Run(cfg, s, [step]) == Next(cfg, s, step) && Inv(cfg, Next(cfg, s, step))
  {
    hide Inv, Next, Enabled;
    StepKeepsInv(cfg, s, step);
    assert [step][1..] == [];
  }

  lemma {:induction false} RunsJoin(cfg: Config, s: Sys, a: seq<Step>, b: seq<Step>)
    requires Legal(cfg, s, a) && Legal(cfg, Run(cfg, s, a), b)
    ensures Legal(cfg, s, a + b) && Run(cfg, s, a + b) == Run(cfg, Run(cfg, s, a), b)
    decreases |a|
  {
    hide Next, Enabled;
    if a == [] {
      assert a + b == b;
    } else {
      assert (a + b)[1..] == a[1..] + b;
      RunsJoin(cfg, Next(cfg, s, a[0]), a[1..], b);
    }
  }

  lemma {:induction false} ReachesEnd(cfg: Config, s: Sys, r: RelayId) returns (steps: seq<Step>)
    requires Inv(cfg, s) && r in s.relays
    ensures Legal(cfg, s, steps)
    ensures var t := Run(cfg, s, steps); r in t.relays && t.relays[r].phase.Finished?
    decreases if s.relays[r].phase.Finished? then 0 else 1, if s.relays[r].closing then 0 else 1,
              |s.relays[r].todo|, PhaseRank(s.relays[r].phase)
  {
    hide Inv, Next, Enabled, Onward;
    if s.relays[r].phase.Finished? {
      steps := [];
    } else {
      OnwardIsNearer(cfg, s, r);
      var rest := ReachesEnd(cfg, Run(cfg, s, Onward(s, r)), r);
      RunsJoin(cfg, s, Onward(s, r), rest);
      steps := Onward(s, r) + rest;
    }
  }

  /**
   No relay is ever stuck: from every reachable state, whatever was held, cancelled or switched off, some
   continuation ends it.
   */
  lemma {:induction false} NeverStuck(cfg: Config, s: Sys, r: RelayId)
    requires Reachable(cfg, s) && r in s.relays
    ensures exists steps ::
              Legal(cfg, s, steps) && r in Run(cfg, s, steps).relays && Run(cfg, s, steps).relays[r].phase.Finished?
  {
    hide Inv, Legal, Run;
    ReachableInv(cfg, s);
    hide Reachable;
    var steps := ReachesEnd(cfg, s, r);
  }

  // ---- what can happen ----

  /** Each relay begins with nothing read, written, decided or cancelled, and any data, or the end, can come. */
  lemma {:induction false} BeginsUntouched(s: Sys, r: RelayId, data: seq<byte>)
    requires Initial(s) && r in s.relays
    ensures var x := s.relays[r];
            && x.out == [] && !x.eofSent && x.chunks == [] && x.settled == [] && x.buffer == [] && x.todo == []
            && !x.cancelling && !x.interrupted && !x.abandoned && !x.closing
    ensures s.accepted == [] && s.ctl.pending == {}
    ensures Enabled(s, StreamEnds(r)) && (Enabled(s, Read(r, data)) <==> data != [])
  {
  }

  /** What a relay that was not told to stop can do next. */
  ghost predicate CanGoOn(s: Sys, r: RelayId, data: seq<byte>)
    requires r in s.relays
  {
    match s.relays[r].phase
    case Reading => (Enabled(s, Read(r, data)) <==> data != []) && Enabled(s, StreamEnds(r))
    case Captured(_) => Enabled(s, Process(r, false)) && (Enabled(s, Process(r, true)) <==> s.ctl.enabled)
    case Waiting(_, id) => id in s.ctl.units && (Enabled(s, Wake(r)) <==> s.ctl.units[id].done)
    case Returned(_, _) => Enabled(s, Complete(r))
    case Logging(_, _, _) => Enabled(s, WriteModified(r))
    case Draining => Enabled(s, Drained(r))
    case SendingEof => Enabled(s, EofDone(r))
    case Finished => true
  }

  /**
   In every reachable state the operator may make any call and set the switch, any relay that has not finished may
   be cancelled, a cancelled one can be interrupted, and one that was not can go on: it waits for data, for the
   verdict on its unit, and for nothing else.
   */
  lemma {:induction false} WhatIsPossible(cfg: Config, s: Sys, r: RelayId, data: seq<byte>)
    requires Reachable(cfg, s) && r in s.relays
    ensures forall id, action, edit :: Enabled(s, Operate(id, action, edit))
    ensures Enabled(s, Switch(true)) && Enabled(s, Switch(false)) && Enabled(s, Stop)
    ensures Enabled(s, Cancel(r)) <==> !s.relays[r].phase.Finished?
    ensures Enabled(s, Interrupt(r)) <==> s.relays[r].cancelling
    ensures !s.relays[r].cancelling ==> CanGoOn(s, r, data)
  {
    hide Reachable, Inv, Valid, CanGoOn;
    ReachableInv(cfg, s);
    ControllerIsValid(cfg, s);
    UnitIsKnown(cfg, s, r);
    if !s.relays[r].cancelling {
      GoesOn(s, r, data);
    }
  }

  lemma {:induction false} ControllerIsValid(cfg: Config, s: Sys)
    requires Inv(cfg, s)
    ensures Valid(s.ctl)
  {
    hide PendingAwaited, VerdictsStand, UnitsFollowed, Linked, Accounted, Valid;
  }

  lemma {:induction false} GoesOn(s: Sys, r: RelayId, data: seq<byte>)
    requires r in s.relays && !s.relays[r].cancelling
    requires var p := s.relays[r].phase;
             && (p.Waiting? ==> p.id in s.ctl.units)
             && (p.Returned? && p.unit.Taken? ==> p.unit.id in s.ctl.units)
             && (p.Logging? && p.unit.Taken? ==> p.unit.id in s.ctl.units)
    ensures CanGoOn(s, r, data)
  {
  }
}

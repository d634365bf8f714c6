/**
 The interception pipeline as a step system: any number of relay directions share one controller
 while an operator decides, toggles and shuts down at arbitrary moments. A step is what runs between
 two awaits.
 */
module Relay {
  import opened Bytes
  import opened Framing
  import opened Options
  import opened Tamper

  datatype RelayId = RelayId(session: nat, direction: Direction)

  /** How each direction frames its stream, which rules apply, and whether it may half-close its destination. */
  datatype Config = Config(
    cut: RelayId -> (seq<byte> -> Cutting),
    hasRules: bool,
    traffic: (RelayId, seq<byte>) -> seq<byte>,
    tamper: (RelayId, seq<byte>) -> seq<byte>,
    propagateEof: RelayId -> bool)

  /** The unit `process` hands back: one that was never held, with the bytes it was made of, or a held one. */
  datatype Unit = Passed(bytes: seq<byte>) | Taken(id: Id)

  /** Where a relay is suspended. */
  datatype Phase =
    | Reading                                    // awaiting bytes
    | Captured(raw: seq<byte>)                   // announcing the captured frame
    | Waiting(raw: seq<byte>, id: Id)            // awaiting the operator's verdict
    | Returned(raw: seq<byte>, unit: Unit)       // announcing the verdict
    | Logging(raw: seq<byte>, unit: Unit, data: seq<byte>) // announcing the modified frame
    | Draining                                   // written, flushing the transport
    | SendingEof
    | Finished

  /** What was decided about a frame, and which held unit decided it; or that a cancellation took the frame. */
  datatype Decision =
    | Decision(raw: seq<byte>, source: Option<Id>, verdict: Verdict)
    | Lost(raw: seq<byte>)

  /**
   `chunks` and `settled` record the reads and what became of each frame so far, in order. `cancelling`
   says the task was told to stop and does not know yet, `interrupted` that it once found out, `abandoned`
   that it found out while it was already cleaning up.
   */
  datatype RelayState = RelayState(phase: Phase, buffer: seq<byte>, todo: seq<seq<byte>>, closing: bool,
                                   out: seq<byte>, eofSent: bool, chunks: seq<seq<byte>>, settled: seq<Decision>,
                                   cancelling: bool, interrupted: bool, abandoned: bool)

  /** An operator call that returned true, with the arguments it was made with. */
  datatype Accepted = Accepted(id: Id, action: Action, edit: Option<seq<byte>>)
  {
    function Verdict(): Verdict {
      Asked(action, edit)
    }
  }

  /**
   The whole system; `owner` says whose frame a unit is, `accepted` which operator calls returned true, and
   `revoked` which units lost their future to a cancellation.
   */
  datatype Sys = Sys(ctl: Ctl, nextId: Id, relays: map<RelayId, RelayState>, owner: map<Id, RelayId>,
                     accepted: seq<Accepted>, revoked: set<Id>)

  datatype Step =
    | Read(r: RelayId, data: seq<byte>)
    | StreamEnds(r: RelayId)                     // EOF, reset or idle timeout
    | Process(r: RelayId, hold: bool)
    | Wake(r: RelayId)
    | Complete(r: RelayId)
    | WriteModified(r: RelayId)
    | Drained(r: RelayId)
    | EofDone(r: RelayId)
    | Cancel(r: RelayId)                         // the session is terminated, or terminated again
    | Interrupt(r: RelayId)                      // the cancellation reaches the relay's task
    | Operate(id: Id, action: Action, edit: Option<seq<byte>>)
    | Switch(value: bool)
    | Stop

  const FORWARD := Verdict(Forward, None)

  function Traffic(cfg: Config, r: RelayId, raw: seq<byte>): seq<byte> {
    if cfg.hasRules then cfg.traffic(r, raw) else raw
  }

  /** The specification of one frame: what reaches the destination under a verdict. */
  function Outcome(cfg: Config, r: RelayId, raw: seq<byte>, v: Verdict): seq<byte> {
    match v.action
    case Drop => []
    case Forward => Traffic(cfg, r, raw)
    case Modified =>
      var edited := Effective(Traffic(cfg, r, raw), v);
      if cfg.hasRules then cfg.tamper(r, edited) else edited
  }

  /** What the relay writes: the unit's own bytes, after operator-scope rules if they were edited. */
  function Sent(cfg: Config, r: RelayId, bytes: seq<byte>, v: Verdict): seq<byte> {
    var data := Effective(bytes, v);
    if v.action == Modified && cfg.hasRules then cfg.tamper(r, data) else data
  }

  /** A unit that carries the frame's bytes sends what the specification of the frame says. */
  lemma {:induction false} SentIsOutcome(cfg: Config, r: RelayId, raw: seq<byte>, v: Verdict)
    ensures v.action != Drop ==> Sent(cfg, r, Traffic(cfg, r, raw), v) == Outcome(cfg, r, raw, v)
  {
  }

  lemma {:induction false} DroppedIsNothing(cfg: Config, r: RelayId, raw: seq<byte>, v: Verdict)
    ensures v.action == Drop ==> Outcome(cfg, r, raw, v) == []
  {
  }

  /** What reaches the destination of a frame that was dealt with. */
  function Result(cfg: Config, r: RelayId, d: Decision): seq<byte> {
    match d
    case Decision(raw, _, v) => Outcome(cfg, r, raw, v)
    case Lost(_) => []
  }

  function Outcomes(cfg: Config, r: RelayId, settled: seq<Decision>): seq<byte> {
    if settled == [] then []
    else Outcomes(cfg, r, settled[..|settled| - 1]) + Result(cfg, r, settled[|settled| - 1])
  }

  /** The held unit a frame was decided through. */
  function SourceOf(d: Decision): Option<Id> {
    if d.Lost? then None else d.source
  }

  function Raws(settled: seq<Decision>): (r: seq<seq<byte>>)
    ensures |r| == |settled|
  {
    seq(|settled|, k requires 0 <= k < |settled| => settled[k].raw)
  }

  // ---- one relay's own moves ----

  /** After a frame is dealt with: the next frame, the next read, or the way out. */
  function Advance(cfg: Config, r: RelayId, x: RelayState): RelayState {
    if x.todo != [] then x.(phase := Captured(x.todo[0]), todo := x.todo[1..])
    else if !x.closing then x.(phase := Reading)
    else if cfg.propagateEof(r) then x.(phase := SendingEof, eofSent := true)
    else x.(phase := Finished)
  }

  function AfterRead(cfg: Config, r: RelayId, x: RelayState, data: seq<byte>): RelayState {
    var c := cfg.cut(r)(x.buffer + data);
    Advance(cfg, r, x.(buffer := c.rest, todo := c.frames, chunks := x.chunks + [data]))
  }

  function AfterStreamEnds(cfg: Config, r: RelayId, x: RelayState): RelayState {
    Advance(cfg, r, x.(closing := true, buffer := [], todo := Flushed(x.buffer)))
  }

  function Source(u: Unit): Option<Id> {
    if u.Taken? then Some(u.id) else None
  }

  /** The bytes and the verdict a relay finds in the unit it got back. */
  function UnitBytes(c: Ctl, u: Unit): seq<byte>
    requires u.Taken? ==> u.id in c.units
  {
    match u case Passed(bytes) => bytes case Taken(id) => c.units[id].bytes
  }

  function UnitVerdict(c: Ctl, u: Unit): Verdict
    requires u.Taken? ==> u.id in c.units
  {
    match u case Passed(_) => FORWARD case Taken(id) => c.units[id].verdict
  }

  /** Acts on the unit's verdict: drops, writes its bytes, or first announces the modified bytes. */
  function AfterComplete(cfg: Config, r: RelayId, x: RelayState, raw: seq<byte>, u: Unit,
                         bytes: seq<byte>, v: Verdict): RelayState
  {
    var data := Sent(cfg, r, bytes, v);
    match v.action
    case Drop => Advance(cfg, r, Settle(x, Decision(raw, Source(u), v)))
    case Modified => x.(phase := Logging(raw, u, data))
    case Forward => AfterWrite(x, raw, u, v, data)
  }

  function Settle(x: RelayState, d: Decision): RelayState {
    x.(settled := x.settled + [d])
  }

  function AfterWrite(x: RelayState, raw: seq<byte>, u: Unit, v: Verdict, data: seq<byte>): RelayState {
    Settle(x, Decision(raw, Source(u), v)).(phase := Draining, out := x.out + data)
  }

  function AllLost(frames: seq<seq<byte>>): (r: seq<Decision>)
    ensures |r| == |frames|
    ensures forall k :: 0 <= k < |r| ==> r[k] == Lost(frames[k])
  {
    if frames == [] then [] else [Lost(frames[0])] + AllLost(frames[1..])
  }

  /**
   The cancellation surfaces at the await the relay is suspended in. The frame in hand and those cut but
   not yet taken up are gone. The first time, the clean-up still puts the flushed rest through the pipeline
   and half-closes; a relay already cleaning up just ends.
   */
  function AfterInterrupt(cfg: Config, r: RelayId, x: RelayState): RelayState {
    var y := x.(settled := x.settled + AllLost(InHand(x.phase) + x.todo), todo := [], cancelling := false,
                interrupted := true);
    if x.closing then y.(phase := Finished, abandoned := true)
    else Advance(cfg, r, y.(closing := true, buffer := [], todo := Flushed(x.buffer)))
  }

  function InHand(p: Phase): seq<seq<byte>> {
    if p.Captured? || p.Waiting? || p.Returned? || p.Logging? then [p.raw] else []
  }

  // ---- the system's steps ----

  /** A relay that was told to stop does nothing before the cancellation reaches it. */
  ghost predicate Free(s: Sys, r: RelayId) {
    r in s.relays && !s.relays[r].cancelling
  }

  ghost predicate Enabled(s: Sys, step: Step) {
    match step
    case Read(r, data) => Free(s, r) && s.relays[r].phase.Reading? && data != []
    case StreamEnds(r) => Free(s, r) && s.relays[r].phase.Reading?
    case Process(r, hold) => Free(s, r) && s.relays[r].phase.Captured? && (hold ==> s.ctl.enabled)
    case Wake(r) =>
      Free(s, r) && s.relays[r].phase.Waiting? && s.relays[r].phase.id in s.ctl.units
      && s.ctl.units[s.relays[r].phase.id].done
    case Complete(r) =>
      Free(s, r) && s.relays[r].phase.Returned?
      && (s.relays[r].phase.unit.Taken? ==> s.relays[r].phase.unit.id in s.ctl.units)
    case WriteModified(r) =>
      Free(s, r) && s.relays[r].phase.Logging?
      && (s.relays[r].phase.unit.Taken? ==> s.relays[r].phase.unit.id in s.ctl.units)
    case Drained(r) => Free(s, r) && s.relays[r].phase.Draining?
    case EofDone(r) => Free(s, r) && s.relays[r].phase.SendingEof?
    case Cancel(r) =>
      r in s.relays && !s.relays[r].phase.Finished?
      && (s.relays[r].phase.Waiting? ==> s.relays[r].phase.id in s.ctl.units)
    case Interrupt(r) => r in s.relays && s.relays[r].cancelling
    case Operate(_, _, _) => Valid(s.ctl)
    case Switch(_) => Valid(s.ctl)
    case Stop => Valid(s.ctl)
  }

  /** The verdict an operator call asks for; a replacement only counts with MODIFIED. */
  function Asked(action: Action, data: Option<seq<byte>>): Verdict {
    Verdict(action, if action == Modified then data else None)
  }

  function AfterCall(s: Sys, id: Id, action: Action, data: Option<seq<byte>>): seq<Accepted>
    requires s.ctl.pending <= s.ctl.units.Keys
  {
    if Accepts(s.ctl, id) then s.accepted + [Accepted(id, action, data)] else s.accepted
  }

  function WithRelay(s: Sys, r: RelayId, x: RelayState): Sys {
    s.(relays := s.relays[r := x])
  }

  function Next(cfg: Config, s: Sys, step: Step): Sys
    requires Enabled(s, step)
  {
    match step
    case Read(r, data) => WithRelay(s, r, AfterRead(cfg, r, s.relays[r], data))
    case StreamEnds(r) => WithRelay(s, r, AfterStreamEnds(cfg, r, s.relays[r]))
    case Process(r, hold) =>
      var x := s.relays[r];
      if hold then
        WithRelay(s, r, x.(phase := Waiting(x.phase.raw, s.nextId)))
          .(ctl := AfterHold(s.ctl, s.nextId, Traffic(cfg, r, x.phase.raw)), nextId := s.nextId + 1,
            owner := s.owner[s.nextId := r])
      else WithRelay(s, r, x.(phase := Returned(x.phase.raw, Passed(Traffic(cfg, r, x.phase.raw)))))
    case Wake(r) =>
      var x := s.relays[r];
      WithRelay(s, r, x.(phase := Returned(x.phase.raw, Taken(x.phase.id)))).(ctl := AfterFinish(s.ctl, x.phase.id))
    case Complete(r) =>
      var x := s.relays[r];
      var u := x.phase.unit;
      WithRelay(s, r, AfterComplete(cfg, r, x, x.phase.raw, u, UnitBytes(s.ctl, u), UnitVerdict(s.ctl, u)))
    case WriteModified(r) =>
      var x := s.relays[r];
      var u := x.phase.unit;
      WithRelay(s, r, AfterWrite(x, x.phase.raw, u, UnitVerdict(s.ctl, u), x.phase.data))
    case Drained(r) => WithRelay(s, r, Advance(cfg, r, s.relays[r]))
    case EofDone(r) => WithRelay(s, r, s.relays[r].(phase := Finished))
    case Cancel(r) =>
      var x := s.relays[r];
      var s' := WithRelay(s, r, x.(cancelling := true));
      if x.phase.Waiting? && !s.ctl.units[x.phase.id].done
      then s'.(ctl := AfterRevoke(s.ctl, x.phase.id), revoked := s.revoked + {x.phase.id})
      else s'
    case Interrupt(r) =>
      var x := s.relays[r];
      WithRelay(s, r, AfterInterrupt(cfg, r, x))
        .(ctl := if x.phase.Waiting? then AfterFinish(s.ctl, x.phase.id) else s.ctl)
    case Operate(id, action, data) =>
      s.(ctl := AfterVerdict(s.ctl, id, action, data), accepted := AfterCall(s, id, action, data))
    case Switch(value) => s.(ctl := AfterSwitch(s.ctl, value))
    case Stop => s.(ctl := AfterForwardAllPending(s.ctl))
  }

  // ---- what holds in every reachable state ----

  /** Every frame the reads so far amount to, in order, including the flushed rest once the stream has ended. */
  function FramesOf(cut: seq<byte> -> Cutting, x: RelayState): seq<seq<byte>> {
    var all := FeedAll(cut, [], x.chunks);
    all.frames + if x.closing then Flushed(all.rest) else []
  }

  /** A relay's frames and output: nothing lost, repeated or reordered, except by a cancellation. */
  ghost predicate Accounted(cfg: Config, r: RelayId, x: RelayState) {
    && FramesOf(cfg.cut(r), x) == Raws(x.settled) + InHand(x.phase) + x.todo
    && x.buffer == (if x.closing then [] else FeedAll(cfg.cut(r), [], x.chunks).rest)
    && x.out == Outcomes(cfg, r, x.settled)
    && (x.phase.Reading? ==> x.todo == [] && !x.closing)
    && (x.phase.SendingEof? || x.phase.Finished? ==> x.todo == [] && x.closing)
    && EofFits(cfg, r, x)
    && LossExplained(x)
  }

  /** EOF goes out only at the end and only where it propagates, and then always, unless the clean-up is cancelled. */
  ghost predicate EofFits(cfg: Config, r: RelayId, x: RelayState) {
    && (x.eofSent ==> cfg.propagateEof(r) && (x.phase.SendingEof? || x.phase.Finished?))
    && (x.phase.SendingEof? ==> x.eofSent)
    && (x.phase.Finished? && cfg.propagateEof(r) ==> x.eofSent || x.abandoned)
  }

  ghost predicate LossExplained(x: RelayState) {
    forall k :: 0 <= k < |x.settled| && x.settled[k].Lost? ==> x.interrupted
  }

  ghost predicate Mine(c: Ctl, owner: map<Id, RelayId>, r: RelayId, id: Id, bytes: seq<byte>) {
    id in c.units && id in owner && owner[id] == r && c.units[id].bytes == bytes
  }

  /** The unit a relay got back carries the bytes of the frame it handed over, and its verdict is final. */
  ghost predicate UnitFits(cfg: Config, c: Ctl, owner: map<Id, RelayId>, r: RelayId, raw: seq<byte>, u: Unit) {
    match u
    case Passed(bytes) => bytes == Traffic(cfg, r, raw)
    case Taken(id) => Mine(c, owner, r, id, Traffic(cfg, r, raw)) && c.units[id].done
  }

  /** A relay's dealings with the controller. */
  ghost predicate Linked(cfg: Config, c: Ctl, owner: map<Id, RelayId>, r: RelayId, x: RelayState) {
    && InHandLinked(cfg, c, owner, r, x)
    && (forall k :: 0 <= k < |x.settled| ==> Justified(cfg, c, owner, r, x.settled[k]))
    && SourcesDiffer(x)
  }

  /** A relay that waits can be resumed, and what it is about to write is its frame's outcome. */
  ghost predicate InHandLinked(cfg: Config, c: Ctl, owner: map<Id, RelayId>, r: RelayId, x: RelayState) {
    match x.phase
    case Waiting(raw, id) =>
      && Mine(c, owner, r, id, Traffic(cfg, r, raw))
      && (c.units[id].done || (id in c.pending && !x.cancelling))
    case Returned(raw, u) => UnitFits(cfg, c, owner, r, raw, u)
    case Logging(raw, u, data) =>
      UnitFits(cfg, c, owner, r, raw, u) && data == Outcome(cfg, r, raw, UnitVerdict(c, u))
    case _ => true
  }

  function Current(p: Phase): Option<Id> {
    match p
    case Waiting(_, id) => Some(id)
    case Returned(_, u) => Source(u)
    case Logging(_, u, _) => Source(u)
    case _ => None
  }

  /** No held unit decided two frames, or one frame and then again the one in hand. */
  ghost predicate SourcesDiffer(x: RelayState) {
    && (forall i, j :: 0 <= i < j < |x.settled| && SourceOf(x.settled[i]).Some? ==>
        SourceOf(x.settled[i]) != SourceOf(x.settled[j]))
    && (forall i :: 0 <= i < |x.settled| && SourceOf(x.settled[i]).Some? ==>
        SourceOf(x.settled[i]) != Current(x.phase))
  }

  /** A decision is FORWARD for a frame that was never held, and the held unit's own verdict otherwise. */
  ghost predicate Justified(cfg: Config, c: Ctl, owner: map<Id, RelayId>, r: RelayId, d: Decision) {
    match d
    case Lost(_) => true
    case Decision(raw, None, v) => v == FORWARD
    case Decision(raw, Some(id), v) =>
      Mine(c, owner, r, id, Traffic(cfg, r, raw)) && c.units[id].done && c.units[id].verdict == v
  }

  /** Every pending unit is the one its relay is waiting for, so no direction holds two. */
  ghost predicate PendingAwaited(s: Sys) {
    && s.owner.Keys == s.ctl.units.Keys
    && (forall id :: id in s.owner ==> id < s.nextId && s.owner[id] in s.relays)
    && (forall id :: id in s.ctl.pending ==> Awaited(s, id))
  }

  ghost predicate Awaited(s: Sys, id: Id) {
    && id in s.owner && s.owner[id] in s.relays
    && s.relays[s.owner[id]].phase.Waiting? && s.relays[s.owner[id]].phase.id == id
  }

  ghost predicate Settles(x: RelayState, id: Id) {
    exists k :: 0 <= k < |x.settled| && SourceOf(x.settled[k]) == Some(id)
  }

  /** A unit is in hand or decided its frame, unless a cancellation reached its relay. */
  ghost predicate Traced(x: RelayState, id: Id) {
    x.interrupted || Current(x.phase) == Some(id) || Settles(x, id)
  }

  /** A unit whose future was cancelled decides nothing: its relay is on the way out of the wait for it. */
  ghost predicate Unused(x: RelayState, id: Id) {
    !Settles(x, id) && (Current(x.phase) == Some(id) ==> x.phase.Waiting? && x.cancelling)
  }

  ghost predicate UnitsFollowed(s: Sys) {
    && s.revoked <= s.ctl.units.Keys && s.owner.Keys == s.ctl.units.Keys
    && (forall id :: id in s.owner ==> s.owner[id] in s.relays && Traced(s.relays[s.owner[id]], id))
    && (forall id :: id in s.revoked ==> s.ctl.units[id].done && Unused(s.relays[s.owner[id]], id))
  }

  /**
   Operator calls that succeeded: at most one a unit, never on one whose future was cancelled, and its
   verdict stands; units decided otherwise are forwarded.
   */
  ghost predicate VerdictsStand(s: Sys) {
    && (forall k :: 0 <= k < |s.accepted| ==>
          var a := s.accepted[k];
          a.id in s.ctl.units && s.ctl.units[a.id].done && s.ctl.units[a.id].verdict == a.Verdict())
    && (forall k :: 0 <= k < |s.accepted| ==> s.accepted[k].id !in s.revoked)
    && (forall i, j :: 0 <= i < j < |s.accepted| ==> s.accepted[i].id != s.accepted[j].id)
    && (forall id :: id in s.ctl.units && s.ctl.units[id].verdict != FORWARD ==>
          exists k :: 0 <= k < |s.accepted| && s.accepted[k].id == id)
    && OpenUndecided(s.ctl)
  }

  ghost predicate Inv(cfg: Config, s: Sys) {
    && Valid(s.ctl)
    && PendingAwaited(s)
    && VerdictsStand(s)
    && UnitsFollowed(s)
    && (forall r :: r in s.relays ==> Accounted(cfg, r, s.relays[r]))
    && (forall r :: r in s.relays ==> Linked(cfg, s.ctl, s.owner, r, s.relays[r]))
  }

  // ---- what one relay accounts for ----

  lemma {:induction false} FeedAllSnoc(cut: seq<byte> -> Cutting, buffer: seq<byte>, chunks: seq<seq<byte>>,
                                       data: seq<byte>)
    ensures var before := FeedAll(cut, buffer, chunks);
            var last := cut(before.rest + data);
            FeedAll(cut, buffer, chunks + [data]) == Cutting(before.frames + last.frames, last.rest)
    decreases |chunks|
  {
    if chunks == [] {
      assert chunks + [data] == [data];
      assert FeedAll(cut, cut(buffer + data).rest, [data][1..]) == Cutting([], cut(buffer + data).rest);
    } else {
      assert (chunks + [data])[1..] == chunks[1..] + [data];
      FeedAllSnoc(cut, cut(buffer + chunks[0]).rest, chunks[1..], data);
    }
  }

  lemma {:induction false} RawsAppend(settled: seq<Decision>, more: seq<Decision>)
    ensures Raws(settled + more) == Raws(settled) + Raws(more)
  {
  }

  lemma {:induction false} OutcomesSnoc(cfg: Config, r: RelayId, settled: seq<Decision>, d: Decision)
    ensures Outcomes(cfg, r, settled + [d]) == Outcomes(cfg, r, settled) + Result(cfg, r, d)
  {
    assert (settled + [d])[..|settled|] == settled;
  }

  lemma {:induction false} LostOutcomes(cfg: Config, r: RelayId, settled: seq<Decision>, lost: seq<seq<byte>>)
    ensures Raws(AllLost(lost)) == lost
    ensures Outcomes(cfg, r, settled + AllLost(lost)) == Outcomes(cfg, r, settled)
    decreases |lost|
  {
    hide Outcomes;
    assert Raws(AllLost(lost)) == lost;
    if lost == [] {
      assert settled + AllLost(lost) == settled;
    } else {
      hide Raws;
      LostOutcomes(cfg, r, settled + [Lost(lost[0])], lost[1..]);
      assert settled + AllLost(lost) == (settled + [Lost(lost[0])]) + AllLost(lost[1..]);
      OutcomesSnoc(cfg, r, settled, Lost(lost[0]));
      assert Outcomes(cfg, r, settled) + [] == Outcomes(cfg, r, settled);
    }
  }

  /** `x` between two frames: nothing in hand, EOF not sent. */
  ghost predicate Between(cfg: Config, r: RelayId, x: RelayState) {
    && FramesOf(cfg.cut(r), x) == Raws(x.settled) + x.todo
    && x.buffer == (if x.closing then [] else FeedAll(cfg.cut(r), [], x.chunks).rest)
    && x.out == Outcomes(cfg, r, x.settled)
    && !x.eofSent && LossExplained(x)
  }

  lemma {:induction false} AdvanceAccounted(cfg: Config, r: RelayId, x: RelayState)
    requires Between(cfg, r, x)
    ensures Accounted(cfg, r, Advance(cfg, r, x))
  {
    hide FeedAll, Outcomes, Raws;
    var y := Advance(cfg, r, x);
    assert FramesOf(cfg.cut(r), y) == FramesOf(cfg.cut(r), x);
    if x.todo != [] {
      assert x.todo == [x.todo[0]] + x.todo[1..];
      assert Raws(x.settled) + x.todo == Raws(x.settled) + [x.todo[0]] + x.todo[1..];
    } else {
      assert Raws(x.settled) + [] + x.todo == Raws(x.settled) + x.todo;
    }
  }

  lemma {:induction false} ReadAccounted(cfg: Config, r: RelayId, x: RelayState, data: seq<byte>)
    requires Accounted(cfg, r, x) && x.phase.Reading?
    ensures Accounted(cfg, r, AfterRead(cfg, r, x, data))
  {
    hide FeedAll, Outcomes, Raws;
    FeedAllSnoc(cfg.cut(r), [], x.chunks, data);
    var c := cfg.cut(r)(x.buffer + data);
    var y := x.(buffer := c.rest, todo := c.frames, chunks := x.chunks + [data]);
    assert FramesOf(cfg.cut(r), x) == Raws(x.settled);
    assert FramesOf(cfg.cut(r), y) == Raws(y.settled) + y.todo;
    AdvanceAccounted(cfg, r, y);
  }

  lemma {:induction false} EndAccounted(cfg: Config, r: RelayId, x: RelayState)
    requires Accounted(cfg, r, x) && x.phase.Reading?
    ensures Accounted(cfg, r, AfterStreamEnds(cfg, r, x))
  {
    hide FeedAll, Outcomes, Raws;
    var y := x.(closing := true, buffer := [], todo := Flushed(x.buffer));
    assert FramesOf(cfg.cut(r), x) == Raws(x.settled);
    assert FramesOf(cfg.cut(r), y) == Raws(y.settled) + y.todo;
    AdvanceAccounted(cfg, r, y);
  }

  lemma {:induction false} DropAccounted(cfg: Config, r: RelayId, x: RelayState, d: Decision)
    requires Accounted(cfg, r, x) && InHand(x.phase) == [d.raw] && d.Decision? && Result(cfg, r, d) == []
    ensures Accounted(cfg, r, Advance(cfg, r, Settle(x, d)))
  {
    hide FeedAll, Outcomes, Raws, Outcome, Result;
    RawsAppend(x.settled, [d]);
    OneRaw(d);
    OutcomesSnoc(cfg, r, x.settled, d);
    assert Outcomes(cfg, r, x.settled) + [] == Outcomes(cfg, r, x.settled);
    var y := Settle(x, d);
    assert FramesOf(cfg.cut(r), y) == FramesOf(cfg.cut(r), x);
    AdvanceAccounted(cfg, r, y);
  }

  lemma {:induction false} OneRaw(d: Decision)
    ensures Raws([d]) == [d.raw]
  {
  }

  lemma {:induction false} WriteAccounted(cfg: Config, r: RelayId, x: RelayState, raw: seq<byte>, u: Unit, v: Verdict,
                                          data: seq<byte>)
    requires Accounted(cfg, r, x) && InHand(x.phase) == [raw] && data == Outcome(cfg, r, raw, v)
    ensures Accounted(cfg, r, AfterWrite(x, raw, u, v, data))
  {
    hide FeedAll, Outcomes, Raws, Outcome;
    var d := Decision(raw, Source(u), v);
    RawsAppend(x.settled, [d]);
    OneRaw(d);
    OutcomesSnoc(cfg, r, x.settled, d);
    var y := AfterWrite(x, raw, u, v, data);
    assert FramesOf(cfg.cut(r), y) == FramesOf(cfg.cut(r), x);
    assert Raws(x.settled) + [raw] + x.todo == (Raws(x.settled) + [raw]) + [] + x.todo;
  }

  lemma {:induction false} CompleteAccounted(cfg: Config, r: RelayId, x: RelayState, v: Verdict)
    requires Accounted(cfg, r, x) && x.phase.Returned?
    ensures Accounted(cfg, r, AfterComplete(cfg, r, x, x.phase.raw, x.phase.unit, Traffic(cfg, r, x.phase.raw), v))
  {
    hide Accounted, Outcomes, Sent, Traffic, Outcome, Advance;
    SentIsOutcome(cfg, r, x.phase.raw, v);
    DroppedIsNothing(cfg, r, x.phase.raw, v);
    var raw, u := x.phase.raw, x.phase.unit;
    match v.action {
      case Drop => DropAccounted(cfg, r, x, Decision(raw, Source(u), v));
      case Forward => WriteAccounted(cfg, r, x, raw, u, v, Sent(cfg, r, Traffic(cfg, r, raw), v));
      case Modified => PhaseAccounted(cfg, r, x, Logging(raw, u, Sent(cfg, r, Traffic(cfg, r, raw), v)));
    }
  }

  lemma {:induction false} DrainedAccounted(cfg: Config, r: RelayId, x: RelayState)
    requires Accounted(cfg, r, x) && x.phase.Draining?
    ensures Accounted(cfg, r, Advance(cfg, r, x))
  {
    hide FeedAll, Outcomes, Raws;
    assert Raws(x.settled) + [] + x.todo == Raws(x.settled) + x.todo;
    AdvanceAccounted(cfg, r, x);
  }

  /** Moving a relay inside one frame changes nothing it has accounted for. */
  lemma {:induction false} PhaseAccounted(cfg: Config, r: RelayId, x: RelayState, phase: Phase)
    requires Accounted(cfg, r, x) && InHand(phase) == InHand(x.phase)
    requires !phase.Reading? && !phase.SendingEof? && (phase.Finished? ==> x.phase.SendingEof?)
    requires x.phase.SendingEof? || x.phase.Finished? ==> phase.Finished?
    ensures Accounted(cfg, r, x.(phase := phase))
  {
    hide FeedAll, Outcomes, Raws;
    assert FramesOf(cfg.cut(r), x.(phase := phase)) == FramesOf(cfg.cut(r), x);
  }

  lemma {:induction false} CancelAccounted(cfg: Config, r: RelayId, x: RelayState)
    requires Accounted(cfg, r, x)
    ensures Accounted(cfg, r, x.(cancelling := true))
  {
    hide FeedAll, Outcomes, Raws;
    assert FramesOf(cfg.cut(r), x.(cancelling := true)) == FramesOf(cfg.cut(r), x);
  }

  /** What a cancellation takes is recorded as lost, and nothing of it is ever written. */
  lemma {:induction false} InterruptAccounted(cfg: Config, r: RelayId, x: RelayState)
    requires Accounted(cfg, r, x)
    ensures Accounted(cfg, r, AfterInterrupt(cfg, r, x))
  {
    hide FeedAll, Outcomes, Raws, AllLost, Advance;
    var lost := InHand(x.phase) + x.todo;
    LostOutcomes(cfg, r, x.settled, lost);
    RawsAppend(x.settled, AllLost(lost));
    var settled := x.settled + AllLost(lost);
    assert Raws(x.settled) + InHand(x.phase) + x.todo == Raws(settled);
    if x.closing {
      var y := AfterInterrupt(cfg, r, x);
      assert FramesOf(cfg.cut(r), y) == FramesOf(cfg.cut(r), x);
      assert Raws(settled) + [] + [] == Raws(settled);
    } else {
      var z := x.(settled := settled, todo := Flushed(x.buffer), cancelling := false, interrupted := true,
                  closing := true, buffer := []);
      assert FramesOf(cfg.cut(r), x) == FeedAll(cfg.cut(r), [], x.chunks).frames;
      assert FramesOf(cfg.cut(r), z) == Raws(settled) + z.todo;
      AdvanceAccounted(cfg, r, z);
    }
  }

  // ---- what becomes of units when one relay moves ----

  /** What is known of the units of a relay stays known when it moves; `made` is a unit it just made. */
  ghost predicate Carries(x: RelayState, y: RelayState, made: Option<Id>) {
    && (forall id: Id :: Traced(x, id) || made == Some(id) ==> Traced(y, id))
    && (forall id: Id :: Unused(x, id) && made != Some(id) ==> Unused(y, id))
  }

  /** A relay that moves on with the frame it has in hand. */
  lemma {:induction false} CarriesOn(x: RelayState, y: RelayState)
    requires !x.cancelling && y.settled == x.settled && y.interrupted == x.interrupted
    requires Current(y.phase) == Current(x.phase)
    ensures Carries(x, y, None)
  {
    hide Current, SourceOf;
  }

  /** A relay that settles the frame in hand. */
  lemma {:induction false} CarriesSettled(x: RelayState, y: RelayState, d: Decision)
    requires !x.cancelling && y.settled == x.settled + [d] && y.interrupted == x.interrupted
    requires SourceOf(d) == Current(x.phase) && Current(y.phase).None?
    ensures Carries(x, y, None)
  {
    hide Current, SourceOf;
    assert y.settled[|x.settled|] == d;
    forall id: Id
      ensures Settles(y, id) <==> Settles(x, id) || SourceOf(d) == Some(id)
    {
      if Settles(x, id) {
        var k :| 0 <= k < |x.settled| && SourceOf(x.settled[k]) == Some(id);
        assert y.settled[k] == x.settled[k];
      }
    }
  }

  lemma {:induction false} CarriesHeld(x: RelayState, y: RelayState, id: Id)
    requires !x.cancelling && y.settled == x.settled && y.interrupted == x.interrupted
    requires Current(x.phase).None? && Current(y.phase) == Some(id)
    ensures Carries(x, y, Some(id))
  {
    hide Current, SourceOf;
  }

  lemma {:induction false} CarriesCancelled(x: RelayState)
    ensures Carries(x, x.(cancelling := true), None)
  {
    hide Current, SourceOf;
  }

  /** A relay between two frames has no unit in hand. */
  lemma {:induction false} AdvanceShape(cfg: Config, r: RelayId, x: RelayState)
    ensures var y := Advance(cfg, r, x);
            && y.settled == x.settled && y.interrupted == x.interrupted && y.cancelling == x.cancelling
            && Current(y.phase).None? && !y.phase.Waiting? && !y.phase.Returned? && !y.phase.Logging?
  {
  }

  lemma {:induction false} InterruptShape(cfg: Config, r: RelayId, x: RelayState)
    ensures var y := AfterInterrupt(cfg, r, x);
            && y.settled == x.settled + AllLost(InHand(x.phase) + x.todo) && y.interrupted
            && Current(y.phase).None? && !y.phase.Waiting? && !y.phase.Returned? && !y.phase.Logging?
  {
    hide InHand, Advance, AllLost;
    var y := x.(settled := x.settled + AllLost(InHand(x.phase) + x.todo), todo := [], cancelling := false,
                interrupted := true);
    AdvanceShape(cfg, r, y.(closing := true, buffer := [], todo := Flushed(x.buffer)));
  }

  lemma {:induction false} CarriesInterrupted(cfg: Config, r: RelayId, x: RelayState)
    ensures Carries(x, AfterInterrupt(cfg, r, x), None)
  {
    hide AfterInterrupt, InHand, Current;
    var y := AfterInterrupt(cfg, r, x);
    InterruptShape(cfg, r, x);
    forall id: Id
      ensures Settles(y, id) ==> Settles(x, id)
    {
      if Settles(y, id) {
        var k :| 0 <= k < |y.settled| && SourceOf(y.settled[k]) == Some(id);
        assert k < |x.settled| && y.settled[k] == x.settled[k];
      }
    }
  }

  lemma {:induction false} FollowedOn(s: Sys, s': Sys, r: RelayId, made: Option<Id>)
    requires UnitsFollowed(s) && r in s.relays && s'.relays.Keys == s.relays.Keys
    requires forall q :: q in s.relays && q != r ==> s'.relays[q] == s.relays[q]
    requires s'.owner.Keys == s'.ctl.units.Keys && s'.revoked == s.revoked
    requires forall id :: id in s.owner ==> id in s'.owner && s'.owner[id] == s.owner[id]
    requires forall id :: id in s'.owner && id !in s.owner ==> made == Some(id) && s'.owner[id] == r
    requires made.Some? ==> made.value !in s.owner
    requires forall id :: id in s.ctl.units && s.ctl.units[id].done ==> id in s'.ctl.units && s'.ctl.units[id].done
    requires Carries(s.relays[r], s'.relays[r], made)
    ensures UnitsFollowed(s')
  {
    hide Traced, Unused;
  }

  // ---- every step keeps the invariant ----

  /** Relays are not disturbed by what happens to other units. */
  lemma {:induction false} LinkedStays(cfg: Config, c: Ctl, c': Ctl, owner: map<Id, RelayId>,
                                       owner': map<Id, RelayId>, r: RelayId, x: RelayState)
    requires Valid(c) && Linked(cfg, c, owner, r, x) && Evolves(c, c')
    requires forall id :: id in owner ==> id in owner' && owner'[id] == owner[id]
    ensures Linked(cfg, c', owner', r, x)
  {
    hide SourcesDiffer, Outcome, Traffic;
    forall k | 0 <= k < |x.settled|
      ensures Justified(cfg, c', owner', r, x.settled[k])
    {
      assert Justified(cfg, c, owner, r, x.settled[k]);
    }
  }

  /** A step of relay `r` that leaves the controller alone. */
  lemma {:induction false} RelayMoves(cfg: Config, s: Sys, r: RelayId, x: RelayState)
    requires Inv(cfg, s) && r in s.relays
    requires Accounted(cfg, r, x) && Linked(cfg, s.ctl, s.owner, r, x)
    requires s.relays[r].phase.Waiting? ==> x.phase == s.relays[r].phase
    requires Carries(s.relays[r], x, None)
    ensures Inv(cfg, WithRelay(s, r, x))
  {
    hide Accounted, Linked, Carries, UnitsFollowed, PendingAwaited, VerdictsStand;
    FollowedKeys(s);
    FollowedOn(s, WithRelay(s, r, x), r, None);
    MovePending(s, r, x);
    MoveStands(s, r, x);
  }

  lemma {:induction false} MovePending(s: Sys, r: RelayId, x: RelayState)
    requires PendingAwaited(s) && r in s.relays
    requires s.relays[r].phase.Waiting? ==> x.phase == s.relays[r].phase
    ensures PendingAwaited(WithRelay(s, r, x))
  {
    var s' := WithRelay(s, r, x);
    forall id | id in s'.ctl.pending
      ensures Awaited(s', id)
    {
      assert Awaited(s, id);
    }
  }

  lemma {:induction false} MoveStands(s: Sys, r: RelayId, x: RelayState)
    requires VerdictsStand(s)
    ensures VerdictsStand(WithRelay(s, r, x))
  {
    hide OpenUndecided;
  }

  /** A step of the operator or the proxy that only changes the controller. */
  lemma {:induction false} ControllerMoves(cfg: Config, s: Sys, ctl: Ctl, accepted: seq<Accepted>)
    requires Inv(cfg, s) && Valid(ctl) && Evolves(s.ctl, ctl)
    requires ctl.units.Keys == s.ctl.units.Keys && ctl.pending <= s.ctl.pending
    requires VerdictsStand(s.(ctl := ctl, accepted := accepted))
    ensures Inv(cfg, s.(ctl := ctl, accepted := accepted))
  {
    hide Accounted, VerdictsStand, Valid, Linked, UnitsFollowed;
    var s' := s.(ctl := ctl, accepted := accepted);
    ControllerFollows(s, ctl, accepted);
    hide Evolves;
    forall r | r in s'.relays
      ensures Linked(cfg, s'.ctl, s'.owner, r, s'.relays[r])
    {
      LinkedStays(cfg, s.ctl, ctl, s.owner, s.owner, r, s.relays[r]);
    }
    forall id | id in s'.ctl.pending
      ensures Awaited(s', id)
    {
      assert Awaited(s, id);
    }
  }

  lemma {:induction false} ControllerFollows(s: Sys, ctl: Ctl, accepted: seq<Accepted>)
    requires UnitsFollowed(s) && Evolves(s.ctl, ctl) && ctl.units.Keys == s.ctl.units.Keys
    ensures UnitsFollowed(s.(ctl := ctl, accepted := accepted))
  {
    hide Traced, Unused;
  }

  /** A step of relay `r` that also changes the controller. */
  lemma {:induction false} BothMove(cfg: Config, s: Sys, s': Sys, r: RelayId)
    requires Inv(cfg, s) && r in s.relays && s'.relays.Keys == s.relays.Keys
    requires forall q :: q in s.relays && q != r ==> s'.relays[q] == s.relays[q]
    requires Valid(s'.ctl) && Evolves(s.ctl, s'.ctl)
    requires forall id :: id in s.owner ==> id in s'.owner && s'.owner[id] == s.owner[id]
    requires Accounted(cfg, r, s'.relays[r]) && Linked(cfg, s'.ctl, s'.owner, r, s'.relays[r])
    requires PendingAwaited(s') && VerdictsStand(s') && UnitsFollowed(s')
    ensures Inv(cfg, s')
  {
    hide Accounted, Linked, PendingAwaited, VerdictsStand, Evolves, UnitsFollowed;
    forall q | q in s'.relays
      ensures Linked(cfg, s'.ctl, s'.owner, q, s'.relays[q]) && Accounted(cfg, q, s'.relays[q])
    {
      if q != r {
        LinkedStays(cfg, s.ctl, s'.ctl, s.owner, s'.owner, q, s.relays[q]);
      }
    }
  }

  lemma {:induction false} HoldLinked(cfg: Config, s: Sys, r: RelayId)
    requires Inv(cfg, s) && Enabled(s, Process(r, true))
    ensures var s' := Next(cfg, s, Process(r, true));
            Valid(s'.ctl) && Evolves(s.ctl, s'.ctl) && Linked(cfg, s'.ctl, s'.owner, r, s'.relays[r])
    ensures s.nextId !in s.ctl.units && s.nextId !in s.owner
  {
    hide Accounted, VerdictsStand, UnitsFollowed, Traffic;
    var x, id := s.relays[r], s.nextId;
    var s' := Next(cfg, s, Process(r, true));
    HoldEvolves(s.ctl, id, Traffic(cfg, r, x.phase.raw));
    LinkedStays(cfg, s.ctl, s'.ctl, s.owner, s'.owner, r, x);
    hide Evolves;
    HoldSources(cfg, s.ctl, s.owner, r, x, id);
  }

  /** A made unit decided nothing yet. */
  lemma {:induction false} HoldSources(cfg: Config, c: Ctl, owner: map<Id, RelayId>, r: RelayId, x: RelayState, id: Id)
    requires Linked(cfg, c, owner, r, x) && x.phase.Captured? && id !in c.units
    ensures SourcesDiffer(x.(phase := Waiting(x.phase.raw, id)))
  {
    hide Traffic;
    forall k | 0 <= k < |x.settled| && SourceOf(x.settled[k]).Some?
      ensures SourceOf(x.settled[k]) != Some(id)
    {
      assert Justified(cfg, c, owner, r, x.settled[k]);
    }
  }

  lemma {:induction false} HoldPending(cfg: Config, s: Sys, r: RelayId)
    requires PendingAwaited(s) && Enabled(s, Process(r, true)) && s.nextId !in s.owner
    ensures PendingAwaited(Next(cfg, s, Process(r, true)))
  {
    var s' := Next(cfg, s, Process(r, true));
    forall i | i in s'.ctl.pending
      ensures Awaited(s', i)
    {
      assert i != s.nextId ==> Awaited(s, i);
    }
  }

  lemma {:induction false} HoldStands(cfg: Config, s: Sys, r: RelayId)
    requires VerdictsStand(s) && Enabled(s, Process(r, true)) && s.nextId !in s.ctl.units
    ensures VerdictsStand(Next(cfg, s, Process(r, true)))
  {
    var s' := Next(cfg, s, Process(r, true));
    forall i | i in s'.ctl.units && s'.ctl.units[i].verdict != FORWARD
      ensures exists k :: 0 <= k < |s'.accepted| && s'.accepted[k].id == i
    {
      assert s.ctl.units[i].verdict != FORWARD;
    }
  }

  lemma {:induction false} HoldFollowed(cfg: Config, s: Sys, r: RelayId)
    requires UnitsFollowed(s) && Enabled(s, Process(r, true)) && s.nextId !in s.owner
    ensures UnitsFollowed(Next(cfg, s, Process(r, true)))
  {
    hide UnitsFollowed, Carries, Traffic;
    var s' := Next(cfg, s, Process(r, true));
    FollowedKeys(s);
    CarriesHeld(s.relays[r], s'.relays[r], s.nextId);
    FollowedOn(s, s', r, Some(s.nextId));
  }

  lemma {:induction false} FollowedKeys(s: Sys)
    requires UnitsFollowed(s)
    ensures s.owner.Keys == s.ctl.units.Keys
  {
  }

  lemma {:induction false} HoldKeeps(cfg: Config, s: Sys, r: RelayId)
    requires Inv(cfg, s) && Enabled(s, Process(r, true))
    ensures Inv(cfg, Next(cfg, s, Process(r, true)))
  {
    hide Accounted, Linked, PendingAwaited, VerdictsStand, UnitsFollowed, Evolves, Valid, AfterHold;
    HoldLinked(cfg, s, r);
    HoldPending(cfg, s, r);
    HoldStands(cfg, s, r);
    HoldFollowed(cfg, s, r);
    PhaseAccounted(cfg, r, s.relays[r], Waiting(s.relays[r].phase.raw, s.nextId));
    BothMove(cfg, s, Next(cfg, s, Process(r, true)), r);
  }

  lemma {:induction false} WakeLinked(cfg: Config, s: Sys, r: RelayId)
    requires Inv(cfg, s) && Enabled(s, Wake(r))
    ensures var s' := Next(cfg, s, Wake(r));
            Valid(s'.ctl) && Evolves(s.ctl, s'.ctl) && Linked(cfg, s'.ctl, s'.owner, r, s'.relays[r])
  {
    hide Accounted, VerdictsStand, PendingAwaited, UnitsFollowed;
    var x := s.relays[r];
    var y := x.(phase := Returned(x.phase.raw, Taken(x.phase.id)));
    FinishEvolves(s.ctl, x.phase.id);
    assert Linked(cfg, s.ctl, s.owner, r, x);
    assert Linked(cfg, s.ctl, s.owner, r, y);
    LinkedStays(cfg, s.ctl, AfterFinish(s.ctl, x.phase.id), s.owner, s.owner, r, y);
  }

  /** Resumed or interrupted, a relay takes the unit it waited for out of the table. */
  lemma {:induction false} LeavePending(cfg: Config, s: Sys, r: RelayId, y: RelayState)
    requires PendingAwaited(s) && r in s.relays && s.relays[r].phase.Waiting?
    ensures PendingAwaited(WithRelay(s, r, y).(ctl := AfterFinish(s.ctl, s.relays[r].phase.id)))
  {
    var s' := WithRelay(s, r, y).(ctl := AfterFinish(s.ctl, s.relays[r].phase.id));
    forall i | i in s'.ctl.pending
      ensures Awaited(s', i)
    {
      assert Awaited(s, i);
    }
  }

  lemma {:induction false} LeaveStands(s: Sys, r: RelayId, y: RelayState)
    requires VerdictsStand(s) && r in s.relays && s.relays[r].phase.Waiting?
    requires s.relays[r].phase.id in s.ctl.units && s.ctl.units[s.relays[r].phase.id].done
    ensures VerdictsStand(WithRelay(s, r, y).(ctl := AfterFinish(s.ctl, s.relays[r].phase.id)))
  {
  }

  lemma {:induction false} LeaveFollowed(s: Sys, r: RelayId, y: RelayState)
    requires UnitsFollowed(s) && r in s.relays && s.relays[r].phase.Waiting? && Carries(s.relays[r], y, None)
    ensures UnitsFollowed(WithRelay(s, r, y).(ctl := AfterFinish(s.ctl, s.relays[r].phase.id)))
  {
    hide UnitsFollowed, Carries;
    FollowedKeys(s);
    FollowedOn(s, WithRelay(s, r, y).(ctl := AfterFinish(s.ctl, s.relays[r].phase.id)), r, None);
  }

  lemma {:induction false} WakeKeeps(cfg: Config, s: Sys, r: RelayId)
    requires Inv(cfg, s) && Enabled(s, Wake(r))
    ensures Inv(cfg, Next(cfg, s, Wake(r)))
  {
    hide Accounted, Linked, PendingAwaited, VerdictsStand, UnitsFollowed, Carries, Evolves, Valid, AfterFinish;
    var x, y := s.relays[r], Next(cfg, s, Wake(r)).relays[r];
    WakeLinked(cfg, s, r);
    LeavePending(cfg, s, r, y);
    LeaveStands(s, r, y);
    CarriesOn(x, y);
    LeaveFollowed(s, r, y);
    PhaseAccounted(cfg, r, x, Returned(x.phase.raw, Taken(x.phase.id)));
    BothMove(cfg, s, Next(cfg, s, Wake(r)), r);
  }

  lemma {:induction false} OperateKeeps(cfg: Config, s: Sys, id: Id, action: Action, edit: Option<seq<byte>>)
    requires Inv(cfg, s)
    ensures Inv(cfg, Next(cfg, s, Operate(id, action, edit)))
  {
    hide Accounted, Linked, PendingAwaited, Traced, Unused;
    VerdictDecides(s.ctl, id, action, edit);
    var s' := Next(cfg, s, Operate(id, action, edit));
    OperateStands(s, id, action, edit);
    hide VerdictsStand, UnitsFollowed;
    assert s' == s.(ctl := s'.ctl, accepted := s'.accepted);
    ControllerMoves(cfg, s, s'.ctl, s'.accepted);
  }

  /** A successful call is recorded once, for a unit no earlier call decided. */
  lemma {:induction false} OperateStands(s: Sys, id: Id, action: Action, edit: Option<seq<byte>>)
    requires Valid(s.ctl) && VerdictsStand(s)
    requires forall i :: i in s.revoked ==> i in s.ctl.units && s.ctl.units[i].done
    ensures var ctl := AfterVerdict(s.ctl, id, action, edit);
            VerdictsStand(s.(ctl := ctl, accepted := AfterCall(s, id, action, edit)))
  {
    if Accepts(s.ctl, id) {
      var ctl := AfterVerdict(s.ctl, id, action, edit);
      var accepted := AfterCall(s, id, action, edit);
      forall i | i in ctl.units && ctl.units[i].verdict != FORWARD
        ensures exists k :: 0 <= k < |accepted| && accepted[k].id == i
      {
        if i == id {
          assert accepted[|s.accepted|].id == i;
        } else {
          assert s.ctl.units[i].verdict != FORWARD;
          var k :| 0 <= k < |s.accepted| && s.accepted[k].id == i;
          assert accepted[k].id == i;
        }
      }
    }
  }

  /** An open unit is pending and still carries the verdict it was created with. */
  ghost predicate OpenUndecided(c: Ctl) {
    forall id :: id in c.units && !c.units[id].done ==> id in c.pending && c.units[id].verdict == FORWARD
  }

  lemma {:induction false} StopStands(s: Sys)
    requires Valid(s.ctl) && VerdictsStand(s) && OpenUndecided(s.ctl)
    ensures VerdictsStand(s.(ctl := AfterForwardAllPending(s.ctl)))
  {
    ForwardAllDecides(s.ctl);
    var ctl := AfterForwardAllPending(s.ctl);
    forall i | i in ctl.units && ctl.units[i].verdict != FORWARD
      ensures exists k :: 0 <= k < |s.accepted| && s.accepted[k].id == i
    {
      assert s.ctl.units[i].verdict != FORWARD;
    }
  }

  lemma {:induction false} StopKeeps(cfg: Config, s: Sys)
    requires Inv(cfg, s)
    ensures Inv(cfg, Next(cfg, s, Stop))
  {
    hide Accounted, Linked, PendingAwaited, UnitsFollowed;
    ForwardAllDecides(s.ctl);
    StopStands(s);
    hide VerdictsStand, AfterForwardAllPending;
    ControllerMoves(cfg, s, AfterForwardAllPending(s.ctl), s.accepted);
  }

  lemma {:induction false} SwitchOn(cfg: Config, s: Sys, value: bool)
    requires Inv(cfg, s)
    ensures Inv(cfg, s.(ctl := s.ctl.(enabled := value)))
  {
    hide Accounted, Linked, PendingAwaited, VerdictsStand, UnitsFollowed;
    var ctl := s.ctl.(enabled := value);
    SwitchStands(s, value);
    ControllerMoves(cfg, s, ctl, s.accepted);
  }

  lemma {:induction false} SwitchStands(s: Sys, value: bool)
    requires VerdictsStand(s)
    ensures VerdictsStand(s.(ctl := s.ctl.(enabled := value)))
  {
  }

  lemma {:induction false} SwitchKeeps(cfg: Config, s: Sys, value: bool)
    requires Inv(cfg, s)
    ensures Inv(cfg, Next(cfg, s, Switch(value)))
  {
    hide Inv, AfterForwardAllPending;
    SwitchOn(cfg, s, value);
    if !value {
      StopKeeps(cfg, s.(ctl := s.ctl.(enabled := value)));
    }
  }

  lemma {:induction false} PassKeeps(cfg: Config, s: Sys, r: RelayId)
    requires Inv(cfg, s) && Enabled(s, Process(r, false))
    ensures Inv(cfg, Next(cfg, s, Process(r, false)))
  {
    hide Accounted, PendingAwaited, VerdictsStand, UnitsFollowed, Carries, Traffic;
    var x := s.relays[r];
    var y := x.(phase := Returned(x.phase.raw, Passed(Traffic(cfg, r, x.phase.raw))));
    PhaseAccounted(cfg, r, x, y.phase);
    CarriesOn(x, y);
    assert Linked(cfg, s.ctl, s.owner, r, x);
    assert Linked(cfg, s.ctl, s.owner, r, y);
    hide Linked;
    RelayMoves(cfg, s, r, y);
  }

  /** Stages of one relay that deal with no unit. */
  lemma {:induction false} LinkedAlone(cfg: Config, c: Ctl, owner: map<Id, RelayId>, r: RelayId, x: RelayState,
                                       y: RelayState)
    requires Linked(cfg, c, owner, r, x) && y.settled == x.settled
    requires !y.phase.Waiting? && !y.phase.Returned? && !y.phase.Logging?
    ensures Linked(cfg, c, owner, r, y)
  {
    hide Justified;
  }

  /** Settling the frame in hand through the unit that came back. */
  lemma {:induction false} LinkedSettled(cfg: Config, c: Ctl, owner: map<Id, RelayId>, r: RelayId, x: RelayState,
                                         y: RelayState)
    requires Linked(cfg, c, owner, r, x) && (x.phase.Returned? || x.phase.Logging?)
    requires UnitFits(cfg, c, owner, r, x.phase.raw, x.phase.unit)
    requires y.settled == x.settled + [Decision(x.phase.raw, Source(x.phase.unit), UnitVerdict(c, x.phase.unit))]
    requires !y.phase.Waiting? && !y.phase.Returned? && !y.phase.Logging?
    ensures Linked(cfg, c, owner, r, y)
  {
    hide Traffic;
    forall k | 0 <= k < |y.settled|
      ensures Justified(cfg, c, owner, r, y.settled[k])
    {
      if k < |x.settled| {
        assert y.settled[k] == x.settled[k] && Justified(cfg, c, owner, r, x.settled[k]);
      }
    }
  }

  /** The unit a relay got back carries the bytes of the frame it handed over. */
  lemma {:induction false} ReturnedBytes(cfg: Config, s: Sys, r: RelayId)
    requires Inv(cfg, s) && Enabled(s, Complete(r))
    ensures UnitFits(cfg, s.ctl, s.owner, r, s.relays[r].phase.raw, s.relays[r].phase.unit)
    ensures UnitBytes(s.ctl, s.relays[r].phase.unit) == Traffic(cfg, r, s.relays[r].phase.raw)
  {
    assert Linked(cfg, s.ctl, s.owner, r, s.relays[r]);
    hide Accounted, VerdictsStand, PendingAwaited, UnitsFollowed, Traffic;
  }

  /** Either the frame is settled, or it stays in hand with the modified bytes to announce. */
  lemma {:induction false} CompleteShape(cfg: Config, r: RelayId, x: RelayState, bytes: seq<byte>, v: Verdict)
    requires x.phase.Returned?
    ensures var y := AfterComplete(cfg, r, x, x.phase.raw, x.phase.unit, bytes, v);
            && y.interrupted == x.interrupted
            && (v.action == Modified ==>
                  y == x.(phase := Logging(x.phase.raw, x.phase.unit, Sent(cfg, r, bytes, v))))
            && (v.action != Modified ==>
                  && y.settled == x.settled + [Decision(x.phase.raw, Source(x.phase.unit), v)]
                  && Current(y.phase).None? && !y.phase.Waiting? && !y.phase.Returned? && !y.phase.Logging?)
  {
    hide Sent, Advance;
    AdvanceShape(cfg, r, Settle(x, Decision(x.phase.raw, Source(x.phase.unit), v)));
  }

  lemma {:induction false} CompleteLinked(cfg: Config, s: Sys, r: RelayId)
    requires Inv(cfg, s) && Enabled(s, Complete(r))
    ensures Linked(cfg, s.ctl, s.owner, r, Next(cfg, s, Complete(r)).relays[r])
    ensures Carries(s.relays[r], Next(cfg, s, Complete(r)).relays[r], None)
  {
    hide Accounted, VerdictsStand, PendingAwaited, UnitsFollowed, AfterComplete, Traffic, Sent, Outcome, Carries;
    var x, y := s.relays[r], Next(cfg, s, Complete(r)).relays[r];
    var raw, u := x.phase.raw, x.phase.unit;
    var v := UnitVerdict(s.ctl, u);
    ReturnedBytes(cfg, s, r);
    CompleteShape(cfg, r, x, UnitBytes(s.ctl, u), v);
    assert Linked(cfg, s.ctl, s.owner, r, x);
    if v.action == Modified {
      SentIsOutcome(cfg, r, raw, v);
      hide Justified;
      CarriesOn(x, y);
    } else {
      LinkedSettled(cfg, s.ctl, s.owner, r, x, y);
      CarriesSettled(x, y, Decision(raw, Source(u), v));
    }
  }

  lemma {:induction false} CompleteKeeps(cfg: Config, s: Sys, r: RelayId)
    requires Inv(cfg, s) && Enabled(s, Complete(r))
    ensures Inv(cfg, Next(cfg, s, Complete(r)))
  {
    hide Accounted, Linked, AfterComplete, Carries, UnitFits, PendingAwaited, VerdictsStand, UnitsFollowed;
    var x := s.relays[r];
    CompleteAccounted(cfg, r, x, UnitVerdict(s.ctl, x.phase.unit));
    ReturnedBytes(cfg, s, r);
    CompleteLinked(cfg, s, r);
    RelayMoves(cfg, s, r, Next(cfg, s, Complete(r)).relays[r]);
  }

  lemma {:induction false} ModifiedKeeps(cfg: Config, s: Sys, r: RelayId)
    requires Inv(cfg, s) && Enabled(s, WriteModified(r))
    ensures Inv(cfg, Next(cfg, s, WriteModified(r)))
  {
    hide Accounted, Outcome, Carries, PendingAwaited, VerdictsStand, UnitsFollowed, Traffic;
    var x, y := s.relays[r], Next(cfg, s, WriteModified(r)).relays[r];
    var u := x.phase.unit;
    assert Linked(cfg, s.ctl, s.owner, r, x);
    WriteAccounted(cfg, r, x, x.phase.raw, u, UnitVerdict(s.ctl, u), x.phase.data);
    LinkedSettled(cfg, s.ctl, s.owner, r, x, y);
    CarriesSettled(x, y, Decision(x.phase.raw, Source(u), UnitVerdict(s.ctl, u)));
    hide Linked;
    RelayMoves(cfg, s, r, y);
  }

  predicate AloneStep(step: Step) {
    step.Read? || step.StreamEnds? || step.Drained? || step.EofDone?
  }

  lemma {:induction false} AloneShape(cfg: Config, s: Sys, step: Step)
    requires Enabled(s, step) && AloneStep(step)
    ensures var x, y := s.relays[step.r], Next(cfg, s, step).relays[step.r];
            && Next(cfg, s, step) == WithRelay(s, step.r, y)
            && !x.cancelling && y.settled == x.settled && y.interrupted == x.interrupted
            && Current(x.phase).None? && Current(y.phase).None?
            && !x.phase.Waiting? && !y.phase.Waiting? && !y.phase.Returned? && !y.phase.Logging?
  {
    hide Advance;
    var r, x := step.r, s.relays[step.r];
    match step {
      case Read(_, data) =>
        var c := cfg.cut(r)(x.buffer + data);
        AdvanceShape(cfg, r, x.(buffer := c.rest, todo := c.frames, chunks := x.chunks + [data]));
      case StreamEnds(_) =>
        AdvanceShape(cfg, r, x.(closing := true, buffer := [], todo := Flushed(x.buffer)));
      case Drained(_) => AdvanceShape(cfg, r, x);
      case _ =>
    }
  }

  lemma {:induction false} AloneAccounted(cfg: Config, s: Sys, step: Step)
    requires Enabled(s, step) && AloneStep(step) && Accounted(cfg, step.r, s.relays[step.r])
    ensures Accounted(cfg, step.r, Next(cfg, s, step).relays[step.r])
  {
    hide Accounted, FeedAll;
    var x := s.relays[step.r];
    match step {
      case Read(r, data) => ReadAccounted(cfg, r, x, data);
      case StreamEnds(r) => EndAccounted(cfg, r, x);
      case Drained(r) => DrainedAccounted(cfg, r, x);
      case EofDone(r) => PhaseAccounted(cfg, r, x, Finished);
    }
  }

  lemma {:induction false} AloneKeeps(cfg: Config, s: Sys, step: Step)
    requires Inv(cfg, s) && Enabled(s, step) && AloneStep(step)
    ensures Inv(cfg, Next(cfg, s, step))
  {
    hide Accounted, Linked, Carries, PendingAwaited, VerdictsStand, UnitsFollowed, Current, Advance;
    AloneShape(cfg, s, step);
    var x, y := s.relays[step.r], Next(cfg, s, step).relays[step.r];
    hide Next;
    AloneAccounted(cfg, s, step);
    LinkedAlone(cfg, s.ctl, s.owner, step.r, x, y);
    CarriesOn(x, y);
    RelayMoves(cfg, s, step.r, y);
  }

  // ---- cancellation ----

  /** Told to stop while it does not wait for an open future. */
  lemma {:induction false} TellKeeps(cfg: Config, s: Sys, r: RelayId)
    requires Inv(cfg, s) && r in s.relays
    requires var p := s.relays[r].phase; p.Waiting? ==> p.id in s.ctl.units && s.ctl.units[p.id].done
    ensures Inv(cfg, WithRelay(s, r, s.relays[r].(cancelling := true)))
  {
    hide Accounted, Carries, PendingAwaited, VerdictsStand, UnitsFollowed, Justified, Traffic, Outcome;
    var x := s.relays[r];
    CancelAccounted(cfg, r, x);
    CarriesCancelled(x);
    assert Linked(cfg, s.ctl, s.owner, r, x);
    assert Linked(cfg, s.ctl, s.owner, r, x.(cancelling := true));
    hide Linked;
    RelayMoves(cfg, s, r, x.(cancelling := true));
  }

  lemma {:induction false} RevokeLinked(cfg: Config, s: Sys, r: RelayId)
    requires Inv(cfg, s) && Enabled(s, Cancel(r)) && s.relays[r].phase.Waiting?
    requires !s.ctl.units[s.relays[r].phase.id].done
    ensures var c' := AfterRevoke(s.ctl, s.relays[r].phase.id);
            && Valid(c') && Evolves(s.ctl, c') && Linked(cfg, c', s.owner, r, s.relays[r].(cancelling := true))
  {
    hide Accounted, VerdictsStand, PendingAwaited, UnitsFollowed, Traffic;
    var x, id := s.relays[r], s.relays[r].phase.id;
    RevokeEvolves(s.ctl, id);
    assert Linked(cfg, s.ctl, s.owner, r, x);
    LinkedStays(cfg, s.ctl, AfterRevoke(s.ctl, id), s.owner, s.owner, r, x);
    hide Justified;
  }

  lemma {:induction false} RevokeStands(cfg: Config, s: Sys, r: RelayId)
    requires VerdictsStand(s) && Enabled(s, Cancel(r)) && s.relays[r].phase.Waiting?
    requires !s.ctl.units[s.relays[r].phase.id].done
    ensures VerdictsStand(Next(cfg, s, Cancel(r)))
  {
    var s' := Next(cfg, s, Cancel(r));
    forall i | i in s'.ctl.units && s'.ctl.units[i].verdict != FORWARD
      ensures exists k :: 0 <= k < |s'.accepted| && s'.accepted[k].id == i
    {
      assert s.ctl.units[i].verdict != FORWARD;
    }
  }

  lemma {:induction false} RevokePending(cfg: Config, s: Sys, r: RelayId)
    requires PendingAwaited(s) && Enabled(s, Cancel(r)) && s.relays[r].phase.Waiting?
    ensures PendingAwaited(Next(cfg, s, Cancel(r)))
  {
    var s' := Next(cfg, s, Cancel(r));
    forall i | i in s'.ctl.pending
      ensures Awaited(s', i)
    {
      assert Awaited(s, i);
    }
  }

  lemma {:induction false} RevokedUnused(x: RelayState)
    requires x.phase.Waiting? && SourcesDiffer(x)
    ensures Unused(x.(cancelling := true), x.phase.id)
  {
  }

  lemma {:induction false} RevokeFollowed(cfg: Config, s: Sys, r: RelayId)
    requires UnitsFollowed(s) && Enabled(s, Cancel(r)) && s.relays[r].phase.Waiting?
    requires !s.ctl.units[s.relays[r].phase.id].done
    requires s.relays[r].phase.id in s.owner && s.owner[s.relays[r].phase.id] == r && SourcesDiffer(s.relays[r])
    ensures UnitsFollowed(Next(cfg, s, Cancel(r)))
  {
    hide Carries, Unused, Traced, SourcesDiffer;
    var s' := Next(cfg, s, Cancel(r));
    CarriesCancelled(s.relays[r]);
    RevokedUnused(s.relays[r]);
    FollowedOn(s, s'.(revoked := s.revoked), r, None);
  }

  lemma {:induction false} CancelKeeps(cfg: Config, s: Sys, r: RelayId)
    requires Inv(cfg, s) && Enabled(s, Cancel(r))
    ensures Inv(cfg, Next(cfg, s, Cancel(r)))
  {
    hide Accounted, PendingAwaited, VerdictsStand, UnitsFollowed, Evolves, Justified, SourcesDiffer, Traffic, Outcome;
    var x := s.relays[r];
    if x.phase.Waiting? && !s.ctl.units[x.phase.id].done {
      assert Linked(cfg, s.ctl, s.owner, r, x);
      RevokeLinked(cfg, s, r);
      RevokePending(cfg, s, r);
      RevokeStands(cfg, s, r);
      RevokeFollowed(cfg, s, r);
      CancelAccounted(cfg, r, x);
      hide Linked;
      BothMove(cfg, s, Next(cfg, s, Cancel(r)), r);
    } else {
      hide Inv;
      TellKeeps(cfg, s, r);
    }
  }

  lemma {:induction false} InterruptLinked(cfg: Config, c: Ctl, owner: map<Id, RelayId>, r: RelayId, x: RelayState)
    requires Linked(cfg, c, owner, r, x)
    ensures Linked(cfg, c, owner, r, AfterInterrupt(cfg, r, x))
  {
    hide AfterInterrupt, InHand, Traffic, Outcome, SourcesDiffer, Current;
    var y := AfterInterrupt(cfg, r, x);
    InterruptShape(cfg, r, x);
    InterruptSources(x, y, InHand(x.phase) + x.todo);
    forall k | 0 <= k < |y.settled|
      ensures Justified(cfg, c, owner, r, y.settled[k])
    {
      assert k < |x.settled| ==> Justified(cfg, c, owner, r, x.settled[k]);
    }
  }

  lemma {:induction false} InterruptSources(x: RelayState, y: RelayState, lost: seq<seq<byte>>)
    requires SourcesDiffer(x) && y.settled == x.settled + AllLost(lost) && Current(y.phase).None?
    ensures SourcesDiffer(y)
  {
    hide Current;
    assert forall k :: 0 <= k < |y.settled| && SourceOf(y.settled[k]).Some? ==>
        k < |x.settled| && y.settled[k] == x.settled[k];
  }

  lemma {:induction false} InterruptKeeps(cfg: Config, s: Sys, r: RelayId)
    requires Inv(cfg, s) && Enabled(s, Interrupt(r))
    ensures Inv(cfg, Next(cfg, s, Interrupt(r)))
  {
    hide Accounted, Carries, PendingAwaited, VerdictsStand, UnitsFollowed, Valid, Evolves, AfterInterrupt, AfterFinish,
      Justified, SourcesDiffer, Traffic, Outcome;
    var x := s.relays[r];
    var y := AfterInterrupt(cfg, r, x);
    InterruptAccounted(cfg, r, x);
    CarriesInterrupted(cfg, r, x);
    assert Linked(cfg, s.ctl, s.owner, r, x);
    InterruptLinked(cfg, s.ctl, s.owner, r, x);
    if x.phase.Waiting? {
      FinishEvolves(s.ctl, x.phase.id);
      hide Linked;
      LinkedStays(cfg, s.ctl, AfterFinish(s.ctl, x.phase.id), s.owner, s.owner, r, y);
      LeavePending(cfg, s, r, y);
      LeaveStands(s, r, y);
      LeaveFollowed(s, r, y);
      BothMove(cfg, s, Next(cfg, s, Interrupt(r)), r);
    } else {
      hide Linked;
      RelayMoves(cfg, s, r, y);
      assert Next(cfg, s, Interrupt(r)) == WithRelay(s, r, y);
    }
  }

  /** Every step of every task keeps the invariant. */
  lemma {:induction false} StepKeepsInv(cfg: Config, s: Sys, step: Step)
    requires Inv(cfg, s) && Enabled(s, step)
    ensures Inv(cfg, Next(cfg, s, step))
  {
    hide Inv, Next;
    match step {
      case Process(r, hold) =>
        if hold {
          HoldKeeps(cfg, s, r);
        } else {
          PassKeeps(cfg, s, r);
        }
      case Wake(r) => WakeKeeps(cfg, s, r);
      case Complete(r) => CompleteKeeps(cfg, s, r);
      case WriteModified(r) => ModifiedKeeps(cfg, s, r);
      case Cancel(r) => CancelKeeps(cfg, s, r);
      case Interrupt(r) => InterruptKeeps(cfg, s, r);
      case Operate(id, action, edit) => OperateKeeps(cfg, s, id, action, edit);
      case Switch(value) => SwitchKeeps(cfg, s, value);
      case Stop => StopKeeps(cfg, s);
      case _ => AloneKeeps(cfg, s, step);
    }
  }

  // ---- whole runs ----

  const FRESH := RelayState(Reading, [], [], false, [], false, [], [], false, false, false)

  /** Relays that have not read anything, a controller that holds nothing. */
  ghost predicate Initial(s: Sys) {
    && s.ctl.pending == {} && s.ctl.units == map[] && s.owner == map[] && s.accepted == [] && s.revoked == {}
    && forall r :: r in s.relays ==> s.relays[r] == FRESH
  }

  ghost predicate Legal(cfg: Config, s: Sys, steps: seq<Step>)
    decreases |steps|
  {
    steps != [] ==> Enabled(s, steps[0]) && Legal(cfg, Next(cfg, s, steps[0]), steps[1..])
  }

  function Run(cfg: Config, s: Sys, steps: seq<Step>): Sys
    requires Legal(cfg, s, steps)
    decreases |steps|
  {
    if steps == [] then s else Run(cfg, Next(cfg, s, steps[0]), steps[1..])
  }

  lemma {:induction false} InitialInv(cfg: Config, s: Sys)
    requires Initial(s)
    ensures Inv(cfg, s)
  {
    forall r | r in s.relays
      ensures Accounted(cfg, r, s.relays[r])
    {
      assert FramesOf(cfg.cut(r), FRESH) == [] && Raws([]) == [];
    }
  }

  lemma {:induction false} RunKeepsInv(cfg: Config, s: Sys, steps: seq<Step>)
    requires Inv(cfg, s) && Legal(cfg, s, steps)
    ensures Inv(cfg, Run(cfg, s, steps))
    decreases |steps|
  {
    hide Inv, Next;
    if steps != [] {
      StepKeepsInv(cfg, s, steps[0]);
      RunKeepsInv(cfg, Next(cfg, s, steps[0]), steps[1..]);
    }
  }

  /** States some run leads to. */
  ghost predicate Reachable(cfg: Config, s: Sys) {
    exists init, steps :: Initial(init) && Legal(cfg, init, steps) && Run(cfg, init, steps) == s
  }

  lemma {:induction false} ReachableInv(cfg: Config, s: Sys)
    requires Reachable(cfg, s)
    ensures Inv(cfg, s)
  {
    hide Inv, Next;
    var init, steps :| Initial(init) && Legal(cfg, init, steps) && Run(cfg, init, steps) == s;
    InitialInv(cfg, init);
    RunKeepsInv(cfg, init, steps);
  }

  /**
   What the fate of a frame rests on. Only a cancellation loses a frame. One that was never held is
   forwarded. A held one was decided through a unit of this very direction that carried the frame's own
   bytes; that unit's verdict is final, and it is what the one successful operator call on it asked for, or
   FORWARD when none succeeded.
   */
  ghost predicate Entitled(cfg: Config, s: Sys, r: RelayId, d: Decision)
    requires r in s.relays
  {
    match d
    case Lost(_) => s.relays[r].interrupted
    case Decision(raw, None, v) => v == FORWARD
    case Decision(raw, Some(id), v) =>
      && Mine(s.ctl, s.owner, r, id, Traffic(cfg, r, raw)) && id !in s.revoked
      && s.ctl.units[id].done && s.ctl.units[id].verdict == v
      && (forall k :: 0 <= k < |s.accepted| && s.accepted[k].id == id ==> v == s.accepted[k].Verdict())
      && (v == FORWARD || exists k :: 0 <= k < |s.accepted| && s.accepted[k].id == id)
  }

  /**
   Under every interleaving, cancellations included, what a direction has written is the outcome of its
   frames so far, in the order the framer cut them; at the end no frame is unaccounted for, and EOF was sent
   where it propagates, unless a cancellation came during the clean-up.
   */
  lemma {:induction false} OutputRefinesSpec(cfg: Config, s: Sys, r: RelayId)
    requires Reachable(cfg, s) && r in s.relays
    ensures var x := s.relays[r];
            && Raws(x.settled) <= FramesOf(cfg.cut(r), x)
            && x.out == Outcomes(cfg, r, x.settled)
            && (forall k :: 0 <= k < |x.settled| ==> Entitled(cfg, s, r, x.settled[k]))
            && (x.phase.Finished? ==> x.closing && Raws(x.settled) == FramesOf(cfg.cut(r), x))
            && (x.phase.Finished? && !x.abandoned ==> (x.eofSent <==> cfg.propagateEof(r)))
  {
    hide FramesOf, Outcomes, PendingAwaited, Traced, Settles;
    ReachableInv(cfg, s);
    hide Reachable;
    var x := s.relays[r];
    assert Accounted(cfg, r, x) && Linked(cfg, s.ctl, s.owner, r, x);
    forall k | 0 <= k < |x.settled|
      ensures Entitled(cfg, s, r, x.settled[k])
    {
      assert Justified(cfg, s.ctl, s.owner, r, x.settled[k]);
      SettledIsUsed(s, r, k);
    }
    hide Linked, VerdictsStand, UnitsFollowed, Entitled;
    assert Raws(x.settled) + InHand(x.phase) + x.todo == Raws(x.settled) + (InHand(x.phase) + x.todo);
    assert Raws(x.settled) + [] + [] == Raws(x.settled);
  }

  lemma {:induction false} SettledIsUsed(s: Sys, r: RelayId, k: nat)
    requires UnitsFollowed(s) && r in s.relays && k < |s.relays[r].settled|
    requires var src := SourceOf(s.relays[r].settled[k]); src.Some? ==> src.value in s.owner && s.owner[src.value] == r
    ensures var src := SourceOf(s.relays[r].settled[k]); src.Some? ==> src.value !in s.revoked
  {
    hide Traced, Current;
  }

  ghost predicate NoneLost(settled: seq<Decision>) {
    forall k :: 0 <= k < |settled| ==> settled[k].Decision?
  }

  /** Short of a cancellation, every frame is decided. */
  lemma {:induction false} NothingLost(cfg: Config, s: Sys, r: RelayId)
    requires Reachable(cfg, s) && r in s.relays && !s.relays[r].interrupted
    ensures NoneLost(s.relays[r].settled)
  {
    hide FramesOf, Outcomes, PendingAwaited, UnitsFollowed, VerdictsStand, Linked;
    ReachableInv(cfg, s);
    assert Accounted(cfg, r, s.relays[r]);
  }

  /** No held unit decides two frames, of one direction or of two. */
  lemma {:induction false} OneFramePerUnit(cfg: Config, s: Sys, r: RelayId, i: nat, q: RelayId, j: nat)
    requires Reachable(cfg, s) && r in s.relays && q in s.relays
    requires i < |s.relays[r].settled| && j < |s.relays[q].settled|
    requires SourceOf(s.relays[r].settled[i]).Some?
    requires SourceOf(s.relays[r].settled[i]) == SourceOf(s.relays[q].settled[j])
    ensures r == q && i == j
  {
    hide Inv, Reachable, SourceOf;
    ReachableInv(cfg, s);
    var id := SourceOf(s.relays[r].settled[i]).value;
    OwnedBy(cfg, s, r, id);
    OwnedBy(cfg, s, q, id);
    SourcesDifferIn(cfg, s, r);
  }

  lemma {:induction false} SourcesDifferIn(cfg: Config, s: Sys, r: RelayId)
    requires Inv(cfg, s) && r in s.relays
    ensures SourcesDiffer(s.relays[r])
  {
    hide Accounted, VerdictsStand, PendingAwaited, UnitsFollowed, SourcesDiffer;
    assert Linked(cfg, s.ctl, s.owner, r, s.relays[r]);
  }

  /** No operator call succeeds twice on a unit, whatever the run, nor ever on one whose future was cancelled. */
  lemma {:induction false} OneVerdictPerUnit(cfg: Config, s: Sys, i: nat, j: nat)
    requires Reachable(cfg, s) && i < j < |s.accepted|
    ensures s.accepted[i].id != s.accepted[j].id
    ensures s.accepted[i].id !in s.revoked && s.accepted[j].id !in s.revoked
  {
    ReachableInv(cfg, s);
  }

  /**
   No accepted verdict is forgotten: it decided a frame, or its unit is still in the hands of its relay,
   unless a cancellation reached that relay.
   */
  lemma {:induction false} VerdictTakesEffect(cfg: Config, s: Sys, k: nat)
    requires Reachable(cfg, s) && k < |s.accepted|
    ensures var a := s.accepted[k];
            && a.id in s.owner && s.owner[a.id] in s.relays
            && var x := s.relays[s.owner[a.id]];
               || x.interrupted
               || Current(x.phase) == Some(a.id)
               || exists i :: 0 <= i < |x.settled| && SourceOf(x.settled[i]) == Some(a.id)
                              && x.settled[i].verdict == a.Verdict()
  {
    ReachableInv(cfg, s);
    hide Reachable, Accounted, PendingAwaited, Traffic;
    var a := s.accepted[k];
    assert a.id in s.owner;
    var x := s.relays[s.owner[a.id]];
    assert Traced(x, a.id) && Linked(cfg, s.ctl, s.owner, s.owner[a.id], x);
    if Settles(x, a.id) {
      var i :| 0 <= i < |x.settled| && SourceOf(x.settled[i]) == Some(a.id);
      assert Justified(cfg, s.ctl, s.owner, s.owner[a.id], x.settled[i]);
    }
  }

  /**
   An accepted verdict can be lost: whenever a relay waits for an undecided unit, a verdict, then a
   cancellation before the relay has resumed, leaves the call successful and the frame lost.
   */
  lemma {:induction false} VerdictCanBeLost(cfg: Config, s: Sys, r: RelayId, action: Action, edit: Option<seq<byte>>)
    requires Reachable(cfg, s) && r in s.relays && s.relays[r].phase.Waiting? && !s.relays[r].cancelling
    requires s.relays[r].phase.id in s.ctl.units && !s.ctl.units[s.relays[r].phase.id].done
    ensures var id := s.relays[r].phase.id;
            Enabled(s, Operate(id, action, edit)) &&
            var s1 := Next(cfg, s, Operate(id, action, edit));
            Enabled(s1, Cancel(r)) &&
            var s2 := Next(cfg, s1, Cancel(r));
            Enabled(s2, Interrupt(r)) &&
            var s3 := Next(cfg, s2, Interrupt(r));
            && s3.accepted == s.accepted + [Accepted(id, action, edit)]
            && !Settles(s3.relays[r], id) && Current(s3.relays[r].phase).None?
            && Lost(s.relays[r].phase.raw) in s3.relays[r].settled
  {
    var x, id := s.relays[r], s.relays[r].phase.id;
    WaitingFacts(cfg, s, r);
    NotYetSettled(cfg, s, r);
    hide Reachable;
    var told := x.(cancelling := true);
    InterruptLoses(cfg, r, told, id);
    hide AfterInterrupt, Settles, Current;
    var s1 := Next(cfg, s, Operate(id, action, edit));
    assert s1.relays == s.relays && s1.ctl.units[id].done;
    assert Next(cfg, s1, Cancel(r)).relays[r] == told;
  }

  lemma {:induction false} NotYetSettled(cfg: Config, s: Sys, r: RelayId)
    requires Reachable(cfg, s) && r in s.relays && s.relays[r].phase.Waiting?
    ensures !Settles(s.relays[r], s.relays[r].phase.id)
  {
    hide Accounted, PendingAwaited, UnitsFollowed, VerdictsStand, Justified;
    ReachableInv(cfg, s);
    assert Linked(cfg, s.ctl, s.owner, r, s.relays[r]);
  }

  lemma {:induction false} InterruptLoses(cfg: Config, r: RelayId, x: RelayState, id: Id)
    requires x.phase.Waiting? && x.phase.id == id && x.cancelling && !Settles(x, id)
    ensures var y := AfterInterrupt(cfg, r, x);
            !Settles(y, id) && Current(y.phase).None? && Lost(x.phase.raw) in y.settled
  {
    CarriesInterrupted(cfg, r, x);
    var y := AfterInterrupt(cfg, r, x);
    assert Unused(x, id);
    assert Unused(y, id);
    var lost := AllLost(InHand(x.phase) + x.todo);
    assert y.settled == x.settled + lost && lost[0] == Lost(x.phase.raw);
    assert y.settled[|x.settled|] == lost[0];
  }

  /** The relay decided nothing through the unit, and if it has the unit in hand it is on its way out. */
  ghost predicate PassesOver(x: RelayState, id: Id) {
    && (forall k :: 0 <= k < |x.settled| ==> SourceOf(x.settled[k]) != Some(id))
    && (Current(x.phase) == Some(id) ==> x.cancelling)
  }

  /** No call succeeds or succeeded on the unit, and no relay uses it. */
  ghost predicate OutOfUse(s: Sys, id: Id) {
    && Valid(s.ctl) && !Accepts(s.ctl, id)
    && (forall k :: 0 <= k < |s.accepted| ==> s.accepted[k].id != id)
    && (forall r :: r in s.relays ==> PassesOver(s.relays[r], id))
  }

  lemma {:induction false} OwnedBy(cfg: Config, s: Sys, r: RelayId, id: Id)
    requires Inv(cfg, s) && r in s.relays
    requires Settles(s.relays[r], id) || Current(s.relays[r].phase) == Some(id)
    ensures id in s.owner && s.owner[id] == r
  {
    hide Accounted, PendingAwaited, Traffic, Outcome, UnitsFollowed, VerdictsStand;
    assert Linked(cfg, s.ctl, s.owner, r, s.relays[r]);
    if Settles(s.relays[r], id) {
      var k :| 0 <= k < |s.relays[r].settled| && SourceOf(s.relays[r].settled[k]) == Some(id);
      assert Justified(cfg, s.ctl, s.owner, r, s.relays[r].settled[k]);
    }
  }

  lemma {:induction false} RevokedFacts(cfg: Config, s: Sys, id: Id)
    requires Inv(cfg, s) && id in s.revoked
    ensures Valid(s.ctl) && !Accepts(s.ctl, id) && forall k :: 0 <= k < |s.accepted| ==> s.accepted[k].id != id
    ensures id in s.owner && s.owner[id] in s.relays && Unused(s.relays[s.owner[id]], id)
  {
    hide Accounted, PendingAwaited, Linked, Traced, Unused, OpenUndecided;
  }

  lemma {:induction false} RevokedInRelay(cfg: Config, s: Sys, id: Id, r: RelayId)
    requires Inv(cfg, s) && id in s.revoked && r in s.relays
    ensures PassesOver(s.relays[r], id)
  {
    RevokedFacts(cfg, s, id);
    hide Inv, Current, SourceOf, Valid, Accepts;
    if Settles(s.relays[r], id) || Current(s.relays[r].phase) == Some(id) {
      OwnedBy(cfg, s, r, id);
    }
  }

  lemma {:induction false} RevokedIsOutOfUse(cfg: Config, s: Sys, id: Id)
    requires Inv(cfg, s) && id in s.revoked
    ensures OutOfUse(s, id)
  {
    hide Inv, Unused, PassesOver;
    RevokedFacts(cfg, s, id);
    forall r | r in s.relays
      ensures PassesOver(s.relays[r], id)
    {
      RevokedInRelay(cfg, s, id, r);
    }
  }

  lemma {:induction false} RevokedStays(cfg: Config, s: Sys, steps: seq<Step>)
    requires Legal(cfg, s, steps)
    ensures s.revoked <= Run(cfg, s, steps).revoked
    decreases |steps|
  {
    if steps != [] {
      StepRevokes(cfg, s, steps[0]);
      hide Next;
      RevokedStays(cfg, Next(cfg, s, steps[0]), steps[1..]);
    }
  }

  lemma {:induction false} StepRevokes(cfg: Config, s: Sys, step: Step)
    requires Enabled(s, step)
    ensures s.revoked <= Next(cfg, s, step).revoked
  {
    hide AfterComplete, AfterRead, AfterStreamEnds, AfterInterrupt, Advance;
  }

  /**
   From the moment a relay that waits for an undecided unit is told to stop, whatever happens next: no
   operator call ever succeeds on that unit, and no frame is ever decided through it.
   */
  lemma {:induction false} CancelledTakesNoVerdict(cfg: Config, s: Sys, r: RelayId, more: seq<Step>)
    requires Reachable(cfg, s) && r in s.relays && s.relays[r].phase.Waiting? && Enabled(s, Cancel(r))
    requires !s.ctl.units[s.relays[r].phase.id].done
    requires Legal(cfg, Next(cfg, s, Cancel(r)), more)
    ensures OutOfUse(Run(cfg, Next(cfg, s, Cancel(r)), more), s.relays[r].phase.id)
  {
    var s' := Next(cfg, s, Cancel(r));
    var id := s.relays[r].phase.id;
    assert id in s'.revoked;
    hide *;
    ReachableInv(cfg, s);
    StepKeepsInv(cfg, s, Cancel(r));
    RunKeepsInv(cfg, s', more);
    RevokedStays(cfg, s', more);
    RevokedIsOutOfUse(cfg, Run(cfg, s', more), id);
  }

  /**
   No lost wake-up: a relay that waits either can resume or end its wait at once, or the operator's next
   verdict on its unit succeeds, lets it resume and is what it resumes with.
   */
  lemma {:induction false} WaitingIsResolvable(cfg: Config, s: Sys, r: RelayId, action: Action, edit: Option<seq<byte>>)
    requires Reachable(cfg, s) && r in s.relays && s.relays[r].phase.Waiting?
    ensures var id := s.relays[r].phase.id;
            if s.relays[r].cancelling then Enabled(s, Interrupt(r))
            else
              Enabled(s, Wake(r)) ||
              (Enabled(s, Operate(id, action, edit)) && Accepts(s.ctl, id) &&
               var s' := Next(cfg, s, Operate(id, action, edit));
               Enabled(s', Wake(r)) && s'.ctl.units[id].verdict == Asked(action, edit))
  {
    WaitingFacts(cfg, s, r);
    hide Reachable;
  }

  lemma {:induction false} WaitingFacts(cfg: Config, s: Sys, r: RelayId)
    requires Reachable(cfg, s) && r in s.relays && s.relays[r].phase.Waiting?
    ensures Valid(s.ctl) && s.relays[r].phase.id in s.ctl.units
    ensures var id := s.relays[r].phase.id;
            s.ctl.units[id].done || (id in s.ctl.pending && s.ctl.units[id].verdict == FORWARD)
  {
    ReachableInv(cfg, s);
    hide Accounted, PendingAwaited, UnitsFollowed, Reachable;
    assert Linked(cfg, s.ctl, s.owner, r, s.relays[r]);
    assert OpenUndecided(s.ctl);
  }

  /** A direction has at most one unit waiting for the operator, and that is the frame it has in hand. */
  lemma {:induction false} OnePendingPerDirection(cfg: Config, s: Sys, i: Id, j: Id)
    requires Reachable(cfg, s) && i in s.ctl.pending && j in s.ctl.pending
    ensures i in s.owner && j in s.owner && (s.owner[i] == s.owner[j] ==> i == j)
  {
    ReachableInv(cfg, s);
    assert Awaited(s, i) && Awaited(s, j);
  }

  /**
   Right after interception is switched off, or at shutdown, no future is open and every relay that waits
   can go on.
   */
  lemma {:induction false} NothingStranded(cfg: Config, s: Sys, last: Step)
    requires Reachable(cfg, s) && (last == Stop || last == Switch(false))
    ensures Enabled(s, last)
    ensures var s' := Next(cfg, s, last);
            && (forall id :: id in s'.ctl.units ==> s'.ctl.units[id].done)
            && (forall r :: r in s.relays && s.relays[r].phase.Waiting? ==>
                  Enabled(s', if s.relays[r].cancelling then Interrupt(r) else Wake(r)))
  {
    ReleaseFacts(cfg, s);
    hide Reachable, AfterForwardAllPending, OpenUndecided;
    ReleaseDecidesAll(s.ctl);
    ReleaseDecidesAll(s.ctl.(enabled := false));
    forall r | r in s.relays && s.relays[r].phase.Waiting?
      ensures s.relays[r].phase.id in s.ctl.units
    {
      WaitingFacts(cfg, s, r);
    }
  }

  lemma {:induction false} ReleaseFacts(cfg: Config, s: Sys)
    requires Reachable(cfg, s)
    ensures Valid(s.ctl) && OpenUndecided(s.ctl) && OpenUndecided(s.ctl.(enabled := false))
  {
    hide Accounted, Linked, PendingAwaited, Reachable;
    ReachableInv(cfg, s);
  }

  lemma {:induction false} ReleaseDecidesAll(c: Ctl)
    requires Valid(c) && OpenUndecided(c)
    ensures var c' := AfterForwardAllPending(c);
            c'.units.Keys == c.units.Keys && forall id :: id in c'.units ==> c'.units[id].done
  {
  }

  /** Nothing is written after EOF was sent. */
  lemma {:induction false} EofIsLast(cfg: Config, s: Sys, step: Step, r: RelayId)
    requires Reachable(cfg, s) && Enabled(s, step) && r in s.relays && s.relays[r].eofSent
    ensures Next(cfg, s, step).relays[r].out == s.relays[r].out && Next(cfg, s, step).relays[r].eofSent
  {
    EofFacts(cfg, s, r);
    hide Reachable, AfterComplete, AfterRead, AfterStreamEnds, Advance;
  }

  lemma {:induction false} EofFacts(cfg: Config, s: Sys, r: RelayId)
    requires Reachable(cfg, s) && r in s.relays && s.relays[r].eofSent
    ensures s.relays[r].closing && (s.relays[r].phase.SendingEof? || s.relays[r].phase.Finished?)
  {
    ReachableInv(cfg, s);
    hide Linked, PendingAwaited, VerdictsStand, UnitsFollowed, FeedAll, FramesOf, Outcomes, Raws, Reachable;
    assert Accounted(cfg, r, s.relays[r]);
  }

  // ---- transparency ----

  ghost predicate AllForwarded(settled: seq<Decision>) {
    forall k :: 0 <= k < |settled| ==> settled[k].Decision? && settled[k].verdict.action == Forward
  }

  lemma {:induction false} ForwardedOutcomes(cfg: Config, r: RelayId, settled: seq<Decision>)
    requires !cfg.hasRules && AllForwarded(settled)
    ensures Outcomes(cfg, r, settled) == Concat(Raws(settled))
    decreases |settled|
  {
    if settled == [] {
      assert Raws(settled) == [];
    } else {
      var init, last := settled[..|settled| - 1], settled[|settled| - 1];
      ForwardedOutcomes(cfg, r, init);
      assert Raws(settled) == Raws(init) + [last.raw];
      ConcatAppend(Raws(init), [last.raw]);
      assert Concat([last.raw]) == last.raw;
    }
  }

  /** With no rules and only FORWARD verdicts the proxy is transparent: bytes written at the end equal bytes read. */
  lemma {:induction false} TransparentAtEnd(cfg: Config, s: Sys, r: RelayId)
    requires Reachable(cfg, s) && r in s.relays && s.relays[r].phase.Finished?
    requires Conserves(cfg.cut(r)) && !cfg.hasRules && AllForwarded(s.relays[r].settled)
    ensures s.relays[r].out == Concat(s.relays[r].chunks)
  {
    hide Reachable, FramesOf;
    OutputRefinesSpec(cfg, s, r);
    ForwardedOutcomes(cfg, r, s.relays[r].settled);
    FramesConserved(cfg.cut(r), s.relays[r]);
  }

  lemma {:induction false} FramesConserved(cut: seq<byte> -> Cutting, x: RelayState)
    requires Conserves(cut) && x.closing
    ensures Concat(FramesOf(cut, x)) == Concat(x.chunks)
  {
    StreamConserved(cut, [], x.chunks);
    assert [] + Concat(x.chunks) == Concat(x.chunks);
  }
}

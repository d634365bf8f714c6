/**
 The life of one proxied TCP session: the session task, the two relay tasks it waits for, and an operator
 who may terminate the session at any await, more than once.
 */
module Lifecycle {
  import opened Framing

  datatype SessionState = Connecting | Active | OnlyServer | OnlyClient | Closed

  /** One value for each direction. */
  datatype Both<T> = Both(up: T, down: T)
  {
    function At(d: Direction): T {
      if d == ClientToServer then up else down
    }
    function With(d: Direction, v: T): Both<T> {
      if d == ClientToServer then this.(up := v) else this.(down := v)
    }
  }

  function Other(d: Direction): Direction {
    if d == ClientToServer then ServerToClient else ClientToServer
  }

  /** Where a relay task is: `Busy(true)` is on its way out of `run`, `Calling` awaits the first-disconnect callback. */
  datatype Child = NotStarted | Reading(since: nat) | Busy(ending: bool) | Calling | Dying | Done

  datatype Parent = Opening | Replying | Announcing | Gathering | Unwinding | ClosingWriters | Ended

  /** A half-open side given up as idle: the read it ended had been pending from `since` to `at`. */
  datatype Reap = Reap(side: Direction, since: nat, at: nat)

  /** `history` lists every value the state setters wrote; `finished` the relays in the order their runs returned. */
  datatype Session = Session(
    history: seq<SessionState>,
    parent: Parent,
    children: Both<Child>,
    cancelled: Both<bool>,
    peerGone: Both<bool>,
    firstDone: seq<Direction>,
    callbacks: seq<Direction>,
    finished: seq<Direction>,
    reaped: seq<Reap>,
    clock: nat)

  datatype Step =
    | Connected(socks: bool)
    | ConnectFailed
    | Replied(ok: bool)
    | Announced
    | ReadReturns(d: Direction)
    | ReadsAgain(d: Direction)
    | StreamEnds(d: Direction)
    | IdleTimeout(d: Direction)
    | RunReturns(d: Direction)
    | CallbackReturns(d: Direction)
    | CancelDelivered(d: Direction)
    | Dies(d: Direction)
    | Terminate
    | BothDone
    | WritersClosed
    | Tick(n: nat)

  function Mark(s: Session, state: SessionState): Session {
    s.(history := s.history + [state])
  }

  function SetChild(s: Session, d: Direction, c: Child): Session {
    s.(children := s.children.With(d, c))
  }

  function AfterClosing(s: Session): Session {
    Mark(s, Closed).(parent := Ended)
  }

  /** Running children are told to stop; ones that are over are not touched. */
  function CancelChildren(s: Session): Session {
    s.(cancelled := Both(s.cancelled.up || !s.children.up.Done?, s.cancelled.down || !s.children.down.Done?))
  }

  /** A relay's `run` returned normally: the peer learns of it, and the first to return reports its side gone. */
  function AfterRun(s: Session, d: Direction): Session {
    var s' := s.(peerGone := s.peerGone.With(Other(d), true), finished := s.finished + [d]);
    if s.firstDone == [] then
      SetChild(Mark(s', if d == ClientToServer then OnlyServer else OnlyClient), d, Calling)
        .(firstDone := [d], callbacks := s.callbacks + [d])
    else SetChild(s', d, Done)
  }

  /** A task that was told to stop does nothing else before the cancellation reaches it. */
  predicate Free(s: Session, d: Direction) {
    !s.cancelled.At(d)
  }

  predicate Enabled(idle: nat, s: Session, step: Step) {
    match step
    case Connected(_) => s.parent.Opening?
    case ConnectFailed => s.parent.Opening?
    case Replied(_) => s.parent.Replying?
    case Announced => s.parent.Announcing?
    case ReadReturns(d) => s.children.At(d).Reading? && Free(s, d)
    case ReadsAgain(d) => s.children.At(d) == Busy(false) && Free(s, d)
    case StreamEnds(d) => (s.children.At(d).Reading? || s.children.At(d) == Busy(false)) && Free(s, d)
    case IdleTimeout(d) => s.children.At(d).Reading? && Free(s, d) && 0 < idle <= s.clock - s.children.At(d).since
    case RunReturns(d) => s.children.At(d) == Busy(true) && Free(s, d)
    case CallbackReturns(d) => s.children.At(d).Calling? && Free(s, d)
    case CancelDelivered(d) => s.cancelled.At(d) && !s.children.At(d).Done? && !s.children.At(d).Dying?
    case Dies(d) => s.children.At(d).Dying?
    case Terminate => s.parent.Gathering? || s.parent.Unwinding? || s.parent.ClosingWriters?
    case BothDone => (s.parent.Gathering? || s.parent.Unwinding?) && s.children == Both(Done, Done)
    case WritersClosed => s.parent.ClosingWriters?
    case Tick(n) => true
  }

  function Next(s: Session, step: Step): Session {
    match step
    case Connected(socks) => if socks then s.(parent := Replying) else Mark(s, Active).(parent := Announcing)
    case ConnectFailed => AfterClosing(s)
    case Replied(ok) => if ok then Mark(s, Active).(parent := Announcing) else AfterClosing(s)
    case Announced => s.(parent := Gathering, children := Both(Reading(s.clock), Reading(s.clock)))
    case ReadReturns(d) => SetChild(s, d, Busy(false))
    case ReadsAgain(d) => SetChild(s, d, Reading(s.clock))
    case StreamEnds(d) => SetChild(s, d, Busy(true))
    case IdleTimeout(d) =>
      var c := s.children.At(d);
      if s.peerGone.At(d) && c.Reading? then
        SetChild(s, d, Busy(true)).(reaped := s.reaped + [Reap(d, c.since, s.clock)])
      else SetChild(s, d, Reading(s.clock))
    case RunReturns(d) => AfterRun(s, d)
    case CallbackReturns(d) => SetChild(s, d, Done)
    case CancelDelivered(d) => SetChild(s, d, if s.children.At(d).Calling? then Done else Dying)
    case Dies(d) => SetChild(s, d, Done)
    case Terminate =>
      if s.parent.Gathering? then CancelChildren(s).(parent := Unwinding)
      else if s.parent.Unwinding? then CancelChildren(s).(parent := ClosingWriters)
      else AfterClosing(s)
    case BothDone => s.(parent := ClosingWriters)
    case WritersClosed => AfterClosing(s)
    case Tick(n) => s.(clock := s.clock + n)
  }

  const CREATED := Session([Connecting], Opening, Both(NotStarted, NotStarted), Both(false, false),
                           Both(false, false), [], [], [], [], 0)

  // ---- what the documentation promises ----

  /** CONNECTING, then perhaps ACTIVE, then perhaps one of the half-open states, then perhaps CLOSED. */
  predicate Follows(x: SessionState, y: SessionState) {
    match x
    case Connecting => y.Active? || y.Closed?
    case Active => !y.Connecting? && !y.Active?
    case OnlyServer => y.Closed?
    case OnlyClient => y.Closed?
    case Closed => false
  }

  ghost predicate Orderly(history: seq<SessionState>) {
    && |history| > 0 && history[0] == Connecting
    && forall i :: 1 <= i < |history| ==> Follows(history[i - 1], history[i])
  }

  function State(s: Session): SessionState
    requires |s.history| > 0
  {
    s.history[|s.history| - 1]
  }

  /** What the session task's position says about the recorded state. */
  ghost predicate StateFits(s: Session)
    requires |s.history| > 0
  {
    match s.parent
    case Opening => State(s) == Connecting
    case Replying => State(s) == Connecting
    case Announcing => State(s) == Active
    case Ended => State(s) == Closed
    case _ =>
      State(s) ==
        (if s.firstDone == [] then Active else if s.firstDone[0] == ClientToServer then OnlyServer else OnlyClient)
  }

  /** A half-open state was recorded just when a relay finished, and it names the side the first one left. */
  ghost predicate HalfOpenNamed(s: Session) {
    && (OnlyServer in s.history <==> s.finished != [] && s.finished[0] == ClientToServer)
    && (OnlyClient in s.history <==> s.finished != [] && s.finished[0] == ServerToClient)
  }

  /** Once the session task has given up its relays, none of them can act on its own any more. */
  ghost predicate NoLateMarks(s: Session, d: Direction) {
    && (s.parent.Unwinding? || s.parent.ClosingWriters? || s.parent.Ended? ==>
          s.children.At(d).Done? || s.children.At(d).NotStarted? || s.cancelled.At(d))
    && (s.parent.Opening? || s.parent.Replying? || s.parent.Announcing? ==> s.children.At(d).NotStarted?)
    && (s.children.At(d).NotStarted? ==>
        !s.cancelled.At(d) && !s.parent.Gathering? && !s.parent.Unwinding? && !s.parent.ClosingWriters?)
    && (s.children.At(d).Reading? ==> s.children.At(d).since <= s.clock)
  }

  ghost predicate Inv(idle: nat, s: Session) {
    && Orderly(s.history)
    && StateFits(s)
    && HalfOpenNamed(s)
    && s.firstDone == s.callbacks == (if s.finished == [] then [] else s.finished[..1])
    && (s.parent.Opening? || s.parent.Replying? || s.parent.Announcing? ==> s.finished == [])
    && NoLateMarks(s, ClientToServer) && NoLateMarks(s, ServerToClient)
    && (forall d :: s.peerGone.At(d) <==> Other(d) in s.finished)
    && (forall k :: 0 <= k < |s.reaped| ==> Justified(idle, s, s.reaped[k]))
  }

  /** A reaped side was pending for a full idle period, and the other side had already finished. */
  ghost predicate Justified(idle: nat, s: Session, r: Reap) {
    0 < idle && r.since + idle <= r.at && Other(r.side) in s.finished
  }

  lemma {:induction false} MarkOrderly(s: Session, state: SessionState)
    requires Orderly(s.history) && Follows(State(s), state)
    ensures Orderly(Mark(s, state).history) && State(Mark(s, state)) == state
  {
  }

  /** A relay task moves without finishing its run, or the clock advances. */
  lemma {:induction false} ChildStepKeepsInv(idle: nat, s: Session, step: Step)
    requires Inv(idle, s) && Enabled(idle, s, step)
    requires step.ReadReturns? || step.ReadsAgain? || step.StreamEnds? || step.CallbackReturns?
             || step.CancelDelivered? || step.Dies? || step.Tick?
    ensures Inv(idle, Next(s, step))
  {
    hide Orderly;
  }

  lemma {:induction false} TimeoutKeepsInv(idle: nat, s: Session, d: Direction)
    requires Inv(idle, s) && Enabled(idle, s, IdleTimeout(d))
    ensures Inv(idle, Next(s, IdleTimeout(d)))
  {
    hide Orderly;
    var s' := Next(s, IdleTimeout(d));
    forall k | 0 <= k < |s'.reaped|
      ensures Justified(idle, s', s'.reaped[k])
    {
      if k < |s.reaped| {
        assert Justified(idle, s, s.reaped[k]);
      }
    }
  }

  lemma {:induction false} RunReturnsKeepsInv(idle: nat, s: Session, d: Direction)
    requires Inv(idle, s) && Enabled(idle, s, RunReturns(d))
    ensures Inv(idle, Next(s, RunReturns(d)))
  {
    var s' := Next(s, RunReturns(d));
    if s.firstDone == [] {
      MarkOrderly(s, if d == ClientToServer then OnlyServer else OnlyClient);
    } else {
      assert s'.finished[..1] == s.finished[..1];
    }
    hide Orderly;
    forall k | 0 <= k < |s'.reaped|
      ensures Justified(idle, s', s'.reaped[k])
    {
      assert Justified(idle, s, s.reaped[k]);
    }
  }

  predicate ParentStep(step: Step) {
    step.Connected? || step.ConnectFailed? || step.Replied? || step.Announced? || step.BothDone?
    || step.WritersClosed? || step.Terminate?
  }

  lemma {:induction false} ParentStepKeepsNamed(s: Session, step: Step)
    requires HalfOpenNamed(s) && ParentStep(step)
    ensures HalfOpenNamed(Next(s, step))
  {
  }

  lemma {:induction false} ReapsStand(idle: nat, s: Session, t: Session)
    requires forall k :: 0 <= k < |s.reaped| ==> Justified(idle, s, s.reaped[k])
    requires t.reaped == s.reaped && t.finished == s.finished
    ensures forall k :: 0 <= k < |t.reaped| ==> Justified(idle, t, t.reaped[k])
  {
    forall k | 0 <= k < |t.reaped|
      ensures Justified(idle, t, t.reaped[k])
    {
      assert Justified(idle, s, s.reaped[k]);
    }
  }

  lemma {:induction false} OpeningStepKeepsInv(idle: nat, s: Session, step: Step)
    requires Inv(idle, s) && Enabled(idle, s, step)
    requires step.Connected? || step.ConnectFailed? || step.Replied? || step.Announced?
    ensures Inv(idle, Next(s, step))
  {
    hide HalfOpenNamed, Justified;
    ParentStepKeepsNamed(s, step);
    ReapsStand(idle, s, Next(s, step));
    assert |s.history| > 0;
    hide Orderly;
    if State(s) == Connecting {
      MarkOrderly(s, Active);
      MarkOrderly(s, Closed);
    }
  }

  lemma {:induction false} NoLateMarksYet(idle: nat, s: Session, step: Step, d: Direction)
    requires NoLateMarks(s, d) && Enabled(idle, s, step)
    requires step.BothDone? || step.WritersClosed? || step.Terminate?
    ensures NoLateMarks(Next(s, step), d)
  {
  }

  lemma {:induction false} ClosingStepKeepsInv(idle: nat, s: Session, step: Step)
    requires Inv(idle, s) && Enabled(idle, s, step)
    requires step.BothDone? || step.WritersClosed? || step.Terminate?
    ensures Inv(idle, Next(s, step))
  {
    hide HalfOpenNamed, Justified, NoLateMarks;
    ParentStepKeepsNamed(s, step);
    ReapsStand(idle, s, Next(s, step));
    NoLateMarksYet(idle, s, step, ClientToServer);
    NoLateMarksYet(idle, s, step, ServerToClient);
    assert |s.history| > 0;
    hide Orderly;
    if Follows(State(s), Closed) {
      MarkOrderly(s, Closed);
    }
  }

  lemma {:induction false} StepKeepsInv(idle: nat, s: Session, step: Step)
    requires Inv(idle, s) && Enabled(idle, s, step)
    ensures Inv(idle, Next(s, step))
  {
    hide Inv, Next;
    match step {
      case RunReturns(d) => RunReturnsKeepsInv(idle, s, d);
      case IdleTimeout(d) => TimeoutKeepsInv(idle, s, d);
      case Connected(_) => OpeningStepKeepsInv(idle, s, step);
      case ConnectFailed => OpeningStepKeepsInv(idle, s, step);
      case Replied(_) => OpeningStepKeepsInv(idle, s, step);
      case Announced => OpeningStepKeepsInv(idle, s, step);
      case BothDone => ClosingStepKeepsInv(idle, s, step);
      case WritersClosed => ClosingStepKeepsInv(idle, s, step);
      case Terminate => ClosingStepKeepsInv(idle, s, step);
      case _ => ChildStepKeepsInv(idle, s, step);
    }
  }

  // ---- whole runs ----

  ghost predicate Legal(idle: nat, s: Session, steps: seq<Step>)
    decreases |steps|
  {
    steps != [] ==> Enabled(idle, s, steps[0]) && Legal(idle, Next(s, steps[0]), steps[1..])
  }

  function Run(s: Session, steps: seq<Step>): Session
    decreases |steps|
  {
    if steps == [] then s else Run(Next(s, steps[0]), steps[1..])
  }

  lemma {:induction false} RunKeepsInv(idle: nat, s: Session, steps: seq<Step>)
    requires Inv(idle, s) && Legal(idle, s, steps)
    ensures Inv(idle, Run(s, steps))
    decreases |steps|
  {
    hide Inv, Next;
    if steps != [] {
      StepKeepsInv(idle, s, steps[0]);
      RunKeepsInv(idle, Next(s, steps[0]), steps[1..]);
    }
  }

  /** Setters only ever append, so the recorded history of a longer run extends that of a shorter one. */
  lemma {:induction false} HistoryGrows(s: Session, steps: seq<Step>)
    ensures s.history <= Run(s, steps).history
    decreases |steps|
  {
    if steps != [] {
      HistoryGrows(Next(s, steps[0]), steps[1..]);
    }
  }

  /**
   Over any run of a session, terminated at any awaits and any number of times: the states follow the
   documented order and CLOSED is final, the first-disconnect callback runs at most once and names the
   side whose relay finished first, a half-open state is recorded just when some relay finished and is the
   one that names the survivor of the first, and a side is reaped only after its peer finished and a full idle
   period passed without data.
   */
  lemma {:induction false} SessionLifecycle(idle: nat, steps: seq<Step>)
    requires Legal(idle, CREATED, steps)
    ensures var s := Run(CREATED, steps);
            && Orderly(s.history)
            && (forall i :: 0 <= i < |s.history| - 1 ==> s.history[i] != Closed)
            && (s.parent.Ended? <==> State(s) == Closed)
            && s.callbacks == (if s.finished == [] then [] else [s.finished[0]])
            && (OnlyServer in s.history <==> s.finished != [] && s.finished[0] == ClientToServer)
            && (OnlyClient in s.history <==> s.finished != [] && s.finished[0] == ServerToClient)
            && forall k :: 0 <= k < |s.reaped| ==> Justified(idle, s, s.reaped[k])
  {
    RunKeepsInv(idle, CREATED, steps);
    var s := Run(CREATED, steps);
    hide Run, Legal, Next;
    assert Inv(idle, s);
    forall i | 0 <= i < |s.history| - 1
      ensures s.history[i] != Closed
    {
      assert Follows(s.history[i + 1 - 1], s.history[i + 1]);
    }
  }

  /**
   Whatever follows, the recorded state only moves forward: CLOSED stays, a half-open state stays or closes,
   and an ACTIVE session never connects again.
   */
  lemma {:induction false} StateOnlyAdvances(idle: nat, steps: seq<Step>, more: seq<Step>)
    requires Legal(idle, CREATED, steps) && Legal(idle, Run(CREATED, steps), more)
    ensures var s := Run(CREATED, steps);
            var t := Run(s, more);
            && s.history != [] && t.history != []
            && (State(s).Closed? ==> State(t).Closed?)
            && (State(s).OnlyServer? || State(s).OnlyClient? ==> State(t) == State(s) || State(t).Closed?)
            && (State(s).Active? ==> !State(t).Connecting?)
  {
    hide Run, Legal, Next, Inv, Orderly;
    var s := Run(CREATED, steps);
    CreatedInv(idle);
    RunKeepsInv(idle, CREATED, steps);
    RunKeepsInv(idle, s, more);
    HistoryGrows(s, more);
    InvIsOrderly(idle, s);
    InvIsOrderly(idle, Run(s, more));
    AdvancesFrom(Run(s, more).history, |s.history| - 1, |Run(s, more).history| - 1);
  }

  lemma {:induction false} CreatedInv(idle: nat)
    ensures Inv(idle, CREATED)
  {
  }

  lemma {:induction false} InvIsOrderly(idle: nat, s: Session)
    requires Inv(idle, s)
    ensures s.history != [] && Orderly(s.history)
  {
  }

  lemma {:induction false} AdvancesFrom(history: seq<SessionState>, i: nat, j: nat)
    requires Orderly(history) && i <= j < |history|
    ensures history[i].Closed? ==> history[j].Closed?
    ensures history[i].OnlyServer? || history[i].OnlyClient? ==> history[j] == history[i] || history[j].Closed?
    ensures history[i].Active? ==> !history[j].Connecting?
    decreases j
  {
    if i < j {
      AdvancesFrom(history, i, j - 1);
      assert Follows(history[j - 1], history[j]);
    }
  }

  // ---- what can always happen ----

  lemma {:induction false} RunOne(s: Session, step: Step, rest: seq<Step>)
    ensures Run(s, [step] + rest) == Run(Next(s, step), rest) && Run(s, []) == s
    ensures forall idle :: Legal(idle, s, [step] + rest) <==> Enabled(idle, s, step) && Legal(idle, Next(s, step), rest)
    ensures forall idle :: Legal(idle, s, [])
  {
    hide Next, Enabled;
    assert ([step] + rest)[1..] == rest;
  }

  /**
   The survivor of a half-open session whose read has been pending for a full idle period can be reaped, and
   then its relay finishes; nothing else of the session changes.
   */
  lemma {:induction false} IdleSurvivorIsReaped(idle: nat, s: Session, d: Direction, n: nat)
    requires Inv(idle, s) && s.children.At(d).Reading? && !s.cancelled.At(d) && s.peerGone.At(d)
    requires 0 < idle && s.children.At(d).since + idle <= s.clock + n
    ensures var steps := [Tick(n)] + ([IdleTimeout(d)] + ([RunReturns(d)] + []));
            && Legal(idle, s, steps)
            && Run(s, steps) ==
                 s.(clock := s.clock + n, reaped := s.reaped + [Reap(d, s.children.At(d).since, s.clock + n)],
                    finished := s.finished + [d], children := s.children.With(d, Done),
                    peerGone := s.peerGone.With(Other(d), true))
  {
    hide Orderly, StateFits, HalfOpenNamed, NoLateMarks, Justified;
    assert Other(d) in s.finished && s.firstDone != [];
    var s1 := Next(s, Tick(n));
    var s2 := Next(s1, IdleTimeout(d));
    hide Inv;
    RunOne(s, Tick(n), [IdleTimeout(d)] + ([RunReturns(d)] + []));
    RunOne(s1, IdleTimeout(d), [RunReturns(d)] + []);
    RunOne(s2, RunReturns(d), []);
    RunOne(Next(s2, RunReturns(d)), RunReturns(d), []);
    hide Run, Legal;
  }

  /** No timeout comes before its time; and while both sides are there it is only a wake-up. */
  lemma {:induction false} TimeoutIsWakeUp(idle: nat, s: Session, d: Direction)
    requires s.children.At(d).Reading?
    ensures idle == 0 || s.clock < s.children.At(d).since + idle ==> !Enabled(idle, s, IdleTimeout(d))
    ensures !s.peerGone.At(d) ==> Next(s, IdleTimeout(d)) == s.(children := s.children.With(d, Reading(s.clock)))
  {
  }

  /** What ends a session from wherever its task is. */
  function WayOut(s: Session): seq<Step> {
    match s.parent
    case Opening => [ConnectFailed] + []
    case Replying => [Replied(false)] + []
    case Announcing => [Announced] + ([Terminate] + ([Terminate] + ([WritersClosed] + [])))
    case Gathering => [Terminate] + ([Terminate] + ([WritersClosed] + []))
    case Unwinding => [Terminate] + ([WritersClosed] + [])
    case ClosingWriters => [WritersClosed] + []
    case Ended => []
  }

  lemma {:induction false} CloseEnds(idle: nat, s: Session)
    requires s.parent.ClosingWriters?
    ensures Legal(idle, s, [WritersClosed] + []) && Run(s, [WritersClosed] + []) == Mark(s, Closed).(parent := Ended)
  {
    RunOne(s, WritersClosed, []);
    RunOne(Next(s, WritersClosed), WritersClosed, []);
    hide Run, Legal;
  }

  /** A session can be ended from every state it gets into, and is CLOSED then. */
  lemma {:induction false} CanAlwaysEnd(idle: nat, s: Session)
    requires Inv(idle, s)
    ensures Legal(idle, s, WayOut(s)) && Run(s, WayOut(s)).parent.Ended?
    ensures Run(s, WayOut(s)).history != [] && State(Run(s, WayOut(s))) == Closed
  {
    hide Run, Legal, NoLateMarks, HalfOpenNamed, Orderly, Justified;
    assert s.history != [] by {
      InvIsOrderly(idle, s);
    }
    match s.parent {
      case Opening => FailureEnds(idle, s, ConnectFailed);
      case Replying => FailureEnds(idle, s, Replied(false));
      case Announcing =>
        RunOne(s, Announced, [Terminate] + ([Terminate] + ([WritersClosed] + [])));
        GatheringEnds(idle, Next(s, Announced));
      case Gathering => GatheringEnds(idle, s);
      case Unwinding => UnwindingEnds(idle, s);
      case ClosingWriters => CloseEnds(idle, s);
      case Ended => RunOne(s, ConnectFailed, []);
    }
  }

  lemma {:induction false} FailureEnds(idle: nat, s: Session, step: Step)
    requires (s.parent.Opening? && step == ConnectFailed) || (s.parent.Replying? && step == Replied(false))
    ensures Legal(idle, s, [step] + []) && Run(s, [step] + []).parent.Ended?
    ensures Run(s, [step] + []).history == s.history + [Closed]
  {
    RunOne(s, step, []);
    RunOne(Next(s, step), step, []);
    hide Run, Legal;
  }

  lemma {:induction false} UnwindingEnds(idle: nat, s: Session)
    requires s.parent.Unwinding?
    ensures var steps := [Terminate] + ([WritersClosed] + []);
            Legal(idle, s, steps) && Run(s, steps).parent.Ended? && Run(s, steps).history == s.history + [Closed]
  {
    RunOne(s, Terminate, [WritersClosed] + []);
    CloseEnds(idle, Next(s, Terminate));
    hide Run, Legal;
  }

  lemma {:induction false} GatheringEnds(idle: nat, s: Session)
    requires s.parent.Gathering?
    ensures var steps := [Terminate] + ([Terminate] + ([WritersClosed] + []));
            Legal(idle, s, steps) && Run(s, steps).parent.Ended? && Run(s, steps).history == s.history + [Closed]
  {
    RunOne(s, Terminate, [Terminate] + ([WritersClosed] + []));
    UnwindingEnds(idle, Next(s, Terminate));
    hide Run, Legal;
  }

  /**
   A session both of whose sides end by themselves, the side of `d` first: the half-open state of the survivor
   is recorded, one callback runs, for `d`, then CLOSED.
   */
  lemma {:induction false} GracefulEnd(idle: nat, s: Session, d: Direction)
    requires Inv(idle, s) && s.parent.Gathering? && s.finished == []
    requires s.children.up.Reading? && s.children.down.Reading? && s.cancelled == Both(false, false)
    ensures var e := Other(d);
            var steps := [StreamEnds(d)] + ([RunReturns(d)] + ([CallbackReturns(d)] + ([StreamEnds(e)]
                           + ([RunReturns(e)] + ([BothDone] + ([WritersClosed] + []))))));
            && Legal(idle, s, steps)
            && Run(s, steps) ==
                 s.(history := s.history + [if d == ClientToServer then OnlyServer else OnlyClient] + [Closed],
                    parent := Ended, children := Both(Done, Done), peerGone := Both(true, true), firstDone := [d],
                    callbacks := [d], finished := [d, e])
  {
    hide Orderly, StateFits, HalfOpenNamed, NoLateMarks, Justified;
    assert s.firstDone == [] && s.callbacks == [];
    hide Inv;
    var e := Other(d);
    var s1 := Next(s, StreamEnds(d));
    var s2 := Next(s1, RunReturns(d));
    var s3 := Next(s2, CallbackReturns(d));
    var s4 := Next(s3, StreamEnds(e));
    var s5 := Next(s4, RunReturns(e));
    var s6 := Next(s5, BothDone);
    RunOne(s, StreamEnds(d), [RunReturns(d)] + ([CallbackReturns(d)] + ([StreamEnds(e)]
                               + ([RunReturns(e)] + ([BothDone] + ([WritersClosed] + []))))));
    RunOne(s1, RunReturns(d), [CallbackReturns(d)] +
           ([StreamEnds(e)] + ([RunReturns(e)] + ([BothDone] + ([WritersClosed] + [])))));
    RunOne(s2, CallbackReturns(d), [StreamEnds(e)] + ([RunReturns(e)] + ([BothDone] + ([WritersClosed] + []))));
    RunOne(s3, StreamEnds(e), [RunReturns(e)] + ([BothDone] + ([WritersClosed] + [])));
    RunOne(s4, RunReturns(e), [BothDone] + ([WritersClosed] + []));
    RunOne(s5, BothDone, [WritersClosed] + []);
    CloseEnds(idle, s6);
    hide Run, Legal;
  }
}

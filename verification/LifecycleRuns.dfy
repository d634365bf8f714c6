/** Over whole runs: what makes a session ACTIVE, what ends a relay, what a cancellation does. */
module LifecycleRuns {
  import opened Framing
  import opened Lifecycle

  // ---- ACTIVE ----

  lemma {:induction false} ActiveStep(s: Session, step: Step)
    ensures Active in Next(s, step).history <==>
              Active in s.history || step == Connected(false) || step == Replied(true)
  {
  }

  /** A session is recorded ACTIVE when its upstream connection stands, with SOCKS once the reply has gone out too. */
  lemma {:induction false} ActiveBecause(idle: nat, s: Session, steps: seq<Step>)
    requires Legal(idle, s, steps)
    ensures Active in Run(s, steps).history <==>
              Active in s.history || Connected(false) in steps || Replied(true) in steps
    decreases |steps|
  {
    hide Next, Enabled;
    if steps != [] {
      ActiveStep(s, steps[0]);
      ActiveBecause(idle, Next(s, steps[0]), steps[1..]);
    }
  }

  // ---- the end of a relay ----

  ghost predicate Reaped(s: Session, d: Direction) {
    exists i :: 0 <= i < |s.reaped| && s.reaped[i].side == d
  }

  /** A relay on its way out, or out, saw the end of its stream (`seen`) or was reaped. */
  ghost predicate Because(s: Session, d: Direction, seen: bool) {
    s.children.At(d) == Busy(true) || d in s.finished ==> seen || Reaped(s, d)
  }

  lemma {:induction false} BecauseStep(idle: nat, s: Session, step: Step, d: Direction, seen: bool)
    requires Enabled(idle, s, step) && Because(s, d, seen)
    ensures Because(Next(s, step), d, seen || step == StreamEnds(d))
  {
    var s' := Next(s, step);
    assert Reaped(s, d) ==> Reaped(s', d) by {
      assert |s'.reaped| >= |s.reaped| && forall i :: 0 <= i < |s.reaped| ==> s'.reaped[i] == s.reaped[i];
    }
    if step == IdleTimeout(d) && s'.children.At(d) == Busy(true) {
      assert s'.reaped[|s.reaped|].side == d;
    }
  }

  /** A relay's run returns because its own stream ended, or because it was given up as idle; nothing else ends it. */
  lemma {:induction false} RunReturnsBecause(idle: nat, s: Session, steps: seq<Step>, d: Direction, seen: bool)
    requires Legal(idle, s, steps) && Because(s, d, seen)
    ensures d in Run(s, steps).finished ==> seen || StreamEnds(d) in steps || Reaped(Run(s, steps), d)
    decreases |steps|
  {
    hide Next, Enabled, Reaped;
    if steps != [] {
      BecauseStep(idle, s, steps[0], d, seen);
      RunReturnsBecause(idle, Next(s, steps[0]), steps[1..], d, seen || steps[0] == StreamEnds(d));
    }
  }

  // ---- cancellation ----

  /** The relays have been started, and so will not be started again. */
  ghost predicate Started(s: Session) {
    s.parent.Gathering? || s.parent.Unwinding? || s.parent.ClosingWriters? || s.parent.Ended?
  }

  lemma {:induction false} CancelledStep(idle: nat, s: Session, step: Step, d: Direction)
    requires Started(s) && Enabled(idle, s, step)
    ensures Started(Next(s, step)) && (s.cancelled.At(d) ==> Next(s, step).cancelled.At(d))
    ensures s.children.At(d).Done? ==> Next(s, step).children.At(d).Done?
    ensures s.cancelled.At(d) ==>
              && Next(s, step).children.At(d) in {s.children.At(d), Dying, Done}
              && (s.children.At(d).Dying? ==> Next(s, step).children.At(d) in {Dying, Done})
              && (d in Next(s, step).finished <==> d in s.finished)
              && (Reaped(Next(s, step), d) <==> Reaped(s, d))
  {
    var s' := Next(s, step);
    assert |s.reaped| <= |s'.reaped| <= |s.reaped| + 1;
    assert forall i :: 0 <= i < |s.reaped| ==> s'.reaped[i] == s.reaped[i];
    if s.cancelled.At(d) && |s'.reaped| > |s.reaped| {
      assert s'.reaped[|s.reaped|].side != d;
    }
  }

  /**
   From the moment a relay is told to stop it does nothing of its own any more: it stays where it is until the
   cancellation reaches it, dies, and is over; its run never returns, it is never reaped, and what is over stays over.
   */
  lemma {:induction false} CancelledOnlyDies(idle: nat, s: Session, steps: seq<Step>, d: Direction)
    requires Started(s) && Legal(idle, s, steps)
    ensures s.children.At(d).Done? ==> Run(s, steps).children.At(d).Done?
    ensures s.cancelled.At(d) ==>
              && Run(s, steps).children.At(d) in {s.children.At(d), Dying, Done}
              && (d in Run(s, steps).finished <==> d in s.finished)
              && (Reaped(Run(s, steps), d) <==> Reaped(s, d))
    decreases |steps|
  {
    hide Next, Enabled, Started, Reaped;
    if steps != [] {
      CancelledStep(idle, s, steps[0], d);
      CancelledOnlyDies(idle, Next(s, steps[0]), steps[1..], d);
    }
  }

  // ---- what a relay can always do ----

  /** Data that arrives restarts the idle clock of its own side when the relay reads again, and nothing else changes. */
  lemma {:induction false} DataRestartsClock(idle: nat, s: Session, d: Direction, n: nat)
    requires s.children.At(d).Reading? && !s.cancelled.At(d)
    ensures var steps := [ReadReturns(d)] + ([Tick(n)] + ([ReadsAgain(d)] + []));
            && Legal(idle, s, steps)
            && Run(s, steps) == s.(clock := s.clock + n, children := s.children.With(d, Reading(s.clock + n)))
  {
    var s1 := Next(s, ReadReturns(d));
    var s2 := Next(s1, Tick(n));
    RunOne(s, ReadReturns(d), [Tick(n)] + ([ReadsAgain(d)] + []));
    RunOne(s1, Tick(n), [ReadsAgain(d)] + []);
    RunOne(s2, ReadsAgain(d), []);
    RunOne(Next(s2, ReadsAgain(d)), Tick(n), []);
    hide Run, Legal;
    assert s.children.With(d, Busy(false)).With(d, Reading(s.clock + n)) == s.children.With(d, Reading(s.clock + n));
  }

  /** A relay that was told to stop can die and be over, whatever it was at; one in its callback is over at once. */
  lemma {:induction false} CancelledCanDie(idle: nat, s: Session, d: Direction)
    requires s.cancelled.At(d) && !s.children.At(d).Done?
    ensures var steps := if s.children.At(d).Dying? then [Dies(d)] + []
                         else if s.children.At(d).Calling? then [CancelDelivered(d)] + []
                         else [CancelDelivered(d)] + ([Dies(d)] + []);
            Legal(idle, s, steps) && Run(s, steps) == s.(children := s.children.With(d, Done))
  {
    if s.children.At(d).Dying? {
      OverAfter(idle, s, Dies(d), d);
    } else if s.children.At(d).Calling? {
      OverAfter(idle, s, CancelDelivered(d), d);
    } else {
      var s1 := Next(s, CancelDelivered(d));
      RunOne(s, CancelDelivered(d), [Dies(d)] + []);
      OverAfter(idle, s1, Dies(d), d);
      hide Run, Legal;
      assert s.children.With(d, Dying).With(d, Done) == s.children.With(d, Done);
    }
  }

  lemma {:induction false} OverAfter(idle: nat, s: Session, step: Step, d: Direction)
    requires Enabled(idle, s, step) && Next(s, step) == s.(children := s.children.With(d, Done))
    ensures Legal(idle, s, [step] + []) && Run(s, [step] + []) == s.(children := s.children.With(d, Done))
  {
    hide Next, Enabled, Run, Legal;
    RunOne(s, step, []);
    RunOne(Next(s, step), step, []);
  }

  /** A relay that is busy with data can end as well, and its run returns then. */
  lemma {:induction false} BusyCanEnd(idle: nat, s: Session, d: Direction)
    requires s.children.At(d) == Busy(false) && !s.cancelled.At(d)
    ensures var steps := [StreamEnds(d)] + ([RunReturns(d)] + []);
            Legal(idle, s, steps) && Run(s, steps).finished == s.finished + [d]
  {
    var s1 := Next(s, StreamEnds(d));
    RunOne(s, StreamEnds(d), [RunReturns(d)] + []);
    RunOne(s1, RunReturns(d), []);
    RunOne(Next(s1, RunReturns(d)), Terminate, []);
    hide Run, Legal;
  }
}

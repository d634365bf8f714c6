/** What closes a forge connection, what does not, and that nothing on it can hang. */
module ForgeEnds {
  import opened Bytes
  import opened Forge

  /** The end of the stream, seen by a send or by the reader, an I/O error, or the operator. */
  ghost predicate Ends(e: Engine, step: Step, sid: Sid) {
    match step
    case ReaderEof(s) => s == sid
    case ReaderFails(s) => s == sid
    case OperatorCloses(s) => s == sid
    case SendStarts(_, s, writes) => s == sid && !writes
    case SendDrained(k, ok) => !ok && SendOn(e, k, sid)
    case SendTakes(k) => SendOn(e, k, sid) && FirstEnds(e, sid)
    case _ => false
  }

  ghost predicate SendOn(e: Engine, k: SendId, sid: Sid) {
    k in e.sends && e.sends[k].sid == sid
  }

  /** The oldest thing queued is the end of the stream or an error. */
  ghost predicate FirstEnds(e: Engine, sid: Sid) {
    sid in e.conns && e.conns[sid].queue != []
    && (e.conns[sid].queue[0] == Chunk([]) || e.conns[sid].queue[0] == Failure)
  }

  /**
   An open connection is closed by the end of its stream, by an error, and by the operator, at that very step, and
   by nothing else: no time-out and no other connection's end closes it.
   */
  lemma {:induction false} ClosedExactlyBy(steps: seq<Step>, step: Step, sid: Sid)
    requires Legal(EMPTY, steps) && Enabled(Run(EMPTY, steps), step) && sid in Run(EMPTY, steps).open
    ensures var e := Run(EMPTY, steps);
            var e' := Next(e, step);
            && sid in e.conns && sid in e'.conns
            && (sid !in e'.open <==> Ends(e, step, sid))
            && (sid !in e'.active <==> Ends(e, step, sid))
            && e'.conns[sid].callbacks == (if Ends(e, step, sid) then 1 else 0)
  {
    var e := Run(EMPTY, steps);
    RunKeepsInv(EMPTY, steps);
    StepKeepsInv(e, step);
    hide Run, Legal, Conserved, InTurn, SendsBelong, SendFits, OpenConn, AddSend, TakeItem, Put;
    assert ClosesOnce(e, sid);
    OpenAfter(e, step, sid);
    assert ClosesOnce(Next(e, step), sid);
  }

  lemma {:induction false} OpenAfter(e: Engine, step: Step, sid: Sid)
    requires Enabled(e, step) && sid in e.open && sid in e.conns && !e.conns[sid].closed
    ensures sid in Next(e, step).conns
    ensures sid !in Next(e, step).open <==> Ends(e, step, sid)
  {
    hide Close, OpenConn, AddSend, TakeItem, Put, SetPhase, SetReader;
    match step {
      case Open(s, udp, early) => OpenShape(e, s, udp, EarlyItems(early), sid);
      case Arrives(s, bytes) => PutShape(e, s, Chunk(bytes));
      case ReaderEof(s) => ReaderShape(e, s, Chunk([]), sid);
      case ReaderFails(s) => ReaderShape(e, s, Failure, sid);
      case DatagramFails(s) => PutShape(e, s, Failure);
      case ReaderStops(s) => ReaderIs(e, s, Stopped);
      case SendStarts(k, s, writes) =>
        if s in e.open && s in e.conns {
          AddShape(e, k, s, sid);
          GiveUpShape(AddSend(e, k, s), k, sid);
        }
      case SendDrained(k, ok) =>
        PhaseShape(e, k, Receiving);
        GiveUpShape(e, k, sid);
      case SendTakes(k) =>
        TakeShape(e, k, sid);
        GiveUpShape(TakeItem(e, k), k, sid);
      case SendTimesOut(k) => PhaseShape(e, k, Returned);
      case SendReturns(k) => PhaseShape(e, k, Returned);
      case OperatorCloses(s) =>
        if s in e.open && s in e.conns {
          CloseOpen(e, s, false, sid);
        }
    }
  }

  lemma {:induction false} OpenShape(e: Engine, s: Sid, udp: bool, q: seq<Item>, sid: Sid)
    ensures sid in OpenConn(e, s, udp, q).open <==> sid == s || sid in e.open
    ensures sid in OpenConn(e, s, udp, q).conns <==> sid == s || sid in e.conns
  {
  }

  lemma {:induction false} PutShape(e: Engine, s: Sid, i: Item)
    requires s in e.conns
    ensures Put(e, s, i).open == e.open && Put(e, s, i).conns.Keys == e.conns.Keys
    ensures forall x :: x in e.conns ==> Put(e, s, i).conns[x].closed == e.conns[x].closed
  {
  }

  lemma {:induction false} ReaderIs(e: Engine, s: Sid, r: Reader)
    requires s in e.conns
    ensures SetReader(e, s, r).open == e.open && SetReader(e, s, r).conns.Keys == e.conns.Keys
  {
  }

  lemma {:induction false} PhaseShape(e: Engine, k: SendId, p: SendPhase)
    requires k in e.sends
    ensures SetPhase(e, k, p).open == e.open && SetPhase(e, k, p).conns == e.conns
  {
  }

  lemma {:induction false} CloseOpen(e: Engine, s: Sid, byReader: bool, sid: Sid)
    requires s in e.conns
    ensures sid in Close(e, s, byReader).open <==> sid in e.open && sid != s
    ensures Close(e, s, byReader).conns.Keys == e.conns.Keys && Close(e, s, byReader).sends == e.sends
  {
  }

  lemma {:induction false} ReaderShape(e: Engine, s: Sid, i: Item, sid: Sid)
    requires s in e.conns
    ensures s in Put(e, s, i).conns && s in Close(Put(e, s, i), s, true).conns
    ensures var e' := SetReader(Close(Put(e, s, i), s, true), s, InCallback);
            (sid in e'.open <==> sid in e.open && sid != s) && e'.conns.Keys == e.conns.Keys
  {
    hide Put, Close, SetReader;
    PutShape(e, s, i);
    CloseOpen(Put(e, s, i), s, true, sid);
    ReaderIs(Close(Put(e, s, i), s, true), s, InCallback);
  }

  lemma {:induction false} AddShape(e: Engine, k: SendId, s: Sid, sid: Sid)
    requires s in e.conns
    ensures var e' := AddSend(e, k, s);
            && e'.open == e.open && e'.conns.Keys == e.conns.Keys && k in e'.sends && e'.sends[k].sid == s
  {
  }

  lemma {:induction false} TakeShape(e: Engine, k: SendId, sid: Sid)
    requires k in e.sends && e.sends[k].sid in e.conns && e.conns[e.sends[k].sid].queue != []
    ensures var e' := TakeItem(e, k);
            && e'.open == e.open && e'.conns.Keys == e.conns.Keys
            && k in e'.sends && e'.sends[k].sid == e.sends[k].sid
  {
  }

  lemma {:induction false} GiveUpShape(e: Engine, k: SendId, sid: Sid)
    requires k in e.sends && e.sends[k].sid in e.conns
    ensures sid in GiveUp(e, k).open <==> sid in e.open && sid != e.sends[k].sid
    ensures GiveUp(e, k).conns.Keys == e.conns.Keys
  {
    hide Close, SetPhase;
    CloseOpen(e, e.sends[k].sid, false, sid);
    PhaseShape(Close(e, e.sends[k].sid, false), k, Calling);
  }

  // ---- what a send gets ----

  /** A send on a connection that is not open fails and changes nothing else. */
  lemma {:induction false} RefusedLeavesAlone(e: Engine, k: SendId, sid: Sid, writes: bool)
    requires Inv(e) && Enabled(e, SendStarts(k, sid, writes)) && sid !in e.open
    ensures var e' := Next(e, SendStarts(k, sid, writes));
            e' == e.(sends := e'.sends) && e'.sends.Keys == e.sends.Keys + {k}
            && (forall j :: j in e.sends ==> e'.sends[j] == e.sends[j])
            && e'.sends[k].phase.Returned? && e'.sends[k].received == []
  {
  }

  /** A time-out ends the send and leaves every connection as it is, with all that is queued on it. */
  lemma {:induction false} TimeoutLeavesAlone(e: Engine, k: SendId)
    requires Inv(e) && Enabled(e, SendTimesOut(k))
    ensures var e' := Next(e, SendTimesOut(k));
            e' == e.(sends := e'.sends) && e'.sends.Keys == e.sends.Keys
            && (forall j :: j in e.sends ==> e'.sends[j].received == e.sends[j].received)
            && (forall j :: j in e.sends && j != k ==> e'.sends[j] == e.sends[j]) && e'.sends[k].phase.Returned?
  {
  }

  /** A send that waits takes the oldest thing queued: data is added to what it received and it waits on. */
  lemma {:induction false} TakesTheOldest(e: Engine, k: SendId)
    requires Inv(e) && Enabled(e, SendTakes(k))
    ensures var e' := Next(e, SendTakes(k));
            var sid := e.sends[k].sid;
            && sid in e'.conns && k in e'.sends
            && [e.conns[sid].queue[0]] + e'.conns[sid].queue == e.conns[sid].queue
            && (FirstEnds(e, sid) ==> e'.sends[k].phase.Calling? && e'.sends[k].received == e.sends[k].received)
            && (!FirstEnds(e, sid) ==>
                e'.sends[k].phase.Receiving? && e.conns[sid].queue[0].Chunk?
                && e'.sends[k].received == e.sends[k].received + e.conns[sid].queue[0].bytes)
  {
    hide Inv;
  }

  // ---- nothing hangs ----

  /** Steps of one send alone that bring it back. */
  ghost predicate Returns(e: Engine, k: SendId, steps: seq<Step>) {
    && |steps| <= 2 && Legal(e, steps) && k in Run(e, steps).sends && Run(e, steps).sends[k].phase.Returned?
    && forall i :: 0 <= i < |steps| ==> steps[i] in {SendDrained(k, true), SendTimesOut(k), SendReturns(k)}
  }

  /** From every state some run reaches, each send can return by its own steps, whatever the others do. */
  lemma {:induction false} SendCanReturn(steps: seq<Step>, k: SendId)
    requires Legal(EMPTY, steps) && k in Run(EMPTY, steps).sends
    ensures exists more :: Returns(Run(EMPTY, steps), k, more)
  {
    var e := Run(EMPTY, steps);
    RunKeepsInv(EMPTY, steps);
    assert SendFits(e, k);
    hide Inv;
    match e.sends[k].phase {
      case Writing =>
        TwoSteps(e, k);
      case Receiving => OneStep(e, k, SendTimesOut(k));
      case Calling => OneStep(e, k, SendReturns(k));
      case Returned => assert Returns(e, k, []);
    }
  }

  lemma {:induction false} TwoSteps(e: Engine, k: SendId)
    requires Live(e, k, Writing)
    ensures Returns(e, k, [SendDrained(k, true), SendTimesOut(k)])
  {
    var drains, last := SendDrained(k, true), SendTimesOut(k);
    var more := [drains, last];
    assert Enabled(e, drains) && Live(Next(e, drains), k, Receiving);
    assert more[1..] == [last];
    OneStep(Next(e, drains), k, last);
    hide Next, Enabled;
    assert Run(e, more) == Run(Next(e, drains), [last]);
  }

  lemma {:induction false} OneStep(e: Engine, k: SendId, step: Step)
    requires Enabled(e, step) && step in {SendTimesOut(k), SendReturns(k)}
    ensures Returns(e, k, [step])
  {
    assert [step][1..] == [];
    assert Run(e, [step]) == Run(Next(e, step), []);
  }

  // ---- what can happen to a connection ----

  /** The reader of an open connection is at its read and was not told to stop, or there is none. */
  ghost predicate OpenReads(e: Engine, sid: Sid) {
    sid in e.open ==>
      && sid in e.conns && !e.conns[sid].closed
      && (e.conns[sid].reader.AwaitingRead? || e.conns[sid].reader.NoReader?) && !e.conns[sid].cancelReader
  }

  /** Nothing changes for the reader of a connection that stays open. */
  ghost predicate SameReader(e: Engine, e': Engine, sid: Sid) {
    sid in e'.open ==>
      && sid in e.open
      && (sid in e.conns ==>
          && sid in e'.conns && e'.conns[sid].reader == e.conns[sid].reader
          && e'.conns[sid].cancelReader == e.conns[sid].cancelReader && e'.conns[sid].closed == e.conns[sid].closed)
  }

  lemma {:induction false} SameReaderReads(e: Engine, e': Engine, sid: Sid)
    requires OpenReads(e, sid) && SameReader(e, e', sid)
    ensures OpenReads(e', sid)
  {
  }

  lemma {:induction false} SameReaderTwice(e: Engine, e': Engine, e'': Engine, sid: Sid)
    requires SameReader(e, e', sid) && SameReader(e', e'', sid)
    ensures SameReader(e, e'', sid)
  {
  }

  lemma {:induction false} PutReader(e: Engine, s: Sid, i: Item, sid: Sid)
    requires s in e.conns
    ensures SameReader(e, Put(e, s, i), sid)
  {
  }

  lemma {:induction false} CloseReader(e: Engine, s: Sid, byReader: bool, sid: Sid)
    requires s in e.conns
    ensures SameReader(e, Close(e, s, byReader), sid)
  {
  }

  lemma {:induction false} PhaseReader(e: Engine, k: SendId, p: SendPhase, sid: Sid)
    requires k in e.sends
    ensures SameReader(e, SetPhase(e, k, p), sid)
  {
  }

  lemma {:induction false} GiveUpReader(e: Engine, k: SendId, sid: Sid)
    requires k in e.sends && e.sends[k].sid in e.conns
    ensures SameReader(e, GiveUp(e, k), sid)
  {
    hide Close, SetPhase, SameReader;
    CloseShape(e, e.sends[k].sid, false);
    CloseReader(e, e.sends[k].sid, false, sid);
    PhaseReader(Close(e, e.sends[k].sid, false), k, Calling, sid);
    SameReaderTwice(e, Close(e, e.sends[k].sid, false), GiveUp(e, k), sid);
  }

  lemma {:induction false} TakeReader(e: Engine, k: SendId, sid: Sid)
    requires k in e.sends && e.sends[k].sid in e.conns && e.conns[e.sends[k].sid].queue != []
    ensures SameReader(e, TakeItem(e, k), sid)
  {
  }

  lemma {:induction false} AddReader(e: Engine, k: SendId, s: Sid, sid: Sid)
    requires s in e.conns
    ensures SameReader(e, AddSend(e, k, s), sid)
  {
  }

  /** The reader that ended closes its connection, so that none of this matters to an open one. */
  lemma {:induction false} EndReader(e: Engine, s: Sid, i: Item, sid: Sid)
    requires s in e.conns
    ensures s in Put(e, s, i).conns && s in Close(Put(e, s, i), s, true).conns
    ensures SameReader(e, SetReader(Close(Put(e, s, i), s, true), s, InCallback), sid)
  {
    ReaderShape(e, s, i, sid);
    PutReader(e, s, i, sid);
    CloseReader(Put(e, s, i), s, true, sid);
    hide Put, Close;
  }

  lemma {:induction false} StopReader(e: Engine, s: Sid, sid: Sid)
    requires s in e.conns && (e.conns[s].reader.InCallback?
                              || (e.conns[s].reader.AwaitingRead? && e.conns[s].cancelReader))
    requires OpenReads(e, sid)
    ensures SameReader(e, SetReader(e, s, Stopped), sid)
  {
  }

  lemma {:induction false} OpenedReads(e: Engine, s: Sid, udp: bool, q: seq<Item>, sid: Sid)
    requires OpenReads(e, sid)
    ensures OpenReads(OpenConn(e, s, udp, q), sid)
  {
  }

  lemma {:induction false} StepReads(e: Engine, step: Step, sid: Sid)
    requires Enabled(e, step) && OpenReads(e, sid)
    ensures OpenReads(Next(e, step), sid)
  {
    hide Close, OpenConn, AddSend, TakeItem, Put, SetPhase, SetReader, OpenReads, SameReader, GiveUp;
    match step {
      case Open(s, udp, early) => OpenedReads(e, s, udp, EarlyItems(early), sid);
      case Arrives(s, bytes) => PutReader(e, s, Chunk(bytes), sid);
      case ReaderEof(s) => EndReader(e, s, Chunk([]), sid);
      case ReaderFails(s) => EndReader(e, s, Failure, sid);
      case DatagramFails(s) => PutReader(e, s, Failure, sid);
      case ReaderStops(s) => StopReader(e, s, sid);
      case SendStarts(k, s, writes) => StartReader(e, k, s, writes, sid);
      case SendDrained(k, ok) =>
        PhaseReader(e, k, Receiving, sid);
        GiveUpReader(e, k, sid);
      case SendTakes(k) => TakesReader(e, k, sid);
      case SendTimesOut(k) => PhaseReader(e, k, Returned, sid);
      case SendReturns(k) => PhaseReader(e, k, Returned, sid);
      case OperatorCloses(s) => OperatorReader(e, s, sid);
    }
    if !step.Open? {
      SameReaderReads(e, Next(e, step), sid);
    }
  }

  lemma {:induction false} StartReader(e: Engine, k: SendId, s: Sid, writes: bool, sid: Sid)
    requires Enabled(e, SendStarts(k, s, writes))
    ensures SameReader(e, Next(e, SendStarts(k, s, writes)), sid)
  {
    if s in e.open && s in e.conns {
      hide AddSend, GiveUp, SameReader;
      AddShape(e, k, s, sid);
      AddReader(e, k, s, sid);
      GiveUpReader(AddSend(e, k, s), k, sid);
      SameReaderTwice(e, AddSend(e, k, s), GiveUp(AddSend(e, k, s), k), sid);
    }
  }

  lemma {:induction false} TakesReader(e: Engine, k: SendId, sid: Sid)
    requires Enabled(e, SendTakes(k))
    ensures SameReader(e, Next(e, SendTakes(k)), sid)
  {
    hide TakeItem, GiveUp, SameReader;
    TakeShape(e, k, sid);
    TakeReader(e, k, sid);
    GiveUpReader(TakeItem(e, k), k, sid);
    SameReaderTwice(e, TakeItem(e, k), GiveUp(TakeItem(e, k), k), sid);
  }

  lemma {:induction false} OperatorReader(e: Engine, s: Sid, sid: Sid)
    ensures SameReader(e, Next(e, OperatorCloses(s)), sid)
  {
    if s in e.open && s in e.conns {
      CloseReader(e, s, false, sid);
      hide Close;
    }
  }

  lemma {:induction false} RunReads(e: Engine, steps: seq<Step>, sid: Sid)
    requires Legal(e, steps) && OpenReads(e, sid)
    ensures OpenReads(Run(e, steps), sid)
    decreases |steps|
  {
    hide Next, Enabled, OpenReads;
    if steps != [] {
      StepReads(e, steps[0], sid);
      RunReads(Next(e, steps[0]), steps[1..], sid);
    }
  }

  /**
   An open connection with a reader task can at any time be handed any data, its end or an error, and one without
   any datagram or an error. A closed one is handed nothing more: its reader stops, and a datagram transport can
   still report an error.
   */
  lemma {:induction false} WhatCanArrive(steps: seq<Step>, sid: Sid, bytes: seq<byte>)
    requires Legal(EMPTY, steps) && sid in Run(EMPTY, steps).conns
    ensures var e := Run(EMPTY, steps);
            var task := !e.conns[sid].reader.NoReader?;
            && (Enabled(e, Arrives(sid, bytes)) <==> sid in e.open && bytes != [])
            && (Enabled(e, ReaderEof(sid)) <==> sid in e.open && task)
            && (Enabled(e, ReaderFails(sid)) <==> sid in e.open && task)
            && (Enabled(e, DatagramFails(sid)) <==> !task)
            && (Enabled(e, ReaderStops(sid)) <==> sid !in e.open && task && !e.conns[sid].reader.Stopped?)
  {
    var e := Run(EMPTY, steps);
    RunKeepsInv(EMPTY, steps);
    RunReads(EMPTY, steps, sid);
    hide Run, Legal;
    assert ClosesOnce(e, sid);
    hide Inv;
  }

  /**
   A connection opens under an id not used before, a datagram one with whatever arrived while it was being opened,
   and is then open and ACTIVE with exactly that queued, no send begun and no callback run.
   */
  lemma {:induction false} OpensFresh(e: Engine, sid: Sid, udp: bool, early: seq<seq<byte>>)
    ensures Enabled(e, Open(sid, udp, early)) <==> sid !in e.conns && (udp || |early| == 0)
    ensures Enabled(e, Open(sid, udp, early)) ==>
              var e' := Next(e, Open(sid, udp, early));
              && sid in e'.conns && sid in e'.open && sid in e'.active
              && e'.conns[sid].read == Concat(early) && QueueBytes(e'.conns[sid].queue) == Concat(early)
              && e'.conns[sid].taken == [] && e'.conns[sid].starts == [] && e'.conns[sid].callbacks == 0
              && (e'.conns[sid].reader.NoReader? <==> udp)
  {
    EarlyJoined(early);
  }

  lemma {:induction false} EarlyJoined(early: seq<seq<byte>>)
    ensures QueueBytes(EarlyItems(early)) == Concat(early)
  {
    if early != [] {
      EarlyJoined(early[1..]);
      assert EarlyItems(early)[1..] == EarlyItems(early[1..]);
    }
  }

  lemma {:induction false} CloseCancels(e: Engine, s: Sid, byReader: bool)
    requires s in e.conns && s in e.open && !e.conns[s].closed
    ensures var c := Close(e, s, byReader).conns[s];
            c.reader == e.conns[s].reader && (c.cancelReader <==> !byReader && !c.reader.NoReader?)
  {
  }

  lemma {:induction false} GiveUpCancels(e: Engine, k: SendId)
    requires k in e.sends && e.sends[k].sid in e.conns && e.sends[k].sid in e.open && !e.conns[e.sends[k].sid].closed
    ensures var s := e.sends[k].sid;
            && s in GiveUp(e, k).conns && GiveUp(e, k).conns[s].reader == e.conns[s].reader
            && (GiveUp(e, k).conns[s].cancelReader <==> !e.conns[s].reader.NoReader?)
  {
    CloseCancels(e, e.sends[k].sid, false);
    hide Close;
  }

  /** The reader that closes goes on to its callback uncancelled; whoever else closes tells the reader to stop. */
  lemma {:induction false} CloserStopsReader(steps: seq<Step>, step: Step, sid: Sid)
    requires Legal(EMPTY, steps) && Enabled(Run(EMPTY, steps), step) && sid in Run(EMPTY, steps).open
    requires sid in Run(EMPTY, steps).conns && Ends(Run(EMPTY, steps), step, sid)
    ensures var c := Run(EMPTY, steps).conns[sid];
            var e' := Next(Run(EMPTY, steps), step);
            && sid in e'.conns
            && (step == ReaderEof(sid) || step == ReaderFails(sid) ==>
                e'.conns[sid].reader.InCallback? && !e'.conns[sid].cancelReader)
            && (step != ReaderEof(sid) && step != ReaderFails(sid) ==>
                e'.conns[sid].reader == c.reader && (e'.conns[sid].cancelReader <==> !c.reader.NoReader?))
  {
    var e := Run(EMPTY, steps);
    RunKeepsInv(EMPTY, steps);
    assert ClosesOnce(e, sid);
    hide Run, Legal, Inv, ClosesOnce, Close, GiveUp;
    match step {
      case ReaderEof(_) => CloseCancels(Put(e, sid, Chunk([])), sid, true);
      case ReaderFails(_) => CloseCancels(Put(e, sid, Failure), sid, true);
      case OperatorCloses(_) => CloseCancels(e, sid, false);
      case SendStarts(k, _, _) => GiveUpCancels(AddSend(e, k, sid), k);
      case SendDrained(k, _) => GiveUpCancels(e, k);
      case SendTakes(k) => GiveUpCancels(TakeItem(e, k), k);
      case _ =>
    }
  }

  // ---- sends that follow one another ----

  /** Each send on the connection begins when those before it have returned. */
  ghost predicate OneAtATime(e: Engine, steps: seq<Step>, sid: Sid)
    requires Legal(e, steps)
    decreases |steps|
  {
    steps != [] ==>
      && (steps[0].SendStarts? && steps[0].sid == sid && sid in e.conns ==>
          forall k :: k in e.conns[sid].starts && k in e.sends ==> e.sends[k].phase.Returned?)
      && OneAtATime(Next(e, steps[0]), steps[1..], sid)
  }

  ghost predicate Overlaps(e: Engine, sid: Sid) {
    sid in e.conns && e.conns[sid].overlapped
  }

  lemma {:induction false} OverlapStep(e: Engine, step: Step, sid: Sid)
    requires Enabled(e, step) && !Overlaps(e, sid)
    requires step.SendStarts? && step.sid == sid && sid in e.conns ==>
               forall k :: k in e.conns[sid].starts && k in e.sends ==> e.sends[k].phase.Returned?
    ensures !Overlaps(Next(e, step), sid)
  {
    hide Close;
    if step.ReaderEof? || step.ReaderFails? {
      CloseShape(Put(e, step.sid, if step.ReaderEof? then Chunk([]) else Failure), step.sid, true);
    } else if step.SendStarts? {
      if step.sid in e.open && step.sid in e.conns {
        StartOverlap(e, step.k, step.sid, sid);
      }
    } else if step.SendDrained? {
      CloseShape(e, e.sends[step.k].sid, false);
    } else if step.SendTakes? {
      CloseShape(TakeItem(e, step.k), e.sends[step.k].sid, false);
    } else if step.OperatorCloses? && step.sid in e.conns {
      CloseShape(e, step.sid, false);
    }
  }

  lemma {:induction false} StartOverlap(e: Engine, k: SendId, s: Sid, sid: Sid)
    requires s in e.conns && !Overlaps(e, sid)
    requires s == sid ==> forall k :: k in e.conns[sid].starts && k in e.sends ==> e.sends[k].phase.Returned?
    ensures !Overlaps(AddSend(e, k, s), sid) && !Overlaps(GiveUp(AddSend(e, k, s), k), sid)
  {
    hide Close;
    CloseShape(AddSend(e, k, s), s, false);
    assert s == sid ==> !SomeUnreturned(e, e.conns[s].starts);
  }

  /** Sends made one at a time never overlap, so that over any such run their receptions add up to what was read. */
  lemma {:induction false} OneAtATimeAddsUp(steps: seq<Step>, sid: Sid)
    requires Legal(EMPTY, steps) && OneAtATime(EMPTY, steps, sid) && sid in Run(EMPTY, steps).conns
    ensures var e := Run(EMPTY, steps);
            var c := e.conns[sid];
            && (forall i :: 0 <= i < |c.starts| ==> c.starts[i] in e.sends)
            && c.read == Received(e.sends, c.starts) + QueueBytes(c.queue)
  {
    NoOverlap(EMPTY, steps, sid);
    SuccessiveSendsAddUp(steps, sid);
  }

  lemma {:induction false} NoOverlap(e: Engine, steps: seq<Step>, sid: Sid)
    requires Legal(e, steps) && OneAtATime(e, steps, sid) && !Overlaps(e, sid)
    ensures !Overlaps(Run(e, steps), sid)
    decreases |steps|
  {
    hide Next, Enabled, Overlaps;
    if steps != [] {
      OverlapStep(e, steps[0], sid);
      NoOverlap(Next(e, steps[0]), steps[1..], sid);
    }
  }
}

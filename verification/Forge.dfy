/**
 Persistent forge connections: a background reader, any number of sends and the operator race on each
 connection. A step is what runs between two awaits.
 */
module Forge {
  import opened Bytes

  type Sid = nat
  type SendId = nat

  /** What the reader hands over: a chunk (empty at end of stream), or an I/O error. */
  datatype Item = Chunk(bytes: seq<byte>) | Failure

  /** A TCP connection has a reader task; a UDP one is fed by its transport. */
  datatype Reader = NoReader | AwaitingRead | InCallback | Stopped

  datatype Take = Take(send: SendId, bytes: seq<byte>)

  /**
   `read` is every byte ever handed over, `taken` who got which chunk, `starts` the sends in the order
   they began, `overlapped` whether one began before its predecessor returned.
   */
  datatype Conn = Conn(closed: bool, reader: Reader, cancelReader: bool, queue: seq<Item>, callbacks: nat,
                       read: seq<byte>, taken: seq<Take>, starts: seq<SendId>, overlapped: bool)

  datatype SendPhase = Writing | Receiving | Calling | Returned

  datatype Send = Send(sid: Sid, phase: SendPhase, received: seq<byte>)

  /** `open` is the table of live connections, `active` the sessions the registry calls ACTIVE. */
  datatype Engine = Engine(open: set<Sid>, active: set<Sid>, conns: map<Sid, Conn>, sends: map<SendId, Send>)

  datatype Step =
    | Open(sid: Sid, udp: bool, early: seq<seq<byte>>)
    | Arrives(sid: Sid, bytes: seq<byte>)        // a chunk or a datagram
    | ReaderEof(sid: Sid)
    | ReaderFails(sid: Sid)
    | DatagramFails(sid: Sid)                    // also while a closed transport still flushes
    | ReaderStops(sid: Sid)
    | SendStarts(k: SendId, sid: Sid, writes: bool) // `writes` is false when the write raises at once
    | SendDrained(k: SendId, ok: bool)
    | SendTakes(k: SendId)
    | SendTimesOut(k: SendId)
    | SendReturns(k: SendId)
    | OperatorCloses(sid: Sid)

  function ItemBytes(i: Item): seq<byte> {
    if i.Chunk? then i.bytes else []
  }

  function QueueBytes(q: seq<Item>): seq<byte> {
    if q == [] then [] else ItemBytes(q[0]) + QueueBytes(q[1..])
  }

  function TakenBytes(t: seq<Take>): seq<byte> {
    if t == [] then [] else TakenBytes(t[..|t| - 1]) + t[|t| - 1].bytes
  }

  /** The chunks one send took. */
  function TakenBy(t: seq<Take>, k: SendId): seq<byte> {
    if t == [] then []
    else TakenBy(t[..|t| - 1], k) + if t[|t| - 1].send == k then t[|t| - 1].bytes else []
  }

  // ---- the atomic stretches of the engine ----

  function Put(e: Engine, sid: Sid, i: Item): Engine
    requires sid in e.conns
  {
    var c := e.conns[sid];
    e.(conns := e.conns[sid := c.(queue := c.queue + [i], read := c.read + ItemBytes(i))])
  }

  /**
   Closing, up to the await of the callback: only the caller that finds the connection in the table
   closes it, stops the reader unless it is the reader, and starts the callback.
   */
  function Close(e: Engine, sid: Sid, byReader: bool): Engine
    requires sid in e.conns
  {
    var c := e.conns[sid];
    if sid !in e.open then e
    else if c.closed then e.(open := e.open - {sid})
    else e.(open := e.open - {sid}, active := e.active - {sid},
            conns := e.conns[sid := c.(closed := true, callbacks := c.callbacks + 1,
                                       cancelReader := !byReader && c.reader != NoReader)])
  }

  function SetReader(e: Engine, sid: Sid, r: Reader): Engine
    requires sid in e.conns
  {
    e.(conns := e.conns[sid := e.conns[sid].(reader := r)])
  }

  function SetPhase(e: Engine, k: SendId, p: SendPhase): Engine
    requires k in e.sends
  {
    e.(sends := e.sends[k := e.sends[k].(phase := p)])
  }

  /** A send that finds no open connection fails before doing anything. */
  function Refuse(e: Engine, k: SendId, sid: Sid): Engine {
    e.(sends := e.sends[k := Send(sid, Returned, [])])
  }

  function AddSend(e: Engine, k: SendId, sid: Sid): Engine
    requires sid in e.conns
  {
    var c := e.conns[sid];
    e.(conns := e.conns[sid := c.(starts := c.starts + [k], overlapped := c.overlapped || SomeUnreturned(e, c.starts))],
       sends := e.sends[k := Send(sid, Writing, [])])
  }

  function TakeItem(e: Engine, k: SendId): Engine
    requires k in e.sends && e.sends[k].sid in e.conns && e.conns[e.sends[k].sid].queue != []
  {
    var s := e.sends[k];
    var c := e.conns[s.sid];
    var bytes := ItemBytes(c.queue[0]);
    e.(conns := e.conns[s.sid := c.(queue := c.queue[1..], taken := c.taken + [Take(k, bytes)])],
       sends := e.sends[k := s.(received := s.received + bytes)])
  }

  function EarlyItems(early: seq<seq<byte>>): seq<Item> {
    if early == [] then [] else [Chunk(early[0])] + EarlyItems(early[1..])
  }

  predicate SomeUnreturned(e: Engine, ks: seq<SendId>) {
    exists i :: 0 <= i < |ks| && ks[i] in e.sends && !e.sends[ks[i]].phase.Returned?
  }

  predicate Live(e: Engine, k: SendId, phase: SendPhase) {
    k in e.sends && e.sends[k].phase == phase && e.sends[k].sid in e.conns
  }

  predicate Enabled(e: Engine, step: Step) {
    match step
    case Open(sid, udp, early) => sid !in e.conns && (!udp ==> early == [])
    case Arrives(sid, bytes) =>
      sid in e.conns && bytes != [] && !e.conns[sid].cancelReader
      && (e.conns[sid].reader.AwaitingRead? || (e.conns[sid].reader.NoReader? && !e.conns[sid].closed))
    case ReaderEof(sid) => sid in e.conns && e.conns[sid].reader.AwaitingRead? && !e.conns[sid].cancelReader
    case ReaderFails(sid) => sid in e.conns && e.conns[sid].reader.AwaitingRead? && !e.conns[sid].cancelReader
    case DatagramFails(sid) => sid in e.conns && e.conns[sid].reader.NoReader?
    case ReaderStops(sid) =>
      sid in e.conns
      && (e.conns[sid].reader.InCallback? || (e.conns[sid].reader.AwaitingRead? && e.conns[sid].cancelReader))
    case SendStarts(k, sid, _) => k !in e.sends
    case SendDrained(k, _) => Live(e, k, Writing)
    case SendTakes(k) => Live(e, k, Receiving) && e.conns[e.sends[k].sid].queue != []
    case SendTimesOut(k) => Live(e, k, Receiving)
    case SendReturns(k) => Live(e, k, Calling)
    case OperatorCloses(sid) => true
  }

  /** A send that saw the end of the connection closes it, or finds it closed already, and is on its way out. */
  function GiveUp(e: Engine, k: SendId): Engine
    requires k in e.sends && e.sends[k].sid in e.conns
  {
    SetPhase(Close(e, e.sends[k].sid, false), k, Calling)
  }

  function Next(e: Engine, step: Step): Engine
    requires Enabled(e, step)
  {
    match step
    case Open(sid, udp, early) => OpenConn(e, sid, udp, EarlyItems(early))
    case Arrives(sid, bytes) => Put(e, sid, Chunk(bytes))
    case ReaderEof(sid) => SetReader(Close(Put(e, sid, Chunk([])), sid, true), sid, InCallback)
    case ReaderFails(sid) => SetReader(Close(Put(e, sid, Failure), sid, true), sid, InCallback)
    case DatagramFails(sid) => Put(e, sid, Failure)
    case ReaderStops(sid) => SetReader(e, sid, Stopped)
    case SendStarts(k, sid, writes) =>
      if sid !in e.open || sid !in e.conns then Refuse(e, k, sid)
      else if writes then AddSend(e, k, sid)
      else GiveUp(AddSend(e, k, sid), k)
    case SendDrained(k, ok) => if ok then SetPhase(e, k, Receiving) else GiveUp(e, k)
    case SendTakes(k) =>
      if ItemBytes(e.conns[e.sends[k].sid].queue[0]) == [] then GiveUp(TakeItem(e, k), k) else TakeItem(e, k)
    case SendTimesOut(k) => SetPhase(e, k, Returned)
    case SendReturns(k) => SetPhase(e, k, Returned)
    case OperatorCloses(sid) => if sid in e.open && sid in e.conns then Close(e, sid, false) else e
  }

  function OpenConn(e: Engine, sid: Sid, udp: bool, queue: seq<Item>): Engine {
    e.(open := e.open + {sid}, active := e.active + {sid},
       conns := e.conns[sid := Conn(false, if udp then NoReader else AwaitingRead, false, queue, 0, QueueBytes(queue),
                                     [], [], false)])
  }

  // ---- what every interleaving keeps ----

  /** Open, ACTIVE and not closed are the same thing; the callback starts with the closing and only then. */
  ghost predicate ClosesOnce(e: Engine, sid: Sid)
    requires sid in e.conns
  {
    var c := e.conns[sid];
    && (sid in e.open <==> sid in e.active)
    && (sid in e.open <==> !c.closed)
    && c.callbacks == (if c.closed then 1 else 0)
    && (c.reader.InCallback? ==> c.closed)
    && (c.closed && c.reader.AwaitingRead? ==> c.cancelReader)
  }

  /** Every byte handed over is queued or was taken, in order. */
  ghost predicate Conserved(c: Conn) {
    c.read == TakenBytes(c.taken) + QueueBytes(c.queue)
  }

  ghost predicate SendsBelong(e: Engine, sid: Sid)
    requires sid in e.conns
  {
    var c := e.conns[sid];
    && (forall i :: 0 <= i < |c.starts| ==> c.starts[i] in e.sends && e.sends[c.starts[i]].sid == sid)
    && (forall i :: 0 <= i < |c.taken| ==> c.taken[i].send in e.sends && e.sends[c.taken[i].send].sid == sid)
  }

  /** A send holds exactly the chunks it took; one that is under way is among its connection's sends. */
  ghost predicate SendFits(e: Engine, k: SendId)
    requires k in e.sends
  {
    var s := e.sends[k];
    if s.sid in e.conns then
      && s.received == TakenBy(e.conns[s.sid].taken, k)
      && (!s.phase.Returned? ==> k in e.conns[s.sid].starts)
    else s.phase.Returned? && s.received == []
  }

  /** What the sends received, one after the other. */
  ghost function Received(sends: map<SendId, Send>, ks: seq<SendId>): seq<byte>
    requires forall i :: 0 <= i < |ks| ==> ks[i] in sends
  {
    if ks == [] then [] else Received(sends, ks[..|ks| - 1]) + sends[ks[|ks| - 1]].received
  }

  /** While no two sends overlapped, all but the last have returned and their receptions line up. */
  ghost predicate InTurn(e: Engine, sid: Sid)
    requires sid in e.conns && SendsBelong(e, sid)
  {
    var c := e.conns[sid];
    && (forall i, j :: 0 <= i < j < |c.starts| ==> c.starts[i] != c.starts[j])
    && (!c.overlapped ==> forall i :: 0 <= i < |c.starts| - 1 ==> e.sends[c.starts[i]].phase.Returned?)
    && (!c.overlapped ==> Received(e.sends, c.starts) == TakenBytes(c.taken))
  }

  ghost predicate Inv(e: Engine) {
    && e.open <= e.conns.Keys && e.active <= e.conns.Keys
    && (forall sid :: sid in e.conns ==> ClosesOnce(e, sid))
    && (forall sid :: sid in e.conns ==> Conserved(e.conns[sid]))
    && (forall sid :: sid in e.conns ==> SendsBelong(e, sid) && InTurn(e, sid))
    && (forall k :: k in e.sends ==> SendFits(e, k))
  }

  // ---- each atomic stretch keeps the invariant ----

  lemma {:induction false} QueueSnoc(q: seq<Item>, i: Item)
    ensures QueueBytes(q + [i]) == QueueBytes(q) + ItemBytes(i)
  {
    if q == [] {
      assert q + [i] == [i];
    } else {
      assert (q + [i])[1..] == q[1..] + [i];
      QueueSnoc(q[1..], i);
    }
  }

  lemma {:induction false} TakenSnoc(t: seq<Take>, x: Take, k: SendId)
    ensures TakenBytes(t + [x]) == TakenBytes(t) + x.bytes
    ensures TakenBy(t + [x], k) == TakenBy(t, k) + if x.send == k then x.bytes else []
  {
    assert (t + [x])[..|t|] == t;
  }

  lemma {:induction false} TakenByStranger(t: seq<Take>, k: SendId)
    requires forall i :: 0 <= i < |t| ==> t[i].send != k
    ensures TakenBy(t, k) == []
  {
    if t != [] {
      TakenByStranger(t[..|t| - 1], k);
    }
  }

  /** Receptions only depend on the sends they are about. */
  lemma {:induction false} ReceivedFrame(sends: map<SendId, Send>, sends': map<SendId, Send>, ks: seq<SendId>)
    requires forall i :: 0 <= i < |ks| ==>
               ks[i] in sends && ks[i] in sends' && sends[ks[i]].received == sends'[ks[i]].received
    ensures Received(sends, ks) == Received(sends', ks)
  {
    if ks != [] {
      ReceivedFrame(sends, sends', ks[..|ks| - 1]);
    }
  }

  lemma {:induction false} PutConserved(c: Conn, i: Item)
    requires Conserved(c)
    ensures Conserved(c.(queue := c.queue + [i], read := c.read + ItemBytes(i)))
  {
    hide QueueBytes, TakenBytes, ItemBytes;
    QueueSnoc(c.queue, i);
    assert TakenBytes(c.taken) + (QueueBytes(c.queue) + ItemBytes(i)) ==
             TakenBytes(c.taken) + QueueBytes(c.queue) + ItemBytes(i);
  }

  /** Changes that touch neither sends nor what they took. */
  lemma {:induction false} SameSends(e: Engine, e': Engine)
    requires Inv(e) && e'.sends == e.sends && e'.conns.Keys == e.conns.Keys
    requires forall sid :: sid in e.conns ==>
               e'.conns[sid].starts == e.conns[sid].starts && e'.conns[sid].taken == e.conns[sid].taken
               && e'.conns[sid].overlapped == e.conns[sid].overlapped
    ensures forall sid :: sid in e'.conns ==> SendsBelong(e', sid) && InTurn(e', sid)
    ensures forall k :: k in e'.sends ==> SendFits(e', k)
  {
    hide TakenBytes, TakenBy, Received, Conserved;
    forall sid | sid in e'.conns
      ensures SendsBelong(e', sid) && InTurn(e', sid)
    {
      assert SendsBelong(e, sid) && InTurn(e, sid);
    }
    forall k | k in e'.sends
      ensures SendFits(e', k)
    {
      assert SendFits(e, k);
    }
  }

  /** A change to one connection that leaves its sends and what they took alone. */
  lemma {:induction false} ConnKeeps(e: Engine, e': Engine, sid: Sid)
    requires Inv(e) && sid in e.conns && e'.conns.Keys == e.conns.Keys && e'.sends == e.sends
    requires forall s :: s in e.conns && s != sid ==> e'.conns[s] == e.conns[s]
    requires forall s :: s != sid ==> (s in e'.open <==> s in e.open) && (s in e'.active <==> s in e.active)
    requires var c, c' := e.conns[sid], e'.conns[sid];
             c'.starts == c.starts && c'.taken == c.taken && c'.overlapped == c.overlapped && Conserved(c')
    requires ClosesOnce(e', sid)
    ensures Inv(e')
  {
    hide Conserved, SendsBelong, InTurn, SendFits, ClosesOnce;
    SameSends(e, e');
    OthersCloseOnce(e, e', sid);
    OthersConserved(e, e', sid);
    assert forall s :: s in e'.open ==> s == sid || s in e.open;
    assert forall s :: s in e'.active ==> s == sid || s in e.active;
  }

  lemma {:induction false} OthersConserved(e: Engine, e': Engine, sid: Sid)
    requires forall s :: s in e.conns ==> Conserved(e.conns[s])
    requires e'.conns.Keys == e.conns.Keys && sid in e.conns && Conserved(e'.conns[sid])
    requires forall s :: s in e.conns && s != sid ==> e'.conns[s] == e.conns[s]
    ensures forall s :: s in e'.conns ==> Conserved(e'.conns[s])
  {
    hide Conserved;
    forall s | s in e'.conns
      ensures Conserved(e'.conns[s])
    {
      assert Conserved(e.conns[s]);
    }
  }

  lemma {:induction false} OthersCloseOnce(e: Engine, e': Engine, sid: Sid)
    requires forall s :: s in e.conns ==> ClosesOnce(e, s)
    requires e'.conns.Keys == e.conns.Keys && sid in e.conns && ClosesOnce(e', sid)
    requires forall s :: s in e.conns && s != sid ==> e'.conns[s] == e.conns[s]
    requires forall s :: s != sid ==> (s in e'.open <==> s in e.open) && (s in e'.active <==> s in e.active)
    ensures forall s :: s in e'.conns ==> ClosesOnce(e', s)
  {
    forall s | s in e'.conns
      ensures ClosesOnce(e', s)
    {
      assert ClosesOnce(e, s);
    }
  }

  lemma {:induction false} PutKeeps(e: Engine, sid: Sid, i: Item)
    requires Inv(e) && sid in e.conns
    ensures Inv(Put(e, sid, i))
  {
    PutConserved(e.conns[sid], i);
    assert ClosesOnce(e, sid);
    hide Conserved, SendsBelong, InTurn, SendFits, ItemBytes, Inv;
    ConnKeeps(e, Put(e, sid, i), sid);
  }

  lemma {:induction false} CloseKeeps(e: Engine, sid: Sid)
    requires Inv(e) && sid in e.conns
    ensures Inv(Close(e, sid, false))
  {
    assert ClosesOnce(e, sid) && Conserved(e.conns[sid]);
    hide Conserved, SendsBelong, InTurn, SendFits, Inv, ClosesOnce, Close;
    CloseClosesOnce(e, sid);
    CloseShape(e, sid, false);
    ConservedFields(e.conns[sid], Close(e, sid, false).conns[sid]);
    ConnKeeps(e, Close(e, sid, false), sid);
  }

  lemma {:induction false} CloseClosesOnce(e: Engine, sid: Sid)
    requires sid in e.conns && ClosesOnce(e, sid)
    ensures ClosesOnce(Close(e, sid, false), sid)
  {
  }

  /** Closing changes nothing of other connections, of the sends, or of what was read and taken. */
  lemma {:induction false} CloseShape(e: Engine, sid: Sid, byReader: bool)
    requires sid in e.conns
    ensures var e' := Close(e, sid, byReader);
            && e'.conns.Keys == e.conns.Keys && e'.sends == e.sends
            && (forall s :: s in e.conns && s != sid ==> e'.conns[s] == e.conns[s])
            && (forall s :: s != sid ==> (s in e'.open <==> s in e.open) && (s in e'.active <==> s in e.active))
            && (var c, c' := e.conns[sid], e'.conns[sid];
                c'.starts == c.starts && c'.taken == c.taken && c'.overlapped == c.overlapped
                && c'.read == c.read && c'.queue == c.queue)
  {
  }

  lemma {:induction false} ConservedFields(c: Conn, c': Conn)
    requires Conserved(c) && c'.read == c.read && c'.taken == c.taken && c'.queue == c.queue
    ensures Conserved(c')
  {
  }

  /** The reader that reached the end closes the connection itself and goes on to await the callback. */
  lemma {:induction false} ReaderCloseKeeps(e: Engine, sid: Sid)
    requires Inv(e) && sid in e.conns && e.conns[sid].reader.AwaitingRead? && !e.conns[sid].cancelReader
    ensures Inv(SetReader(Close(e, sid, true), sid, InCallback))
  {
    var e' := SetReader(Close(e, sid, true), sid, InCallback);
    assert ClosesOnce(e, sid) && Conserved(e.conns[sid]);
    hide Conserved, SendsBelong, InTurn, SendFits, Inv, ClosesOnce, Close;
    ReaderClosesOnce(e, sid);
    CloseShape(e, sid, true);
    ConservedFields(e.conns[sid], e'.conns[sid]);
    ConnKeeps(e, e', sid);
  }

  lemma {:induction false} ReaderClosesOnce(e: Engine, sid: Sid)
    requires sid in e.conns && ClosesOnce(e, sid) && e.conns[sid].reader.AwaitingRead? && !e.conns[sid].cancelReader
    ensures ClosesOnce(SetReader(Close(e, sid, true), sid, InCallback), sid)
  {
  }

  lemma {:induction false} ReaderStopKeeps(e: Engine, sid: Sid)
    requires Inv(e) && sid in e.conns
    ensures Inv(SetReader(e, sid, Stopped))
  {
    var e' := SetReader(e, sid, Stopped);
    assert ClosesOnce(e, sid) && Conserved(e.conns[sid]);
    ConservedFields(e.conns[sid], e'.conns[sid]);
    hide Conserved, SendsBelong, InTurn, SendFits, Inv;
    ConnKeeps(e, e', sid);
  }

  lemma {:induction false} OpenedFits(e: Engine, sid: Sid, udp: bool, queue: seq<Item>)
    requires Inv(e) && sid !in e.conns
    ensures var e' := OpenConn(e, sid, udp, queue);
            SendsBelong(e', sid) && InTurn(e', sid) && Conserved(e'.conns[sid]) && ClosesOnce(e', sid)
  {
    hide QueueBytes, SendFits;
    assert [] + QueueBytes(queue) == QueueBytes(queue);
  }

  lemma {:induction false} OpenElsewhere(e: Engine, sid: Sid, udp: bool, queue: seq<Item>, s: Sid)
    requires Inv(e) && sid !in e.conns && s in e.conns
    ensures var e' := OpenConn(e, sid, udp, queue);
            SendsBelong(e', s) && InTurn(e', s) && Conserved(e'.conns[s]) && ClosesOnce(e', s)
  {
    hide QueueBytes, TakenBytes, Received, SendFits;
    assert SendsBelong(e, s) && InTurn(e, s) && Conserved(e.conns[s]) && ClosesOnce(e, s);
  }

  lemma {:induction false} OpenKeeps(e: Engine, sid: Sid, udp: bool, queue: seq<Item>)
    requires Inv(e) && sid !in e.conns
    ensures Inv(OpenConn(e, sid, udp, queue))
  {
    var e' := OpenConn(e, sid, udp, queue);
    hide QueueBytes, Conserved, SendsBelong, InTurn, ClosesOnce;
    OpenedFits(e, sid, udp, queue);
    forall s | s in e.conns
      ensures SendsBelong(e', s) && InTurn(e', s) && Conserved(e'.conns[s]) && ClosesOnce(e', s)
    {
      OpenElsewhere(e, sid, udp, queue, s);
    }
    forall k | k in e'.sends
      ensures SendFits(e', k)
    {
      assert SendFits(e, k);
    }
  }

  lemma {:induction false} PhaseInTurn(e: Engine, k: SendId, p: SendPhase, sid: Sid)
    requires Inv(e) && k in e.sends && !e.sends[k].phase.Returned? && sid in e.conns
    ensures SendsBelong(SetPhase(e, k, p), sid) && InTurn(SetPhase(e, k, p), sid)
  {
    hide Conserved, TakenBytes, TakenBy, ClosesOnce, SendFits;
    assert SendsBelong(e, sid) && InTurn(e, sid);
    ReceivedFrame(e.sends, SetPhase(e, k, p).sends, e.conns[sid].starts);
    hide Received;
  }

  lemma {:induction false} PhaseFits(e: Engine, k: SendId, p: SendPhase, j: SendId)
    requires Inv(e) && k in e.sends && e.sends[k].sid in e.conns && !e.sends[k].phase.Returned? && j in e.sends
    ensures SendFits(SetPhase(e, k, p), j)
  {
    hide Conserved, TakenBytes, TakenBy, InTurn, SendsBelong, ClosesOnce;
    assert SendFits(e, j) && SendFits(e, k);
  }

  lemma {:induction false} PhaseKeeps(e: Engine, k: SendId, p: SendPhase)
    requires Inv(e) && k in e.sends && e.sends[k].sid in e.conns && !e.sends[k].phase.Returned?
    ensures Inv(SetPhase(e, k, p))
  {
    hide Conserved, InTurn, SendsBelong, SendFits;
    var e' := SetPhase(e, k, p);
    forall sid | sid in e'.conns
      ensures SendsBelong(e', sid) && InTurn(e', sid) && ClosesOnce(e', sid)
    {
      PhaseInTurn(e, k, p, sid);
      assert ClosesOnce(e, sid);
    }
    forall j | j in e'.sends
      ensures SendFits(e', j)
    {
      PhaseFits(e, k, p, j);
    }
  }

  lemma {:induction false} RefuseKeeps(e: Engine, k: SendId, sid: Sid)
    requires Inv(e) && k !in e.sends
    ensures Inv(Refuse(e, k, sid))
  {
    var e' := Refuse(e, k, sid);
    hide Conserved, TakenBytes;
    forall s | s in e'.conns
      ensures SendsBelong(e', s) && InTurn(e', s) && ClosesOnce(e', s)
    {
      assert SendsBelong(e, s) && InTurn(e, s) && ClosesOnce(e, s);
      ReceivedFrame(e.sends, e'.sends, e.conns[s].starts);
    }
    forall j | j in e'.sends
      ensures SendFits(e', j)
    {
      if j == k {
        if sid in e.conns {
          assert SendsBelong(e, sid);
          TakenByStranger(e.conns[sid].taken, k);
        }
      } else {
        assert SendFits(e, j);
      }
    }
  }

  // ---- starting a send, taking a chunk ----

  lemma {:induction false} AddElsewhere(e: Engine, k: SendId, sid: Sid, at: Sid)
    requires Inv(e) && k !in e.sends && sid in e.conns && at in e.conns && at != sid
    ensures SendsBelong(AddSend(e, k, sid), at) && InTurn(AddSend(e, k, sid), at)
  {
    hide Conserved, TakenBytes, TakenBy, ClosesOnce, SendFits;
    assert SendsBelong(e, at) && InTurn(e, at);
    ReceivedFrame(e.sends, AddSend(e, k, sid).sends, e.conns[at].starts);
    hide Received;
  }

  lemma {:induction false} AddInTurn(e: Engine, k: SendId, sid: Sid)
    requires k !in e.sends && sid in e.conns && SendsBelong(e, sid) && InTurn(e, sid)
    ensures SendsBelong(AddSend(e, k, sid), sid) && InTurn(AddSend(e, k, sid), sid)
  {
    hide TakenBytes;
    var e', starts := AddSend(e, k, sid), e.conns[sid].starts;
    ReceivedFrame(e.sends, e'.sends, starts);
    assert (starts + [k])[..|starts|] == starts;
    assert Received(e'.sends, starts + [k]) == Received(e.sends, starts) + [];
    hide Received;
  }

  lemma {:induction false} AddFits(e: Engine, k: SendId, sid: Sid, j: SendId)
    requires Inv(e) && k !in e.sends && sid in e.conns && (j == k || j in e.sends)
    ensures SendFits(AddSend(e, k, sid), j)
  {
    hide Conserved, TakenBytes, InTurn, ClosesOnce, TakenBy;
    var e' := AddSend(e, k, sid);
    if j == k {
      assert SendsBelong(e, sid);
      TakenByStranger(e.conns[sid].taken, k);
      assert e'.conns[sid].starts[|e.conns[sid].starts|] == k;
    } else {
      assert SendFits(e, j);
    }
  }

  lemma {:induction false} AddConns(e: Engine, k: SendId, sid: Sid)
    requires Inv(e) && k !in e.sends && sid in e.conns
    ensures var e' := AddSend(e, k, sid);
            forall at :: at in e'.conns ==> ClosesOnce(e', at) && Conserved(e'.conns[at])
  {
    hide InTurn, SendsBelong, SendFits;
    var e' := AddSend(e, k, sid);
    ConservedFields(e.conns[sid], e'.conns[sid]);
    hide Conserved;
    OthersConserved(e, e', sid);
    assert ClosesOnce(e, sid);
    OthersCloseOnce(e, e', sid);
  }

  lemma {:induction false} AddKeeps(e: Engine, k: SendId, sid: Sid)
    requires Inv(e) && k !in e.sends && sid in e.conns
    ensures Inv(AddSend(e, k, sid))
  {
    hide Conserved, InTurn, ClosesOnce, SendFits, SendsBelong;
    var e' := AddSend(e, k, sid);
    AddConns(e, k, sid);
    forall at | at in e'.conns
      ensures SendsBelong(e', at) && InTurn(e', at)
    {
      if at == sid {
        AddInTurn(e, k, sid);
      } else {
        AddElsewhere(e, k, sid, at);
      }
    }
    forall j | j in e'.sends
      ensures SendFits(e', j)
    {
      AddFits(e, k, sid, j);
    }
  }

  lemma {:induction false} TakeConserved(c: Conn, k: SendId)
    requires Conserved(c) && c.queue != []
    ensures Conserved(c.(queue := c.queue[1..], taken := c.taken + [Take(k, ItemBytes(c.queue[0]))]))
  {
    hide TakenBytes, TakenBy, ItemBytes, QueueBytes;
    var bytes := ItemBytes(c.queue[0]);
    TakenSnoc(c.taken, Take(k, bytes), k);
    QueueFirst(c.queue);
    assert TakenBytes(c.taken) + (bytes + QueueBytes(c.queue[1..])) ==
             (TakenBytes(c.taken) + bytes) + QueueBytes(c.queue[1..]);
  }

  lemma {:induction false} QueueFirst(q: seq<Item>)
    requires q != []
    ensures QueueBytes(q) == ItemBytes(q[0]) + QueueBytes(q[1..])
  {
  }

  lemma {:induction false} ReceivedLast(sends: map<SendId, Send>, ks: seq<SendId>, k: SendId, s': Send)
    requires forall i :: 0 <= i < |ks| ==> ks[i] in sends
    requires |ks| > 0 && ks[|ks| - 1] == k && forall i :: 0 <= i < |ks| - 1 ==> ks[i] != k
    ensures Received(sends[k := s'], ks) == Received(sends, ks[..|ks| - 1]) + s'.received
  {
    ReceivedFrame(sends, sends[k := s'], ks[..|ks| - 1]);
  }

  lemma {:induction false} TakeElsewhere(e: Engine, k: SendId, at: Sid)
    requires Inv(e) && Live(e, k, Receiving) && e.conns[e.sends[k].sid].queue != [] && at in e.conns
             && at != e.sends[k].sid
    ensures SendsBelong(TakeItem(e, k), at) && InTurn(TakeItem(e, k), at)
  {
    hide Conserved, TakenBytes, TakenBy, ClosesOnce, SendFits, ItemBytes;
    assert SendsBelong(e, at) && InTurn(e, at);
    ReceivedFrame(e.sends, TakeItem(e, k).sends, e.conns[at].starts);
    hide Received;
  }

  /** The only send still under way is the last one, so its chunk lands at the end. */
  lemma {:induction false} TakeReceived(e: Engine, k: SendId, bytes: seq<byte>)
    requires k in e.sends && e.sends[k].sid in e.conns && SendsBelong(e, e.sends[k].sid) && InTurn(e, e.sends[k].sid)
    requires var c := e.conns[e.sends[k].sid]; k in c.starts && !e.sends[k].phase.Returned? && !c.overlapped
    ensures var s := e.sends[k];
            var starts := e.conns[s.sid].starts;
            Received(e.sends[k := s.(received := s.received + bytes)], starts) == Received(e.sends, starts) + bytes
  {
    hide TakenBytes;
    var s := e.sends[k];
    var starts := e.conns[s.sid].starts;
    var i :| 0 <= i < |starts| && starts[i] == k;
    assert i == |starts| - 1;
    ReceivedLast(e.sends, starts, k, s.(received := s.received + bytes));
    var earlier := Received(e.sends, starts[..|starts| - 1]);
    assert Received(e.sends, starts) == earlier + s.received;
    assert earlier + (s.received + bytes) == (earlier + s.received) + bytes;
  }

  lemma {:induction false} TakeBelongs(e: Engine, k: SendId)
    requires Inv(e) && Live(e, k, Receiving) && e.conns[e.sends[k].sid].queue != []
    ensures SendsBelong(TakeItem(e, k), e.sends[k].sid)
  {
    hide Conserved, ClosesOnce, ItemBytes, SendFits, InTurn;
    assert SendsBelong(e, e.sends[k].sid);
  }

  lemma {:induction false} TakeInTurn(e: Engine, k: SendId)
    requires Inv(e) && Live(e, k, Receiving) && e.conns[e.sends[k].sid].queue != []
    ensures SendsBelong(TakeItem(e, k), e.sends[k].sid) && InTurn(TakeItem(e, k), e.sends[k].sid)
  {
    hide Conserved, TakenBy, ClosesOnce, ItemBytes, QueueBytes, Received, TakenBytes, SendsBelong;
    TakeBelongs(e, k);
    var sid := e.sends[k].sid;
    var c, bytes := e.conns[sid], ItemBytes(e.conns[sid].queue[0]);
    assert InTurn(e, sid) && SendFits(e, k);
    hide Inv;
    TakenSnoc(c.taken, Take(k, bytes), k);
    if !c.overlapped {
      TakeReceived(e, k, bytes);
    }
  }

  lemma {:induction false} TakeFits(e: Engine, k: SendId, j: SendId)
    requires Inv(e) && Live(e, k, Receiving) && e.conns[e.sends[k].sid].queue != [] && j in e.sends
    ensures SendFits(TakeItem(e, k), j)
  {
    hide Conserved, TakenBytes, ClosesOnce, ItemBytes, QueueBytes, InTurn, SendsBelong;
    assert SendFits(e, j);
    var c := e.conns[e.sends[k].sid];
    TakenSnoc(c.taken, Take(k, ItemBytes(c.queue[0])), j);
    assert TakenBy(c.taken, j) + [] == TakenBy(c.taken, j);
  }

  lemma {:induction false} TakeConns(e: Engine, k: SendId)
    requires Inv(e) && Live(e, k, Receiving) && e.conns[e.sends[k].sid].queue != []
    ensures var e' := TakeItem(e, k);
            forall at :: at in e'.conns ==> ClosesOnce(e', at) && Conserved(e'.conns[at])
  {
    hide InTurn, SendsBelong, SendFits, ItemBytes;
    var e', sid := TakeItem(e, k), e.sends[k].sid;
    TakeConserved(e.conns[sid], k);
    hide Conserved;
    OthersConserved(e, e', sid);
    assert ClosesOnce(e, sid);
    OthersCloseOnce(e, e', sid);
  }

  lemma {:induction false} TakeKeeps(e: Engine, k: SendId)
    requires Inv(e) && Live(e, k, Receiving) && e.conns[e.sends[k].sid].queue != []
    ensures Inv(TakeItem(e, k))
  {
    hide Conserved, InTurn, ClosesOnce, SendFits, SendsBelong;
    var e' := TakeItem(e, k);
    TakeConns(e, k);
    forall at | at in e'.conns
      ensures SendsBelong(e', at) && InTurn(e', at)
    {
      if at == e.sends[k].sid {
        TakeInTurn(e, k);
      } else {
        TakeElsewhere(e, k, at);
      }
    }
    forall j | j in e'.sends
      ensures SendFits(e', j)
    {
      TakeFits(e, k, j);
    }
  }

  lemma {:induction false} GiveUpKeeps(e: Engine, k: SendId)
    requires Inv(e) && k in e.sends && e.sends[k].sid in e.conns && !e.sends[k].phase.Returned?
    ensures Inv(GiveUp(e, k))
  {
    CloseKeeps(e, e.sends[k].sid);
    PhaseKeeps(Close(e, e.sends[k].sid, false), k, Calling);
  }

  lemma {:induction false} ReaderStepKeeps(e: Engine, sid: Sid, i: Item)
    requires Inv(e) && sid in e.conns && e.conns[sid].reader.AwaitingRead? && !e.conns[sid].cancelReader
    ensures Inv(SetReader(Close(Put(e, sid, i), sid, true), sid, InCallback))
  {
    PutKeeps(e, sid, i);
    hide Inv;
    ReaderCloseKeeps(Put(e, sid, i), sid);
  }

  /** Every step of every task keeps the invariant. */
  lemma {:induction false} StepKeepsInv(e: Engine, step: Step)
    requires Inv(e) && Enabled(e, step)
    ensures Inv(Next(e, step))
  {
    hide Inv, GiveUp, SetPhase, TakeItem, AddSend, Put, Close, OpenConn, Refuse, SetReader;
    match step {
      case Open(sid, udp, early) => OpenKeeps(e, sid, udp, EarlyItems(early));
      case Arrives(sid, bytes) => PutKeeps(e, sid, Chunk(bytes));
      case ReaderEof(sid) => ReaderStepKeeps(e, sid, Chunk([]));
      case ReaderFails(sid) => ReaderStepKeeps(e, sid, Failure);
      case DatagramFails(sid) => PutKeeps(e, sid, Failure);
      case ReaderStops(sid) => ReaderStopKeeps(e, sid);
      case SendStarts(k, sid, writes) => StartKeeps(e, k, sid, writes);
      case SendDrained(k, ok) =>
        if ok {
          PhaseKeeps(e, k, Receiving);
        } else {
          GiveUpKeeps(e, k);
        }
      case SendTakes(k) => TakeStepKeeps(e, k);
      case SendTimesOut(k) => PhaseKeeps(e, k, Returned);
      case SendReturns(k) => PhaseKeeps(e, k, Returned);
      case OperatorCloses(sid) =>
        if sid in e.open && sid in e.conns {
          CloseKeeps(e, sid);
        }
    }
  }

  lemma {:induction false} StartKeeps(e: Engine, k: SendId, sid: Sid, writes: bool)
    requires Inv(e) && k !in e.sends
    ensures Inv(Next(e, SendStarts(k, sid, writes)))
  {
    StartIs(e, k, sid, writes);
    hide *;
    if sid !in e.open || sid !in e.conns {
      RefuseKeeps(e, k, sid);
    } else {
      AddKeeps(e, k, sid);
      Added(e, k, sid);
      if !writes {
        GiveUpKeeps(AddSend(e, k, sid), k);
      }
    }
  }

  lemma {:induction false} StartIs(e: Engine, k: SendId, sid: Sid, writes: bool)
    requires k !in e.sends
    ensures Enabled(e, SendStarts(k, sid, writes))
    ensures sid !in e.open || sid !in e.conns ==> Next(e, SendStarts(k, sid, writes)) == Refuse(e, k, sid)
    ensures sid in e.open && sid in e.conns ==>
              var e' := AddSend(e, k, sid);
              && k in e'.sends && e'.sends[k].sid in e'.conns
              && Next(e, SendStarts(k, sid, writes)) == if writes then e' else GiveUp(e', k)
  {
    hide SomeUnreturned, GiveUp, Refuse;
  }

  lemma {:induction false} Added(e: Engine, k: SendId, sid: Sid)
    requires sid in e.conns
    ensures var e' := AddSend(e, k, sid);
            k in e'.sends && e'.sends[k].sid == sid && e'.sends[k].phase.Writing? && sid in e'.conns
  {
    hide SomeUnreturned;
  }

  lemma {:induction false} TakeStepKeeps(e: Engine, k: SendId)
    requires Inv(e) && Enabled(e, SendTakes(k))
    ensures Inv(Next(e, SendTakes(k)))
  {
    hide Inv;
    TakeKeeps(e, k);
    if ItemBytes(e.conns[e.sends[k].sid].queue[0]) == [] {
      GiveUpKeeps(TakeItem(e, k), k);
    }
  }

  // ---- whole runs ----

  const EMPTY := Engine({}, {}, map[], map[])

  ghost predicate Legal(e: Engine, steps: seq<Step>)
    decreases |steps|
  {
    steps != [] ==> Enabled(e, steps[0]) && Legal(Next(e, steps[0]), steps[1..])
  }

  function Run(e: Engine, steps: seq<Step>): Engine
    requires Legal(e, steps)
    decreases |steps|
  {
    if steps == [] then e else Run(Next(e, steps[0]), steps[1..])
  }

  lemma {:induction false} RunKeepsInv(e: Engine, steps: seq<Step>)
    requires Inv(e) && Legal(e, steps)
    ensures Inv(Run(e, steps))
    decreases |steps|
  {
    hide Inv, Next;
    if steps != [] {
      StepKeepsInv(e, steps[0]);
      RunKeepsInv(Next(e, steps[0]), steps[1..]);
    }
  }

  /**
   Whatever the race of reader, sends and operator: a connection is in the table exactly while its
   session is ACTIVE, and its close callback has been started once if it was closed and not otherwise.
   */
  lemma {:induction false} ClosedExactlyOnce(steps: seq<Step>, sid: Sid)
    requires Legal(EMPTY, steps) && sid in Run(EMPTY, steps).conns
    ensures var e := Run(EMPTY, steps);
            && (sid in e.open <==> sid in e.active)
            && e.conns[sid].callbacks == (if sid in e.active then 0 else 1)
  {
    hide Next, Conserved, InTurn, SendsBelong, SendFits;
    RunKeepsInv(EMPTY, steps);
    assert ClosesOnce(Run(EMPTY, steps), sid);
  }

  /** Bytes handed over by the connection are, in order, those the sends took and then those still queued. */
  lemma {:induction false} NothingLost(steps: seq<Step>, sid: Sid)
    requires Legal(EMPTY, steps) && sid in Run(EMPTY, steps).conns
    ensures var e := Run(EMPTY, steps);
            var c := e.conns[sid];
            && c.read == TakenBytes(c.taken) + QueueBytes(c.queue)
            && (forall k :: k in e.sends && e.sends[k].sid == sid ==> e.sends[k].received == TakenBy(c.taken, k))
  {
    hide Next, InTurn, SendsBelong, ClosesOnce;
    RunKeepsInv(EMPTY, steps);
    var e := Run(EMPTY, steps);
    hide Run, TakenBytes, QueueBytes, TakenBy;
    assert Conserved(e.conns[sid]);
    forall k | k in e.sends && e.sends[k].sid == sid
      ensures e.sends[k].received == TakenBy(e.conns[sid].taken, k)
    {
      assert SendFits(e, k);
    }
  }

  /**
   When sends follow one another, their receptions joined, then the queue, are everything read: a timeout
   loses nothing.
   */
  lemma {:induction false} SuccessiveSendsAddUp(steps: seq<Step>, sid: Sid)
    requires Legal(EMPTY, steps) && sid in Run(EMPTY, steps).conns && !Run(EMPTY, steps).conns[sid].overlapped
    ensures var e := Run(EMPTY, steps);
            var c := e.conns[sid];
            && (forall i :: 0 <= i < |c.starts| ==> c.starts[i] in e.sends)
            && c.read == Received(e.sends, c.starts) + QueueBytes(c.queue)
  {
    hide Next, ClosesOnce, SendFits;
    RunKeepsInv(EMPTY, steps);
    var e := Run(EMPTY, steps);
    hide Run, TakenBytes, QueueBytes, Received;
    assert Conserved(e.conns[sid]) && SendsBelong(e, sid) && InTurn(e, sid);
  }

  ghost predicate IsTail<T>(x: seq<T>, y: seq<T>) {
    |x| <= |y| && x == y[|y| - |x|..]
  }

  /** Errors a datagram transport may still report; a reader task reports none. */
  ghost predicate LateErrors(late: seq<Item>, datagrams: bool) {
    (late != [] ==> datagrams) && forall i :: 0 <= i < |late| ==> late[i] == Failure
  }

  /** A closed connection: `read` is all it handed over, and what is queued is a tail of `q`. */
  ghost predicate Shut(e: Engine, sid: Sid, datagrams: bool, read: seq<byte>, q: seq<Item>) {
    && sid in e.conns && sid !in e.open
    && e.conns[sid].reader.NoReader? == datagrams
    && e.conns[sid].read == read
    && IsTail(e.conns[sid].queue, q)
  }

  lemma {:induction false} TakeStaysShut(e: Engine, k: SendId, sid: Sid, datagrams: bool, read: seq<byte>, q: seq<Item>)
    requires Enabled(e, SendTakes(k)) && Shut(e, sid, datagrams, read, q)
    ensures Shut(TakeItem(e, k), sid, datagrams, read, q)
  {
    hide ItemBytes;
  }

  lemma {:induction false} TailSnoc<T>(x: seq<T>, y: seq<T>, z: T)
    requires IsTail(x, y)
    ensures IsTail(x + [z], y + [z])
  {
  }

  /** Nothing that can happen next adds to a closed connection's queue, but for errors of a datagram transport. */
  lemma {:induction false} StaysShut(e: Engine, step: Step, sid: Sid, datagrams: bool, read: seq<byte>, q: seq<Item>)
    returns (late: seq<Item>)
    requires Inv(e) && Enabled(e, step) && Shut(e, sid, datagrams, read, q)
    ensures LateErrors(late, datagrams) && Shut(Next(e, step), sid, datagrams, read, q + late)
  {
    hide Conserved, InTurn, SendsBelong, SendFits, ItemBytes, QueueBytes, EarlyItems, SomeUnreturned, IsTail;
    assert ClosesOnce(e, sid);
    late := [];
    assert q + late == q;
    if step.SendTakes? {
      TakeStaysShut(e, step.k, sid, datagrams, read, q);
      hide TakeItem;
    } else if step == DatagramFails(sid) {
      late := [Failure];
      LateFailure(e, sid, read, q);
    }
  }

  lemma {:induction false} LateFailure(e: Engine, sid: Sid, read: seq<byte>, q: seq<Item>)
    requires Enabled(e, DatagramFails(sid)) && Shut(e, sid, true, read, q)
    ensures Shut(Next(e, DatagramFails(sid)), sid, true, read, q + [Failure])
  {
    TailSnoc(e.conns[sid].queue, q, Failure);
    hide IsTail;
    assert read + [] == read;
  }

  lemma {:induction false} StaysShutFor(e: Engine, more: seq<Step>, sid: Sid, datagrams: bool, read: seq<byte>,
                                        q: seq<Item>)
    returns (late: seq<Item>)
    requires Inv(e) && Legal(e, more) && Shut(e, sid, datagrams, read, q)
    ensures LateErrors(late, datagrams) && Shut(Run(e, more), sid, datagrams, read, q + late)
    decreases |more|
  {
    hide Inv, Next, Shut, LateErrors;
    if more == [] {
      late := [];
      NoneLate(q, datagrams);
    } else {
      StepKeepsInv(e, more[0]);
      var first := StaysShut(e, more[0], sid, datagrams, read, q);
      var rest := StaysShutFor(Next(e, more[0]), more[1..], sid, datagrams, read, q + first);
      late := first + rest;
      LateJoined(q, first, rest, datagrams);
    }
  }

  lemma {:induction false} NoneLate(q: seq<Item>, datagrams: bool)
    ensures LateErrors([], datagrams) && q + [] == q
  {
  }

  lemma {:induction false} LateJoined(q: seq<Item>, first: seq<Item>, rest: seq<Item>, datagrams: bool)
    requires LateErrors(first, datagrams) && LateErrors(rest, datagrams)
    ensures LateErrors(first + rest, datagrams)
    ensures (q + first) + rest == q + (first + rest)
  {
    Regroup(q, first, rest);
  }

  lemma {:induction false} Regroup<T>(x: seq<T>, y: seq<T>, z: seq<T>)
    ensures (x + y) + z == x + (y + z)
  {
  }

  /**
   However a run goes on after a connection left the table, it hands over no byte more, and its queue only
   gets shorter from the front; except that a datagram connection, which has no reader task to cancel, may
   still have errors put behind it.
   */
  lemma {:induction false} ReaderSilentAfterClose(steps: seq<Step>, more: seq<Step>, sid: Sid)
    requires Legal(EMPTY, steps) && sid in Run(EMPTY, steps).conns && sid !in Run(EMPTY, steps).open
    requires Legal(Run(EMPTY, steps), more)
    ensures var e := Run(EMPTY, steps);
            var e' := Run(e, more);
            && sid in e'.conns && sid !in e'.open
            && e'.conns[sid].read == e.conns[sid].read
            && (!e.conns[sid].reader.NoReader? ==> IsTail(e'.conns[sid].queue, e.conns[sid].queue))
            && exists late :: LateErrors(late, e.conns[sid].reader.NoReader?)
                              && IsTail(e'.conns[sid].queue, e.conns[sid].queue + late)
  {
    hide Next, Conserved, InTurn, SendsBelong, SendFits, ClosesOnce;
    RunKeepsInv(EMPTY, steps);
    var e := Run(EMPTY, steps);
    hide Inv;
    var c := e.conns[sid];
    assert IsTail(c.queue, c.queue);
    var late := StaysShutFor(e, more, sid, c.reader.NoReader?, c.read, c.queue);
    assert late == [] ==> c.queue + late == c.queue;
  }

  /** A datagram connection is opened and closed, and its transport reports an error after that. */
  lemma {:induction false} LateErrorArrives(sid: Sid)
    ensures var steps := [Open(sid, true, []), OperatorCloses(sid), DatagramFails(sid)];
            && Legal(EMPTY, steps)
            && var e := Run(EMPTY, steps); sid in e.conns && sid !in e.open && e.conns[sid].queue == [Failure]
  {
    var steps := [Open(sid, true, []), OperatorCloses(sid), DatagramFails(sid)];
    assert steps[1..] == [OperatorCloses(sid), DatagramFails(sid)] && steps[1..][1..] == [DatagramFails(sid)];
    var live := Next(EMPTY, Open(sid, true, []));
    var shut := Next(live, OperatorCloses(sid));
    assert EarlyItems([]) == [] && live.conns[sid].queue == [] && shut.conns[sid].reader.NoReader?;
    var last := [DatagramFails(sid)];
    assert last[1..] == [];
    assert Legal(shut, last) && Legal(live, steps[1..]);
    assert Run(shut, last) == Next(shut, DatagramFails(sid));
    assert Run(live, steps[1..]) == Run(shut, last);
  }
}

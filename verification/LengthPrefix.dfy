/** The length-prefix framer: buffering, cutting, and when the way TCP splits a stream is invisible. */
module LengthPrefix {
  import opened Bytes
  import opened Framing

  datatype Config = Config(prefixLength: nat, order: ByteOrder, prefixOffset: nat, lengthAdd: int, maxFrameSize: nat)
  {
    /** The widths the constructor accepts. */
    predicate Supported() {
      prefixLength == 1 || prefixLength == 2 || prefixLength == 4 || prefixLength == 8
    }

    function Header(): nat {
      prefixOffset + prefixLength
    }

    function PayloadLength(buffer: seq<byte>): int
      requires |buffer| >= Header()
    {
      FromBytes(buffer[prefixOffset..Header()], order) + lengthAdd
    }

    function Total(buffer: seq<byte>): int
      requires |buffer| >= Header()
    {
      Header() + PayloadLength(buffer)
    }

    predicate Corrupt(buffer: seq<byte>)
      requires |buffer| >= Header()
    {
      PayloadLength(buffer) < 0 || Total(buffer) > maxFrameSize
    }
  }

  type Format = c: Config | c.Supported() witness Config(4, Big, 0, 0, 16777216)

  /** Frames `feed` cuts from a buffer: whole messages, or everything once a header is corrupt. */
  function Cut(c: Format, buffer: seq<byte>): Cutting
    decreases |buffer|
  {
    if |buffer| < c.Header() then Cutting([], buffer)
    else if c.Corrupt(buffer) then Cutting([buffer], [])
    else if |buffer| < c.Total(buffer) then Cutting([], buffer)
    else
      var others := Cut(c, buffer[c.Total(buffer)..]);
      Cutting([buffer[..c.Total(buffer)]] + others.frames, others.rest)
  }

  function Cutter(c: Format): seq<byte> -> Cutting {
    x => Cut(c, x)
  }

  /** A header found corrupt leaves no more than itself in the stream. */
  predicate CorruptionOnlyAtEnd(c: Format, stream: seq<byte>)
    decreases |stream|
  {
    |stream| >= c.Header() ==>
      if c.Corrupt(stream) then |stream| == c.Header()
      else |stream| >= c.Total(stream) ==> CorruptionOnlyAtEnd(c, stream[c.Total(stream)..])
  }

  // ---- conservation and the buffer bound ----

  lemma {:induction false} CutConserves(c: Format, buffer: seq<byte>)
    ensures Concat(Cut(c, buffer).frames) + Cut(c, buffer).rest == buffer
    decreases |buffer|
  {
    hide FromBytes;
    if |buffer| >= c.Header() && !c.Corrupt(buffer) && |buffer| >= c.Total(buffer) {
      var t := c.Total(buffer);
      CutConserves(c, buffer[t..]);
      PrependFrame(buffer[..t], Cut(c, buffer[t..]));
      assert buffer == buffer[..t] + buffer[t..];
    } else {
      assert Concat([buffer]) == buffer;
    }
  }

  lemma {:induction false} CutterConserves(c: Format)
    ensures Conserves(Cutter(c))
  {
    forall x
      ensures Concat(Cutter(c)(x).frames) + Cutter(c)(x).rest == x
    {
      CutConserves(c, x);
    }
  }

  /** However the stream is read, corrupt and oversize headers included, no byte is lost or invented. */
  lemma {:induction false} FramesConserveStream(c: Format, chunks: seq<seq<byte>>)
    ensures var all := FeedAll(Cutter(c), [], chunks);
            Concat(all.frames) + all.rest == Concat(chunks)
  {
    CutterConserves(c);
    StreamConserved(Cutter(c), [], chunks);
    assert [] + Concat(chunks) == Concat(chunks);
  }

  /** What may stay buffered: less than a header, or an incomplete message that fits the limit. */
  predicate Incomplete(c: Format, buffer: seq<byte>) {
    |buffer| < c.Header() || (!c.Corrupt(buffer) && |buffer| < c.Total(buffer) <= c.maxFrameSize)
  }

  lemma {:induction false} RestIsIncomplete(c: Format, buffer: seq<byte>)
    ensures Incomplete(c, Cut(c, buffer).rest)
    decreases |buffer|
  {
    if |buffer| >= c.Header() && !c.Corrupt(buffer) && |buffer| >= c.Total(buffer) {
      RestIsIncomplete(c, buffer[c.Total(buffer)..]);
    }
  }

  lemma {:induction false} IncompleteIsSettled(c: Format, buffer: seq<byte>)
    ensures Incomplete(c, buffer) <==> Cut(c, buffer) == Cutting([], buffer)
  {
  }

  /** One turn of the cutting loop. */
  lemma {:induction false} CutStep(c: Format, x: seq<byte>)
    ensures |x| < c.Header() ==> Cut(c, x) == Cutting([], x)
    ensures |x| >= c.Header() && c.Corrupt(x) ==> Cut(c, x) == Cutting([x] + Cut(c, []).frames, Cut(c, []).rest)
    ensures |x| >= c.Header() && c.Corrupt(x) ==> Cut(c, []) == Cutting([], [])
    ensures |x| >= c.Header() && !c.Corrupt(x) && |x| < c.Total(x) ==> Cut(c, x) == Cutting([], x)
    ensures |x| >= c.Header() && !c.Corrupt(x) && |x| >= c.Total(x) ==>
              var others := Cut(c, x[c.Total(x)..]);
              Cut(c, x) == Cutting([x[..c.Total(x)]] + others.frames, others.rest)
  {
  }

  /**
   What a header decides, in numbers: a negative or oversize length makes everything buffered one frame, a
   length not yet reached waits, and otherwise that many bytes are a frame and the rest is cut the same way.
   */
  lemma {:induction false} HeaderDecides(c: Config, buffer: seq<byte>)
    requires c.prefixLength in {1, 2, 4, 8}
    ensures |buffer| < c.prefixOffset + c.prefixLength ==> Cut(c, buffer) == Cutting([], buffer)
    ensures |buffer| >= c.prefixOffset + c.prefixLength ==>
              var start := c.prefixOffset + c.prefixLength;
              var length := FromBytes(buffer[c.prefixOffset..start], c.order) + c.lengthAdd;
              if length < 0 || start + length > c.maxFrameSize then Cut(c, buffer) == Cutting([buffer], [])
              else if |buffer| < start + length then Cut(c, buffer) == Cutting([], buffer)
              else
                var others := Cut(c, buffer[start + length..]);
                Cut(c, buffer) == Cutting([buffer[..start + length]] + others.frames, others.rest)
  {
    hide FromBytes;
  }

  // ---- independence of chunking ----

  lemma {:induction false} SameHeader(c: Format, x: seq<byte>, y: seq<byte>)
    requires |x| >= c.Header()
    ensures c.PayloadLength(x + y) == c.PayloadLength(x)
  {
    assert (x + y)[c.prefixOffset..c.Header()] == x[c.prefixOffset..c.Header()];
  }

  lemma {:induction false} CutMessage(c: Format, m: seq<byte>, y: seq<byte>)
    requires WellFormed(c, m)
    ensures Cut(c, m + y) == Cutting([m] + Cut(c, y).frames, Cut(c, y).rest)
    ensures CorruptionOnlyAtEnd(c, m + y) <==> CorruptionOnlyAtEnd(c, y)
  {
    SameHeader(c, m, y);
    assert (m + y)[|m|..] == y && (m + y)[..|m|] == m;
  }

  /** A buffer that holds a whole, acceptable message and nothing else. */
  predicate WellFormed(c: Format, m: seq<byte>) {
    |m| >= c.Header() && !c.Corrupt(m) && c.Total(m) == |m|
  }

  /** The first message of a buffer from which one can be cut. */
  lemma {:induction false} FirstMessage(c: Format, x: seq<byte>)
    requires |x| >= c.Header() && !c.Corrupt(x) && |x| >= c.Total(x)
    ensures WellFormed(c, x[..c.Total(x)])
    ensures x == x[..c.Total(x)] + x[c.Total(x)..]
  {
    SameHeader(c, x[..c.Total(x)], x[c.Total(x)..]);
    assert x == x[..c.Total(x)] + x[c.Total(x)..];
  }

  lemma {:induction false} CutSplitsStep(c: Format, m: seq<byte>, x: seq<byte>, y: seq<byte>)
    requires WellFormed(c, m)
    requires Splits(Cutter(c), x, y)
    ensures Splits(Cutter(c), m + x, y)
    ensures Cut(c, m + x).rest == Cut(c, x).rest
  {
    hide Cut;
    assert (m + x) + y == m + (x + y);
    CutMessage(c, m, x + y);
    CutMessage(c, m, x);
    assert [m] + (Cut(c, x).frames + Cut(c, Cut(c, x).rest + y).frames)
        == ([m] + Cut(c, x).frames) + Cut(c, Cut(c, x).rest + y).frames;
  }

  lemma {:induction false} CutSplits(c: Format, x: seq<byte>, y: seq<byte>)
    requires CorruptionOnlyAtEnd(c, x + y)
    ensures Splits(Cutter(c), x, y)
    ensures CorruptionOnlyAtEnd(c, Cut(c, x).rest + y)
    decreases |x|
  {
    hide Cut;
    CutStep(c, x);
    if |x| < c.Header() {
      NothingCutSplits(c, x, y);
    } else {
      SameHeader(c, x, y);
      if c.Corrupt(x) {
        assert y == [] && x + y == x;
        CorruptSplits(c, x);
      } else if |x| < c.Total(x) {
        NothingCutSplits(c, x, y);
      } else {
        FirstMessage(c, x);
        hide *;
        var m, x' := x[..c.Total(x)], x[c.Total(x)..];
        assert x + y == m + (x' + y);
        CutMessage(c, m, x' + y);
        CutSplits(c, x', y);
        CutSplitsStep(c, m, x', y);
      }
    }
  }

  lemma {:induction false} NothingCutSplits(c: Format, x: seq<byte>, y: seq<byte>)
    requires Cut(c, x) == Cutting([], x)
    ensures Splits(Cutter(c), x, y)
  {
    hide Cut;
    assert [] + Cut(c, x + y).frames == Cut(c, x + y).frames;
  }

  lemma {:induction false} CorruptSplits(c: Format, x: seq<byte>)
    requires |x| >= c.Header() && c.Corrupt(x)
    ensures Splits(Cutter(c), x, []) && Cut(c, x).rest == [] && CorruptionOnlyAtEnd(c, [])
  {
    CutStep(c, x);
    hide Cut;
    var none: seq<byte> := [];
    assert x + none == x && none + none == none;
    assert Cut(c, x).frames + [] == Cut(c, x).frames;
  }

  lemma {:induction false} ChunksAgree(c: Format, buffer: seq<byte>, chunks: seq<seq<byte>>)
    requires Incomplete(c, buffer) && CorruptionOnlyAtEnd(c, buffer + Concat(chunks))
    ensures FeedAll(Cutter(c), buffer, chunks) == Cut(c, buffer + Concat(chunks))
    decreases |chunks|
  {
    if chunks == [] {
      IncompleteIsSettled(c, buffer);
      assert buffer + Concat(chunks) == buffer;
    } else {
      var x, y := buffer + chunks[0], Concat(chunks[1..]);
      assert buffer + Concat(chunks) == x + y;
      CutSplits(c, x, y);
      RestIsIncomplete(c, x);
      ChunksAgree(c, Cut(c, x).rest, chunks[1..]);
    }
  }

  /** Reading `x` in two pieces, cut at `k`, gives other frames than reading it at once. */
  ghost predicate SplitShows(c: Format, x: seq<byte>, k: nat)
    requires k <= |x|
  {
    var first := Cut(c, x[..k]);
    first.frames + Cut(c, first.rest + x[k..]).frames != Cut(c, x).frames
  }

  lemma {:induction false} PrefixedSplit(m: seq<byte>, x: seq<byte>, k: nat)
    requires k <= |x|
    ensures (m + x)[..|m| + k] == m + x[..k] && (m + x)[|m| + k..] == x[k..]
  {
  }

  lemma {:induction false} SplitStillShows(c: Format, m: seq<byte>, x: seq<byte>, k: nat)
    requires WellFormed(c, m) && k <= |x| && SplitShows(c, x, k)
    ensures SplitShows(c, m + x, |m| + k)
  {
    hide Cut;
    var k' := |m| + k;
    PrefixedSplit(m, x, k);
    CutMessage(c, m, x);
    CutMessage(c, m, x[..k]);
    var first := Cut(c, x[..k]);
    SameTail(m, first.frames, Cut(c, first.rest + x[k..]).frames, Cut(c, x).frames);
  }

  lemma {:induction false} CorruptHeaderSplits(c: Format, x: seq<byte>)
    requires c.Header() < |x| && c.Corrupt(x)
    ensures SplitShows(c, x, c.Header())
  {
    hide Cut, FromBytes;
    var k := c.Header();
    assert x == x[..k] + x[k..];
    SameHeader(c, x[..k], x[k..]);
    CutStep(c, x);
    CutStep(c, x[..k]);
    hide *;
    FirstDiffers(Cut(c, x[..k]).frames, Cut(c, Cut(c, x[..k]).rest + x[k..]).frames, Cut(c, x).frames, x[..k], x);
  }

  lemma {:induction false} FirstDiffers(f: seq<seq<byte>>, g: seq<seq<byte>>, h: seq<seq<byte>>, m: seq<byte>,
                                        x: seq<byte>)
    requires f != [] && f[0] == m && h != [] && h[0] == x && |m| < |x|
    ensures f + g != h
  {
    assert (f + g)[0] == m;
  }

  /** Two reads that cut the stream differently from one, when a corrupt header is followed by anything. */
  lemma {:induction false} EarlyCorruptionShows(c: Format, x: seq<byte>) returns (k: nat)
    requires !CorruptionOnlyAtEnd(c, x)
    ensures k <= |x| && SplitShows(c, x, k)
    decreases |x|
  {
    hide Cut, SplitShows, FromBytes, WellFormed;
    if c.Corrupt(x) {
      k := c.Header();
      CorruptHeaderSplits(c, x);
    } else {
      FirstMessage(c, x);
      var t := c.Total(x);
      var k' := EarlyCorruptionShows(c, x[t..]);
      k := t + k';
      SplitStillShows(c, x[..t], x[t..], k');
    }
  }

  lemma {:induction false} SameTail(m: seq<byte>, f: seq<seq<byte>>, g: seq<seq<byte>>, h: seq<seq<byte>>)
    requires f + g != h
    ensures ([m] + f) + g != [m] + h
  {
    assert (([m] + f) + g)[1..] == f + g;
    assert ([m] + h)[1..] == h;
  }

  /**
   The way a stream is split into reads is invisible exactly when no corrupt or oversize header is
   followed by further bytes.
   */
  lemma {:induction false} ChunkingInvisibleIff(c: Format, stream: seq<byte>)
    ensures ChunkingInvisible(Cutter(c), stream) <==> CorruptionOnlyAtEnd(c, stream)
  {
    if CorruptionOnlyAtEnd(c, stream) {
      forall chunks | Concat(chunks) == stream
        ensures FeedAll(Cutter(c), [], chunks) == Cut(c, stream)
      {
        assert [] + stream == stream;
        ChunksAgree(c, [], chunks);
      }
    } else {
      var k := EarlyCorruptionShows(c, stream);
      TwoReads(c, stream, k);
    }
  }

  /**
   An oversize header read together with its payload takes the payload into its frame; read alone it is a
   frame, and each byte of the payload is read as a header of its own.
   */
  lemma CorruptHeaderShows()
    ensures FeedAll(Cutter(SHORT), [], [[9, 0, 0]]) == Cutting([[9, 0, 0]], [])
    ensures FeedAll(Cutter(SHORT), [], [[9], [0, 0]]) == Cutting([[9], [0], [0]], [])
  {
    OversizeCuts([9]);
    OversizeCuts([9, 0, 0]);
    EmptyMessages();
    hide Cut;
    var whole: seq<seq<byte>> := [[9, 0, 0]];
    var parts: seq<seq<byte>> := [[9], [0, 0]];
    var last: seq<seq<byte>> := [[0, 0]];
    assert whole[1..] == [] && parts[1..] == last && last[1..] == [];
    assert [] + whole[0] == whole[0] && [] + parts[0] == parts[0] && [] + last[0] == last[0];
    assert FeedAll(Cutter(SHORT), [], last) == Cut(SHORT, [0, 0]);
  }

  /** One-byte lengths and messages of at most four bytes. */
  const SHORT: Format := Config(1, Big, 0, 0, 4)

  lemma {:induction false} OneByteHeader(x: seq<byte>)
    requires x != []
    ensures SHORT.PayloadLength(x) == x[0] as int
  {
    assert x[0..1] == [x[0]] && [x[0]][..0] == [];
    assert FromBig([]) == 0 && FromBig([x[0]]) == x[0] as int;
  }

  lemma {:induction false} OversizeCuts(x: seq<byte>)
    requires x != [] && x[0] == 9
    ensures Cut(SHORT, x) == Cutting([x], [])
  {
    hide FromBytes;
    OneByteHeader(x);
  }

  lemma {:induction false} EmptyMessage(m: seq<byte>)
    requires |m| == 1 && m[0] == 0
    ensures WellFormed(SHORT, m)
  {
    hide FromBytes;
    OneByteHeader(m);
  }

  lemma EmptyMessages()
    ensures Cut(SHORT, [0, 0]) == Cutting([[0], [0]], [])
  {
    hide *;
    var rest: seq<byte> := [];
    EmptyMessage([0]);
    EmptyRest();
    CutMessage(SHORT, [0], rest);
    CutMessage(SHORT, [0], [0]);
    assert [0] + rest == [0] && [0] + [0] == [0, 0];
  }

  lemma EmptyRest()
    ensures Cut(SHORT, []) == Cutting([], [])
  {
  }

  lemma {:induction false} TwoReads(c: Format, x: seq<byte>, k: nat)
    requires k <= |x|
    ensures var chunks := [x[..k], x[k..]];
            Concat(chunks) == x
            && FeedAll(Cutter(c), [], chunks).frames ==
              Cut(c, x[..k]).frames + Cut(c, Cut(c, x[..k]).rest + x[k..]).frames
  {
    hide Cut;
    var chunks: seq<seq<byte>> := [x[..k], x[k..]];
    var last: seq<seq<byte>> := [x[k..]];
    assert chunks[1..] == last && |last[1..]| == 0;
    assert Concat(last) == x[k..];
    assert Concat(chunks) == x[..k] + x[k..] == x;
    assert [] + x[..k] == x[..k];
    var first := Cut(c, x[..k]);
    assert FeedAll(Cutter(c), first.rest, last) == Cut(c, first.rest + x[k..]);
  }

  // ---- messages come back ----

  /** A message with the given leading bytes and payload. */
  function Encode(c: Format, head: seq<byte>, payload: seq<byte>): seq<byte>
    requires |payload| - c.lengthAdd >= 0
  {
    head + ToBytes(|payload| - c.lengthAdd, c.prefixLength, c.order) + payload
  }

  lemma {:induction false} EncodedIsWellFormed(c: Format, head: seq<byte>, payload: seq<byte>)
    requires |head| == c.prefixOffset
    requires 0 <= |payload| - c.lengthAdd < Limit(c.prefixLength)
    requires c.Header() + |payload| <= c.maxFrameSize
    ensures WellFormed(c, Encode(c, head, payload))
  {
    var m := Encode(c, head, payload);
    assert m[c.prefixOffset..c.Header()] == ToBytes(|payload| - c.lengthAdd, c.prefixLength, c.order);
    RoundTrip(|payload| - c.lengthAdd, c.prefixLength, c.order);
  }

  lemma {:induction false} CutMessages(c: Format, messages: seq<seq<byte>>)
    requires forall m :: m in messages ==> WellFormed(c, m)
    ensures Cut(c, Concat(messages)) == Cutting(messages, [])
    ensures CorruptionOnlyAtEnd(c, Concat(messages))
  {
    if messages != [] {
      CutMessages(c, messages[1..]);
      CutMessage(c, messages[0], Concat(messages[1..]));
      assert messages == [messages[0]] + messages[1..];
    }
  }

  /** Well-formed messages sent back to back come out as exactly themselves, whatever the reads. */
  lemma {:induction false} MessagesRoundTrip(c: Format, messages: seq<seq<byte>>, chunks: seq<seq<byte>>)
    requires forall m :: m in messages ==> WellFormed(c, m)
    requires Concat(chunks) == Concat(messages)
    ensures FeedAll(Cutter(c), [], chunks) == Cutting(messages, [])
  {
    CutMessages(c, messages);
    ChunkingInvisibleIff(c, Concat(messages));
  }

  // ---- the framer object ----

  function Name(): string {
    "length_prefix"
  }

  /** Mid-loop: cutting `start` yields the frames emitted so far, then what cutting `buffer` yields. */
  ghost predicate CutSoFar(c: Format, start: seq<byte>, d: Direction, first: nat, frames: seq<Frame>,
                           buffer: seq<byte>) {
    && Progress(Cutter(c), start, Payloads(frames), buffer)
    && Numbered(frames, d, Name(), first)
  }

  lemma {:induction false} CutStarts(c: Format, start: seq<byte>, d: Direction, first: nat)
    ensures CutSoFar(c, start, d, first, [], start)
  {
    assert Payloads([]) == [];
  }

  /** How much one turn of the loop takes off the buffer: a message, or everything behind a corrupt header. */
  predicate Takes(c: Format, x: seq<byte>, n: nat) {
    |x| >= c.Header() && if c.Corrupt(x) then n == |x| else |x| >= c.Total(x) == n
  }

  lemma {:induction false} CutsFrame(c: Format, start: seq<byte>, d: Direction, first: nat, frames: seq<Frame>,
                                     x: seq<byte>, n: nat)
    requires CutSoFar(c, start, d, first, frames, x) && Takes(c, x, n)
    ensures 0 < n <= |x|
    ensures CutSoFar(c, start, d, first, frames + [Frame(d, x[..n], first + |frames|, Name())], x[n..])
  {
    CutStep(c, x);
    if c.Corrupt(x) {
      assert x[..n] == x && x[n..] == [];
    }
    PayloadsSnoc(frames, Frame(d, x[..n], first + |frames|, Name()));
    ProgressStep(Cutter(c), start, Payloads(frames), x, x[..n], x[n..]);
  }

  lemma {:induction false} CutEnds(c: Format, start: seq<byte>, d: Direction, first: nat, frames: seq<Frame>,
                                   x: seq<byte>)
    requires CutSoFar(c, start, d, first, frames, x)
    requires |x| < c.Header() || Incomplete(c, x)
    ensures Incomplete(c, x)
    ensures Emits(frames, Cut(c, start).frames, d, Name(), first) && x == Cut(c, start).rest
  {
    CutStep(c, x);
  }

  /** Decodes the header and so tells what a turn of the loop may take: everything, one message, or nothing yet. */
  method DecodeHeader(c: Format, buffer: seq<byte>) returns (payloadLength: int, totalLength: int)
    requires |buffer| >= c.Header()
    ensures payloadLength < 0 || totalLength > c.maxFrameSize ==> Takes(c, buffer, |buffer|)
    ensures 0 <= payloadLength && totalLength <= c.maxFrameSize && totalLength <= |buffer| ==>
              0 < totalLength && Takes(c, buffer, totalLength)
    ensures 0 <= payloadLength && totalLength <= c.maxFrameSize && |buffer| < totalLength ==> Incomplete(c, buffer)
  {
    var lengthValue := FromBytes(buffer[c.prefixOffset..c.Header()], c.order);
    payloadLength := lengthValue + c.lengthAdd;
    totalLength := c.Header() + payloadLength;
  }

  class LengthPrefixFramer {
    const config: Format
    const direction: Direction
    var sequence: nat
    var buffer: seq<byte>

    constructor (config: Format, direction: Direction)
      ensures this.config == config && this.direction == direction
      ensures buffer == [] && sequence == 0
    {
      this.config := config;
      this.direction := direction;
      sequence, buffer := 0, [];
    }

    method NextSequence() returns (n: nat)
      modifies this`sequence
      ensures n == old(sequence) && sequence == n + 1
    {
      n := sequence;
      sequence := sequence + 1;
    }

    method MakeFrame(raw: seq<byte>) returns (f: Frame)
      modifies this`sequence
      ensures f == Frame(direction, raw, old(sequence), Name()) && sequence == old(sequence) + 1
      ensures f.framerName == "length_prefix"
    {
      var n := NextSequence();
      f := Frame(direction, raw, n, Name());
    }

    /** Makes a frame of the buffer's first `n` bytes and deletes them: one turn of the cutting loop. */
    method TakeFrame(n: nat, ghost start: seq<byte>, ghost first: nat, ghost frames: seq<Frame>) returns (f: Frame)
      requires CutSoFar(config, start, direction, first, frames, buffer) && sequence == first + |frames|
      requires Takes(config, buffer, n)
      modifies this
      ensures CutSoFar(config, start, direction, first, frames + [f], buffer) && sequence == old(sequence) + 1
      ensures |buffer| == |old(buffer)| - n < |old(buffer)|
    {
      hide *;
      CutsFrame(config, start, direction, first, frames, buffer, n);
      f := MakeFrame(buffer[..n]);
      buffer := buffer[n..];
    }

    method Feed(data: seq<byte>) returns (frames: seq<Frame>)
      modifies this
      ensures Emits(frames, Cut(config, old(buffer) + data).frames, direction, Name(), old(sequence))
      ensures buffer == Cut(config, old(buffer) + data).rest
      ensures sequence == old(sequence) + |frames|
      ensures Incomplete(config, buffer)
    {
      buffer := buffer + data;
      ghost var start, first := buffer, sequence;
      frames := [];
      hide *;
      CutStarts(config, start, direction, first);
      while |buffer| >= config.Header()
        invariant CutSoFar(config, start, direction, first, frames, buffer)
        invariant sequence == first + |frames|
        decreases |buffer|
      {
        var payloadLength, totalLength := DecodeHeader(config, buffer);
        if payloadLength < 0 || totalLength > config.maxFrameSize {
          var f := TakeFrame(|buffer|, start, first, frames);
          frames := frames + [f];
          break;
        }
        if |buffer| < totalLength {
          break;
        }
        var f := TakeFrame(totalLength, start, first, frames);
        frames := frames + [f];
      }
      CutEnds(config, start, direction, first, frames, buffer);
    }

    method Flush() returns (frames: seq<Frame>)
      modifies this
      ensures Emits(frames, if old(buffer) == [] then [] else [old(buffer)], direction, Name(), old(sequence))
      ensures buffer == [] && sequence == old(sequence) + |frames|
    {
      if buffer != [] {
        var f := MakeFrame(buffer);
        buffer := [];
        return [f];
      }
      return [];
    }

    method Reset()
      modifies this
      ensures buffer == [] && sequence == 0
    {
      buffer, sequence := [], 0;
    }
  }
}

/** Frames, their numbering, and what every framer's stream of frames is made of. */
module Framing {
  import opened Bytes

  datatype Direction = ClientToServer | ServerToClient

  datatype Frame = Frame(direction: Direction, rawBytes: seq<byte>, sequenceNumber: nat, framerName: string)

  /** Frames cut from a buffer, and what stays buffered. */
  datatype Cutting = Cutting(frames: seq<seq<byte>>, rest: seq<byte>)

  function Payloads(frames: seq<Frame>): (r: seq<seq<byte>>)
    ensures |r| == |frames|
  {
    seq(|frames|, k requires 0 <= k < |frames| => frames[k].rawBytes)
  }

  /** `frames` were made one after the other by one framer whose counter stood at `first`. */
  ghost predicate Numbered(frames: seq<Frame>, direction: Direction, name: string, first: nat) {
    forall k :: 0 <= k < |frames| ==>
      frames[k].sequenceNumber == first + k && frames[k].direction == direction && frames[k].framerName == name
  }

  /** `frames` are the cut frames, attributed and numbered from `first`. */
  ghost predicate Emits(frames: seq<Frame>, cut: seq<seq<byte>>, direction: Direction, name: string, first: nat) {
    Payloads(frames) == cut && Numbered(frames, direction, name, first)
  }

  /** Cutting `start` yields the frames emitted so far, then whatever cutting `buffer` yields. */
  ghost predicate Progress(cut: seq<byte> -> Cutting, start: seq<byte>, emitted: seq<seq<byte>>, buffer: seq<byte>) {
    && cut(start).frames == emitted + cut(buffer).frames
    && cut(start).rest == cut(buffer).rest
  }

  lemma {:induction false} ProgressStep(cut: seq<byte> -> Cutting, start: seq<byte>, emitted: seq<seq<byte>>,
                                        buffer: seq<byte>, m: seq<byte>, buffer': seq<byte>)
    requires Progress(cut, start, emitted, buffer)
    requires cut(buffer) == Cutting([m] + cut(buffer').frames, cut(buffer').rest)
    ensures Progress(cut, start, emitted + [m], buffer')
  {
    assert emitted + ([m] + cut(buffer').frames) == (emitted + [m]) + cut(buffer').frames;
  }

  lemma {:induction false} PayloadsSnoc(frames: seq<Frame>, f: Frame)
    ensures Payloads(frames + [f]) == Payloads(frames) + [f.rawBytes]
  {
  }

  lemma {:induction false} EmitsOneMore(frames: seq<Frame>, cut: seq<seq<byte>>, direction: Direction, name: string,
                                        first: nat, raw: seq<byte>)
    requires Emits(frames, cut, direction, name, first)
    ensures Emits(frames + [Frame(direction, raw, first + |frames|, name)], cut + [raw], direction, name, first)
  {
    PayloadsSnoc(frames, Frame(direction, raw, first + |frames|, name));
  }

  /** What a framer does with a list of reads, given what it does with one buffer. */
  function FeedAll(cut: seq<byte> -> Cutting, buffer: seq<byte>, chunks: seq<seq<byte>>): Cutting
    decreases |chunks|
  {
    if chunks == [] then Cutting([], buffer)
    else
      var first := cut(buffer + chunks[0]);
      var others := FeedAll(cut, first.rest, chunks[1..]);
      Cutting(first.frames + others.frames, others.rest)
  }

  lemma {:induction false} PrependFrame(m: seq<byte>, others: Cutting)
    ensures Concat([m] + others.frames) + others.rest == m + (Concat(others.frames) + others.rest)
  {
    assert ([m] + others.frames)[1..] == others.frames;
  }

  ghost predicate Conserves(cut: seq<byte> -> Cutting) {
    forall x :: Concat(cut(x).frames) + cut(x).rest == x
  }

  /** What a flush emits: the rest as one frame, unless there is none. */
  function Flushed(rest: seq<byte>): seq<seq<byte>> {
    if rest == [] then [] else [rest]
  }

  lemma {:induction false} FlushedConserves(frames: seq<seq<byte>>, rest: seq<byte>)
    ensures Concat(frames + Flushed(rest)) == Concat(frames) + rest
  {
    ConcatAppend(frames, Flushed(rest));
    if rest != [] {
      assert Concat([rest]) == rest;
    }
  }

  /** A framer that loses nothing in one buffer loses nothing over any list of reads, nor with a flush after them. */
  lemma {:induction false} StreamConserved(cut: seq<byte> -> Cutting, buffer: seq<byte>, chunks: seq<seq<byte>>)
    requires Conserves(cut)
    ensures var all := FeedAll(cut, buffer, chunks);
            && Concat(all.frames) + all.rest == buffer + Concat(chunks)
            && Concat(all.frames + Flushed(all.rest)) == buffer + Concat(chunks)
    decreases |chunks|
  {
    hide Conserves, Flushed, Concat;
    FlushedConserves(FeedAll(cut, buffer, chunks).frames, FeedAll(cut, buffer, chunks).rest);
    if chunks == [] {
      NoChunks(buffer);
    } else {
      var first := cut(buffer + chunks[0]);
      var others := FeedAll(cut, first.rest, chunks[1..]);
      StreamConserved(cut, first.rest, chunks[1..]);
      ConcatAppend(first.frames, others.frames);
      OneConserved(cut, buffer + chunks[0]);
      Regroup(Concat(first.frames), first.rest, Concat(others.frames), others.rest, Concat(chunks[1..]));
      FirstChunk(buffer, chunks);
    }
  }

  lemma {:induction false} NoChunks(buffer: seq<byte>)
    ensures Concat<byte>([]) == [] && [] + buffer == buffer + []
  {
  }

  lemma {:induction false} OneConserved(cut: seq<byte> -> Cutting, x: seq<byte>)
    requires Conserves(cut)
    ensures Concat(cut(x).frames) + cut(x).rest == x
  {
    hide Concat;
  }

  lemma {:induction false} FirstChunk(buffer: seq<byte>, chunks: seq<seq<byte>>)
    requires chunks != []
    ensures (buffer + chunks[0]) + Concat(chunks[1..]) == buffer + Concat(chunks)
  {
  }

  lemma {:induction false} Regroup(a: seq<byte>, b: seq<byte>, c: seq<byte>, d: seq<byte>, r: seq<byte>)
    requires c + d == b + r
    ensures (a + c) + d == (a + b) + r
  {
    assert (a + c) + d == a + (c + d);
  }

  /** Cutting `x + y` at once is cutting `x` first and `y` after what `x` left. */
  ghost predicate Splits(cut: seq<byte> -> Cutting, x: seq<byte>, y: seq<byte>) {
    var first := cut(x);
    var second := cut(first.rest + y);
    cut(x + y) == Cutting(first.frames + second.frames, second.rest)
  }

  /** The way `stream` is split into reads makes no difference. */
  ghost predicate ChunkingInvisible(cut: seq<byte> -> Cutting, stream: seq<byte>) {
    forall chunks :: Concat(chunks) == stream ==> FeedAll(cut, [], chunks) == cut(stream)
  }
}

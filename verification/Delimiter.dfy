/** The delimiter framer, including chunk boundaries inside a (possibly self-overlapping) delimiter. */
module Delimiter {
  import opened Bytes
  import opened Framing

  datatype Config = Config(delimiter: seq<byte>, includeDelimiter: bool, maxFrameSize: nat)

  /** The constructor refuses an empty delimiter. */
  type Format = c: Config | c.delimiter != [] witness Config([10], true, 1048576)

  /** The frames ended by a delimiter, and the bytes after the last one. */
  function Split(c: Format, x: seq<byte>): Cutting
    decreases |x|
  {
    var idx := Find(x, c.delimiter);
    if idx == -1 then Cutting([], x)
    else
      var end := idx + |c.delimiter|;
      var others := Split(c, x[end..]);
      Cutting([x[..if c.includeDelimiter then end else idx]] + others.frames, others.rest)
  }

  /** What one `feed` does: split, then emit the rest as it is when it is too long. */
  function Cut(c: Format, x: seq<byte>): Cutting {
    var s := Split(c, x);
    if |s.rest| > c.maxFrameSize then Cutting(s.frames + [s.rest], []) else s
  }

  function Cutter(c: Format): seq<byte> -> Cutting {
    x => Cut(c, x)
  }

  // ---- finding ----

  /** Bytes that follow do not change where the first delimiter is. */
  lemma {:induction false} FindInPrefix(x: seq<byte>, y: seq<byte>, d: seq<byte>)
    requires Find(x, d) >= 0
    ensures Find(x + y, d) == Find(x, d)
  {
    hide Find;
    FoundIsOccurrence(x, d);
    SameOccurrence(x, y, d, Find(x, d));
    FoundIsLeftmost(x + y, d, Find(x, d));
    FoundIsOccurrence(x + y, d);
    SameOccurrence(x, y, d, Find(x + y, d));
    FoundIsLeftmost(x, d, Find(x + y, d));
  }

  lemma {:induction false} SameOccurrence(x: seq<byte>, y: seq<byte>, d: seq<byte>, i: nat)
    requires i + |d| <= |x|
    ensures At(x, d, i) <==> At(x + y, d, i)
  {
    assert (x + y)[i..i + |d|] == x[i..i + |d|];
  }

  /** `f` is ended by its only delimiter: no occurrence starts before the last possible place. */
  predicate EndsAtFirstDelimiter(f: seq<byte>, d: seq<byte>) {
    |f| >= |d| && Find(f, d) == |f| - |d|
  }

  lemma {:induction false} PrefixEndsAtFirst(x: seq<byte>, d: seq<byte>)
    requires Find(x, d) >= 0
    ensures EndsAtFirstDelimiter(x[..Find(x, d) + |d|], d)
  {
    hide Find;
    var i := Find(x, d);
    var f, y := x[..i + |d|], x[i + |d|..];
    assert x == f + y;
    FoundIsOccurrence(x, d);
    SameOccurrence(f, y, d, i);
    FoundIsLeftmost(f, d, i);
    FindInPrefix(f, y, d);
  }

  // ---- the split is the only decomposition into delimited frames ----

  ghost predicate IsSplit(d: seq<byte>, x: seq<byte>, s: Cutting) {
    && Concat(s.frames) + s.rest == x
    && (forall f :: f in s.frames ==> EndsAtFirstDelimiter(f, d))
    && Find(s.rest, d) == -1
  }

  lemma {:induction false} SplitGrows(d: seq<byte>, f: seq<byte>, y: seq<byte>, others: Cutting)
    requires EndsAtFirstDelimiter(f, d) && IsSplit(d, y, others)
    ensures IsSplit(d, f + y, Cutting([f] + others.frames, others.rest))
  {
    hide Find, EndsAtFirstDelimiter, Concat;
    PrependFrame(f, others);
  }

  lemma {:induction false} NotSplit(d: seq<byte>, x: seq<byte>)
    requires Find(x, d) == -1
    ensures IsSplit(d, x, Cutting([], x))
  {
    hide Find;
  }

  lemma {:induction false} SplitIsSplit(c: Format, x: seq<byte>)
    requires c.includeDelimiter
    ensures IsSplit(c.delimiter, x, Split(c, x))
    decreases |x|
  {
    hide Find, IsSplit, EndsAtFirstDelimiter;
    var idx := Find(x, c.delimiter);
    if idx == -1 {
      NotSplit(c.delimiter, x);
    } else {
      var end := idx + |c.delimiter|;
      SplitIsSplit(c, x[end..]);
      PrefixEndsAtFirst(x, c.delimiter);
      SplitGrows(c.delimiter, x[..end], x[end..], Split(c, x[end..]));
      assert x == x[..end] + x[end..];
    }
  }

  lemma {:induction false} SplitFrame(c: Format, f: seq<byte>, y: seq<byte>)
    requires EndsAtFirstDelimiter(f, c.delimiter)
    ensures var shown := if c.includeDelimiter then f else f[..|f| - |c.delimiter|];
            Split(c, f + y) == Cutting([shown] + Split(c, y).frames, Split(c, y).rest)
  {
    hide Find;
    FindInPrefix(f, y, c.delimiter);
    assert (f + y)[|f|..] == y;
    assert (f + y)[..|f|] == f && (f + y)[..|f| - |c.delimiter|] == f[..|f| - |c.delimiter|];
  }

  /** Any list of delimiter-ended frames and a delimiter-free rest that spell `x` is what the framer cuts. */
  lemma {:induction false} SplitIsUnique(c: Format, x: seq<byte>, s: Cutting)
    requires c.includeDelimiter && IsSplit(c.delimiter, x, s)
    ensures Split(c, x) == s
    decreases |s.frames|
  {
    if s.frames == [] {
      assert x == s.rest;
    } else {
      var f, others := s.frames[0], Cutting(s.frames[1..], s.rest);
      assert s.frames == [f] + others.frames;
      PrependFrame(f, others);
      SplitIsUnique(c, Concat(others.frames) + others.rest, others);
      SplitFrame(c, f, Concat(others.frames) + others.rest);
    }
  }

  /** Leaving delimiters out of frames only strips the delimiter at each frame's end. */
  function Stripped(d: seq<byte>, frames: seq<seq<byte>>): (r: seq<seq<byte>>)
    ensures |r| == |frames|
  {
    if frames == [] then []
    else
      [if EndsAtFirstDelimiter(frames[0], d) then frames[0][..|frames[0]| - |d|] else frames[0]]
      + Stripped(d, frames[1..])
  }

  lemma {:induction false} StrippedAppend(d: seq<byte>, xs: seq<seq<byte>>, ys: seq<seq<byte>>)
    ensures Stripped(d, xs + ys) == Stripped(d, xs) + Stripped(d, ys)
  {
    if xs == [] {
      assert xs + ys == ys;
    } else {
      assert (xs + ys)[1..] == xs[1..] + ys;
      StrippedAppend(d, xs[1..], ys);
    }
  }

  lemma {:induction false} ExcludingStripsSplit(c: Format, x: seq<byte>)
    requires !c.includeDelimiter
    ensures var full := Split(c.(includeDelimiter := true), x);
            Split(c, x) == Cutting(Stripped(c.delimiter, full.frames), full.rest)
    decreases |x|
  {
    hide Find;
    var idx := Find(x, c.delimiter);
    if idx >= 0 {
      var end := idx + |c.delimiter|;
      ExcludingStripsSplit(c, x[end..]);
      PrefixEndsAtFirst(x, c.delimiter);
      assert x[..end][..idx] == x[..idx];
      var others := Split(c.(includeDelimiter := true), x[end..]);
      StrippedAppend(c.delimiter, [x[..end]], others.frames);
    }
  }

  /** The oversize frame carries no delimiter, so only delimited frames lose anything. */
  lemma {:induction false} ExcludingStrips(c: Format, x: seq<byte>)
    requires !c.includeDelimiter
    ensures var full := Cut(c.(includeDelimiter := true), x);
            Cut(c, x) == Cutting(Stripped(c.delimiter, full.frames), full.rest)
  {
    hide Find;
    ExcludingStripsSplit(c, x);
    var full := Split(c.(includeDelimiter := true), x);
    SplitIsSplit(c.(includeDelimiter := true), x);
    StrippedAppend(c.delimiter, full.frames, [full.rest]);
  }

  // ---- conservation and the buffer bound ----

  lemma {:induction false} CutConserves(c: Format, x: seq<byte>)
    requires c.includeDelimiter
    ensures Concat(Cut(c, x).frames) + Cut(c, x).rest == x
  {
    hide Split;
    SplitIsSplit(c, x);
    var s := Split(c, x);
    ConcatAppend(s.frames, [s.rest]);
    assert Concat([s.rest]) == s.rest;
  }

  lemma {:induction false} CutterConserves(c: Format)
    requires c.includeDelimiter
    ensures Conserves(Cutter(c))
  {
    forall x
      ensures Concat(Cutter(c)(x).frames) + Cutter(c)(x).rest == x
    {
      CutConserves(c, x);
    }
  }

  /** With delimiters included no byte is lost or invented, however the stream is read. */
  lemma {:induction false} FramesConserveStream(c: Format, chunks: seq<seq<byte>>)
    requires c.includeDelimiter
    ensures var all := FeedAll(Cutter(c), [], chunks);
            Concat(all.frames) + all.rest == Concat(chunks)
  {
    CutterConserves(c);
    StreamConserved(Cutter(c), [], chunks);
    assert [] + Concat(chunks) == Concat(chunks);
  }

  /** What may stay buffered between reads. */
  predicate Residual(c: Format, x: seq<byte>) {
    Find(x, c.delimiter) == -1 && |x| <= c.maxFrameSize
  }

  /** Undelimited bytes stay buffered up to the limit, and become a frame as soon as there is one more. */
  lemma {:induction false} LimitIsExact(c: Format, x: seq<byte>)
    requires forall i: nat :: !At(x, c.delimiter, i)
    ensures Cut(c, x) == if |x| <= c.maxFrameSize then Cutting([], x) else Cutting([x], [])
  {
    if Find(x, c.delimiter) >= 0 {
      FoundIsOccurrence(x, c.delimiter);
    }
  }

  lemma {:induction false} SplitRest(c: Format, x: seq<byte>)
    ensures Find(Split(c, x).rest, c.delimiter) == -1
    decreases |x|
  {
    hide Find;
    var idx := Find(x, c.delimiter);
    if idx >= 0 {
      SplitRest(c, x[idx + |c.delimiter|..]);
    }
  }

  lemma {:induction false} RestIsResidual(c: Format, x: seq<byte>)
    ensures Residual(c, Cut(c, x).rest)
  {
    SplitRest(c, x);
  }

  lemma {:induction false} ResidualIsSettled(c: Format, x: seq<byte>)
    ensures Residual(c, x) ==> Cut(c, x) == Cutting([], x)
  {
  }

  // ---- a whole stream with its delimiters left out ----

  lemma {:induction false} FeedAllStrips(c: Format, buffer: seq<byte>, chunks: seq<seq<byte>>)
    requires !c.includeDelimiter
    ensures var full := FeedAll(Cutter(c.(includeDelimiter := true)), buffer, chunks);
            FeedAll(Cutter(c), buffer, chunks) == Cutting(Stripped(c.delimiter, full.frames), full.rest)
    decreases |chunks|
  {
    hide Cut, EndsAtFirstDelimiter;
    if chunks != [] {
      var keep := c.(includeDelimiter := true);
      ExcludingStrips(c, buffer + chunks[0]);
      var first := Cut(keep, buffer + chunks[0]);
      FeedAllStrips(c, first.rest, chunks[1..]);
      StrippedAppend(c.delimiter, first.frames, FeedAll(Cutter(keep), first.rest, chunks[1..]).frames);
    }
  }

  lemma {:induction false} BufferedIsResidual(c: Format, buffer: seq<byte>, chunks: seq<seq<byte>>)
    requires Residual(c, buffer)
    ensures Residual(c, FeedAll(Cutter(c), buffer, chunks).rest)
    decreases |chunks|
  {
    hide Cut, Residual;
    if chunks != [] {
      RestIsResidual(c, buffer + chunks[0]);
      BufferedIsResidual(c, Cut(c, buffer + chunks[0]).rest, chunks[1..]);
    }
  }

  /**
   However a stream is read, leaving its delimiters out loses exactly the delimiters that end a frame:
   neither a frame emitted for its length nor the flushed rest loses anything.
   */
  lemma {:induction false} StreamStripped(c: Format, chunks: seq<seq<byte>>)
    requires !c.includeDelimiter
    ensures var full := FeedAll(Cutter(c.(includeDelimiter := true)), [], chunks);
            var all := FeedAll(Cutter(c), [], chunks);
            && all.frames + Flushed(all.rest) == Stripped(c.delimiter, full.frames + Flushed(full.rest))
            && Concat(full.frames + Flushed(full.rest)) == Concat(chunks)
  {
    hide Cut, Find, FeedAll;
    var keep := c.(includeDelimiter := true);
    var full := FeedAll(Cutter(keep), [], chunks);
    FeedAllStrips(c, [], chunks);
    EmptyIsResidual(keep);
    BufferedIsResidual(keep, [], chunks);
    StrippedAppend(c.delimiter, full.frames, Flushed(full.rest));
    RestKept(keep, full.rest);
    CutterConserves(keep);
    StreamConserved(Cutter(keep), [], chunks);
    assert [] + Concat(chunks) == Concat(chunks);
  }

  lemma {:induction false} RestKept(c: Format, rest: seq<byte>)
    requires Residual(c, rest)
    ensures Stripped(c.delimiter, Flushed(rest)) == Flushed(rest)
  {
    hide Find;
  }

  // ---- independence of chunking ----

  lemma {:induction false} SplitAppendStep(c: Format, f: seq<byte>, x: seq<byte>, y: seq<byte>)
    requires EndsAtFirstDelimiter(f, c.delimiter)
    requires Split(c, x + y) ==
               Cutting(Split(c, x).frames + Split(c, Split(c, x).rest + y).frames, Split(c, Split(c, x).rest + y).rest)
    ensures var s := Split(c, f + x);
            var t := Split(c, s.rest + y);
            Split(c, (f + x) + y) == Cutting(s.frames + t.frames, t.rest)
  {
    hide Split, Find;
    assert (f + x) + y == f + (x + y);
    SplitFrame(c, f, x + y);
    SplitFrame(c, f, x);
    var shown := if c.includeDelimiter then f else f[..|f| - |c.delimiter|];
    var s := Split(c, x);
    assert [shown] + (s.frames + Split(c, s.rest + y).frames) == ([shown] + s.frames) + Split(c, s.rest + y).frames;
  }

  lemma {:induction false} SplitAppend(c: Format, x: seq<byte>, y: seq<byte>)
    ensures var s := Split(c, x);
            var t := Split(c, s.rest + y);
            Split(c, x + y) == Cutting(s.frames + t.frames, t.rest)
    decreases |x|
  {
    hide Find, Split;
    var d, idx := c.delimiter, Find(x, c.delimiter);
    if idx == -1 {
      NoDelimiter(c, x);
      assert [] + Split(c, x + y).frames == Split(c, x + y).frames;
    } else {
      var end := idx + |d|;
      PrefixEndsAtFirst(x, d);
      assert x == x[..end] + x[end..];
      SplitAppend(c, x[end..], y);
      SplitAppendStep(c, x[..end], x[end..], y);
    }
  }

  /** Reading `stream` after `buffer` never leaves too long a rest before its last byte. */
  ghost predicate FitsBeforeEnd(c: Format, buffer: seq<byte>, stream: seq<byte>) {
    forall k :: 0 <= k < |stream| ==> |Split(c, buffer + stream[..k]).rest| <= c.maxFrameSize
  }

  lemma {:induction false} FitsAfterRead(c: Format, buffer: seq<byte>, x: seq<byte>, y: seq<byte>)
    requires FitsBeforeEnd(c, buffer, x + y)
    ensures FitsBeforeEnd(c, Split(c, buffer + x).rest, y)
    ensures y != [] ==> |Split(c, buffer + x).rest| <= c.maxFrameSize
  {
    hide Split;
    forall k | 0 <= k < |y|
      ensures |Split(c, Split(c, buffer + x).rest + y[..k]).rest| <= c.maxFrameSize
    {
      SplitAppend(c, buffer + x, y[..k]);
      assert (x + y)[..|x| + k] == x + y[..k];
      assert buffer + (x + y[..k]) == (buffer + x) + y[..k];
    }
    if y != [] {
      assert (x + y)[..|x|] == x;
    }
  }

  lemma {:induction false} CutSplits(c: Format, x: seq<byte>, y: seq<byte>)
    requires |Split(c, x).rest| <= c.maxFrameSize
    ensures Splits(Cutter(c), x, y)
  {
    hide Split;
    SplitAppend(c, x, y);
    var s := Split(c, x);
    var t := Split(c, s.rest + y);
    assert s.frames + (t.frames + [t.rest]) == (s.frames + t.frames) + [t.rest];
  }

  lemma {:induction false} ChunksAgree(c: Format, buffer: seq<byte>, chunks: seq<seq<byte>>)
    requires Residual(c, buffer) && FitsBeforeEnd(c, buffer, Concat(chunks))
    ensures FeedAll(Cutter(c), buffer, chunks) == Cut(c, buffer + Concat(chunks))
    decreases |chunks|
  {
    hide Cut;
    if chunks == [] {
      ResidualIsSettled(c, buffer);
      assert buffer + Concat(chunks) == buffer;
    } else {
      var x, y := buffer + chunks[0], Concat(chunks[1..]);
      assert Concat(chunks) == chunks[0] + y;
      assert buffer + Concat(chunks) == x + y;
      RestIsResidual(c, x);
      if y == [] {
        ChunksAgree(c, Cut(c, x).rest, chunks[1..]);
        ResidualIsSettled(c, Cut(c, x).rest);
        assert Cut(c, x).rest + y == Cut(c, x).rest && x + y == x;
      } else {
        FitsAfterRead(c, buffer, chunks[0], y);
        CutSplits(c, x, y);
        CutWithoutOverflow(c, x);
        ChunksAgree(c, Cut(c, x).rest, chunks[1..]);
      }
    }
  }

  lemma {:induction false} CutWithoutOverflow(c: Format, x: seq<byte>)
    ensures |Split(c, x).rest| <= c.maxFrameSize ==> Cut(c, x) == Split(c, x)
  {
  }

  lemma {:induction false} OverflowBeforeDelimiter(c: Format, r: seq<byte>, y: seq<byte>)
    requires Find(r, c.delimiter) == -1 && Find(r + y, c.delimiter) >= 0
    ensures [r] + Cut(c, y).frames != Cut(c, r + y).frames
  {
    hide Find, Split, Cut;
    var d, idx := c.delimiter, Find(r + y, c.delimiter);
    var end := idx + |d|;
    EndsBeyond(r, y, d);
    PrefixEndsAtFirst(r + y, d);
    FoundIsOccurrence(r + y, d);
    var f, y' := (r + y)[..end], (r + y)[end..];
    assert r + y == f + y';
    CutFrame(c, f, y');
    var shown := if c.includeDelimiter then f else f[..idx];
    if shown == r {
      assert y[..|d|] == (r + y)[idx..end] == d;
      assert y == d + y';
      DelimiterAlone(d);
      CutFrame(c, d, y');
      assert |Cut(c, y).frames| == 1 + |Cut(c, y').frames|;
    } else {
      assert ([r] + Cut(c, y).frames)[0] == r;
    }
  }

  lemma {:induction false} CutFrame(c: Format, f: seq<byte>, y: seq<byte>)
    requires EndsAtFirstDelimiter(f, c.delimiter)
    ensures var shown := if c.includeDelimiter then f else f[..|f| - |c.delimiter|];
            Cut(c, f + y) == Cutting([shown] + Cut(c, y).frames, Cut(c, y).rest)
  {
    hide Find, Split;
    SplitFrame(c, f, y);
    var shown := if c.includeDelimiter then f else f[..|f| - |c.delimiter|];
    assert ([shown] + Split(c, y).frames) + [Split(c, y).rest] == [shown] + (Split(c, y).frames + [Split(c, y).rest]);
  }

  /** A too long rest emitted early shows in the frames, whatever follows. */
  lemma {:induction false} OverflowShows(c: Format, r: seq<byte>, y: seq<byte>)
    requires Find(r, c.delimiter) == -1 && |r| > c.maxFrameSize && y != []
    ensures [r] + Cut(c, y).frames != Cut(c, r + y).frames
  {
    hide Find, Split;
    if Find(r + y, c.delimiter) == -1 {
      NoDelimiter(c, r + y);
      assert Cut(c, r + y).frames[0] == r + y;
      assert ([r] + Cut(c, y).frames)[0] == r;
    } else {
      OverflowBeforeDelimiter(c, r, y);
    }
  }

  lemma {:induction false} NoDelimiter(c: Format, x: seq<byte>)
    requires Find(x, c.delimiter) == -1
    ensures Split(c, x) == Cutting([], x)
  {
  }

  lemma {:induction false} DelimiterAlone(d: seq<byte>)
    requires d != []
    ensures EndsAtFirstDelimiter(d, d)
  {
    assert d[..|d|] == d;
  }

  lemma {:induction false} EndsBeyond(r: seq<byte>, y: seq<byte>, d: seq<byte>)
    requires Find(r, d) == -1 && Find(r + y, d) >= 0
    ensures Find(r + y, d) + |d| > |r|
  {
    hide Find;
    var i := Find(r + y, d);
    FoundIsOccurrence(r + y, d);
    if i + |d| <= |r| {
      SameOccurrence(r, y, d, i);
      FoundIsLeftmost(r, d, i);
      assert false;
    }
  }

  lemma {:induction false} TwoReads(c: Format, x: seq<byte>, y: seq<byte>)
    ensures Concat([x, y]) == x + y
    ensures FeedAll(Cutter(c), [], [x, y]).frames == Cut(c, x).frames + Cut(c, Cut(c, x).rest + y).frames
  {
    hide Cut;
    var chunks: seq<seq<byte>> := [x, y];
    var last: seq<seq<byte>> := [y];
    assert chunks[1..] == last && |last[1..]| == 0;
    assert Concat(last) == y;
    assert [] + x == x;
    assert FeedAll(Cutter(c), Cut(c, x).rest, last) == Cut(c, Cut(c, x).rest + y);
  }

  /**
   The way a stream is split into reads is invisible exactly when no rest outgrows the limit before
   the last byte of the stream.
   */
  lemma {:induction false} ChunkingInvisibleIff(c: Format, stream: seq<byte>)
    ensures ChunkingInvisible(Cutter(c), stream) <==> FitsBeforeEnd(c, [], stream)
  {
    hide Cut, Split, Find;
    if FitsBeforeEnd(c, [], stream) {
      forall chunks | Concat(chunks) == stream
        ensures FeedAll(Cutter(c), [], chunks) == Cut(c, stream)
      {
        assert [] + stream == stream;
        EmptyIsResidual(c);
        ChunksAgree(c, [], chunks);
      }
    } else {
      var k :| 0 <= k < |stream| && !(|Split(c, [] + stream[..k]).rest| <= c.maxFrameSize);
      assert [] + stream[..k] == stream[..k] && stream == stream[..k] + stream[k..];
      OverflowVisible(c, stream[..k], stream[k..]);
      TwoReads(c, stream[..k], stream[k..]);
    }
  }

  /** A line longer than the limit is one frame when its end comes in the same read, and two when it does not. */
  lemma LongLineShows()
    ensures var c := Config([10], true, 2);
            && FeedAll(Cutter(c), [], [[1, 2, 3, 10]]) == Cutting([[1, 2, 3, 10]], [])
            && FeedAll(Cutter(c), [], [[1, 2, 3], [10]]) == Cutting([[1, 2, 3], [10]], [])
  {
    var c := Config([10], true, 2);
    LongLineCuts();
    hide Cut, Concat;
    var whole: seq<seq<byte>> := [[1, 2, 3, 10]];
    var parts: seq<seq<byte>> := [[1, 2, 3], [10]];
    var last: seq<seq<byte>> := [[10]];
    assert whole[1..] == [] && parts[1..] == last && last[1..] == [];
    assert [] + whole[0] == whole[0] && [] + parts[0] == parts[0] && [] + last[0] == last[0];
    assert FeedAll(Cutter(c), [], last) == Cut(c, [10]);
  }

  lemma LongLineCuts()
    ensures var c := Config([10], true, 2);
            && Cut(c, [1, 2, 3, 10]) == Cutting([[1, 2, 3, 10]], [])
            && Cut(c, [1, 2, 3]) == Cutting([[1, 2, 3]], [])
            && Cut(c, [10]) == Cutting([[10]], [])
  {
    var c := Config([10], true, 2);
    hide Find, Split;
    var none: seq<byte> := [];
    NoLineEnd([1, 2, 3]);
    NoLineEnd(none);
    NoDelimiter(c, [1, 2, 3]);
    NoDelimiter(c, none);
    DelimiterAlone([10]);
    OneLine([10]);
    assert At([1, 2, 3, 10], [10], 3);
    FoundIsLeftmost([1, 2, 3, 10], [10], 3);
    FoundIsOccurrence([1, 2, 3, 10], [10]);
    OneLine([1, 2, 3, 10]);
  }

  lemma {:induction false} NoLineEnd(x: seq<byte>)
    requires 10 !in x
    ensures Find(x, [10]) == -1
  {
    forall i | 0 <= i < |x|
      ensures !At(x, [10], i)
    {
      assert x[i..i + 1][0] == x[i];
    }
    if Find(x, [10]) >= 0 {
      FoundIsOccurrence(x, [10]);
    }
  }

  lemma {:induction false} OneLine(x: seq<byte>)
    requires EndsAtFirstDelimiter(x, [10])
    ensures Split(Config([10], true, 2), x) == Cutting([x], [])
  {
    hide Find;
    NoLineEnd([]);
    assert x[..|x|] == x && x[|x|..] == [];
  }

  lemma {:induction false} EmptyIsResidual(c: Format)
    ensures Residual(c, [])
  {
  }

  lemma {:induction false} OverflowVisible(c: Format, x: seq<byte>, y: seq<byte>)
    requires |Split(c, x).rest| > c.maxFrameSize && y != []
    ensures Cut(c, x).frames + Cut(c, Cut(c, x).rest + y).frames != Cut(c, x + y).frames
  {
    hide Split, Find;
    var s := Split(c, x);
    SplitRest(c, x);
    SplitAppend(c, x, y);
    OverflowShows(c, s.rest, y);
    assert [] + y == y;
    assert Cut(c, x + y).frames == s.frames + Cut(c, s.rest + y).frames;
    assert Cut(c, x).frames + Cut(c, y).frames == s.frames + ([s.rest] + Cut(c, y).frames);
    assert (s.frames + Cut(c, s.rest + y).frames)[|s.frames|..] == Cut(c, s.rest + y).frames;
    assert (s.frames + ([s.rest] + Cut(c, y).frames))[|s.frames|..] == [s.rest] + Cut(c, y).frames;
  }

  // ---- the framer object ----

  function Name(): string {
    "delimiter"
  }

  ghost predicate SplitSoFar(c: Format, start: seq<byte>, d: Direction, first: nat, frames: seq<Frame>, x: seq<byte>) {
    && Split(c, start) == Cutting(Payloads(frames) + Split(c, x).frames, Split(c, x).rest)
    && Numbered(frames, d, Name(), first)
  }

  lemma {:induction false} SplitStarts(c: Format, start: seq<byte>, d: Direction, first: nat)
    ensures SplitSoFar(c, start, d, first, [], start)
  {
    assert Payloads([]) + Split(c, start).frames == Split(c, start).frames;
  }

  lemma {:induction false} SplitsOne(c: Format, start: seq<byte>, d: Direction, first: nat, frames: seq<Frame>,
                                     x: seq<byte>, shown: nat, end: nat)
    requires SplitSoFar(c, start, d, first, frames, x) && Find(x, c.delimiter) >= 0
    requires end == Find(x, c.delimiter) + |c.delimiter|
             && shown == if c.includeDelimiter then end else Find(x, c.delimiter)
    ensures shown <= end <= |x|
    ensures SplitSoFar(c, start, d, first, frames + [Frame(d, x[..shown], first + |frames|, Name())], x[end..])
  {
    hide Find;
    var f := Frame(d, x[..shown], first + |frames|, Name());
    PayloadsSnoc(frames, f);
    var others := Split(c, x[end..]).frames;
    assert Payloads(frames) + ([f.rawBytes] + others) == (Payloads(frames) + [f.rawBytes]) + others;
  }

  /** After the loop: the frames are the split, and what is too long is still to be emitted. */
  lemma {:induction false} SplitEnds(c: Format, start: seq<byte>, d: Direction, first: nat, frames: seq<Frame>,
                                     x: seq<byte>)
    requires SplitSoFar(c, start, d, first, frames, x) && Find(x, c.delimiter) == -1
    ensures |x| <= c.maxFrameSize ==> Emits(frames, Cut(c, start).frames, d, Name(), first) && Cut(c, start).rest == x
    ensures |x| > c.maxFrameSize ==>
              Emits(frames + [Frame(d, x, first + |frames|, Name())], Cut(c, start).frames, d, Name(), first)
              && Cut(c, start).rest == []
  {
    SplitLeaves(c, start, d, first, frames, x);
    EmitsOneMore(frames, Payloads(frames), d, Name(), first, x);
    hide Find, Split, Payloads, SplitSoFar, Emits;
  }

  lemma {:induction false} SplitLeaves(c: Format, start: seq<byte>, d: Direction, first: nat, frames: seq<Frame>,
                                       x: seq<byte>)
    requires SplitSoFar(c, start, d, first, frames, x) && Find(x, c.delimiter) == -1
    ensures Split(c, start) == Cutting(Payloads(frames), x)
    ensures Emits(frames, Payloads(frames), d, Name(), first)
  {
    hide Find, Split, Payloads;
    NoDelimiter(c, x);
    assert Payloads(frames) + [] == Payloads(frames);
  }

  class DelimiterFramer {
    const config: Format
    const direction: Direction
    var sequence: nat
    var buffer: seq<byte>

    constructor (config: Format, direction: Direction)
      ensures this.config == config && this.direction == direction
      ensures buffer == [] && sequence == 0
    {
      this.config := config;
      this.direction := direction;
      sequence, buffer := 0, [];
    }

    method MakeFrame(raw: seq<byte>) returns (f: Frame)
      modifies this`sequence
      ensures f == Frame(direction, raw, old(sequence), Name()) && sequence == old(sequence) + 1
      ensures f.framerName == "delimiter"
    {
      f := Frame(direction, raw, sequence, Name());
      sequence := sequence + 1;
    }

    /** Makes a frame of the buffer's first `shown` bytes and deletes the first `end`: one turn of the cutting loop. */
    method TakeFrame(shown: nat, end: nat, ghost start: seq<byte>, ghost first: nat, ghost frames: seq<Frame>)
      returns (f: Frame)
      requires SplitSoFar(config, start, direction, first, frames, buffer) && sequence == first + |frames|
      requires Find(buffer, config.delimiter) >= 0 && end == Find(buffer, config.delimiter) + |config.delimiter|
      requires shown == if config.includeDelimiter then end else Find(buffer, config.delimiter)
      modifies this
      ensures SplitSoFar(config, start, direction, first, frames + [f], buffer) && sequence == old(sequence) + 1
      ensures |buffer| == |old(buffer)| - end
    {
      SplitsOne(config, start, direction, first, frames, buffer, shown, end);
      hide *;
      f := MakeFrame(buffer[..shown]);
      buffer := buffer[end..];
    }

    method Feed(data: seq<byte>) returns (frames: seq<Frame>)
      modifies this
      ensures Emits(frames, Cut(config, old(buffer) + data).frames, direction, Name(), old(sequence))
      ensures buffer == Cut(config, old(buffer) + data).rest
      ensures sequence == old(sequence) + |frames|
      ensures Residual(config, buffer)
    {
      buffer := buffer + data;
      ghost var start, first := buffer, sequence;
      frames := [];
      hide *;
      RestIsResidual(config, start);
      SplitStarts(config, start, direction, first);
      var idx := Find(buffer, config.delimiter);
      while idx != -1
        invariant SplitSoFar(config, start, direction, first, frames, buffer)
        invariant sequence == first + |frames|
        invariant idx == Find(buffer, config.delimiter)
        invariant idx == -1 || 0 <= idx <= |buffer| - |config.delimiter|
        decreases |buffer|
      {
        var end := idx + |config.delimiter|;
        var shown := if config.includeDelimiter then end else idx;
        var f := TakeFrame(shown, end, start, first, frames);
        frames := frames + [f];
        idx := Find(buffer, config.delimiter);
      }
      SplitEnds(config, start, direction, first, frames, buffer);
      if |buffer| > config.maxFrameSize {
        var f := MakeFrame(buffer);
        frames := frames + [f];
        buffer := [];
      }
    }

    method Flush() returns (frames: seq<Frame>)
      modifies this
      ensures Emits(frames, if old(buffer) == [] then [] else [old(buffer)], direction, Name(), old(sequence))
      ensures buffer == [] && sequence == old(sequence) + |frames|
    {
      if buffer != [] {
        var f := MakeFrame(buffer);
        buffer := [];
        return [f];
      }
      return [];
    }

    method Reset()
      modifies this
      ensures buffer == [] && sequence == 0
    {
      buffer, sequence := [], 0;
    }
  }
}

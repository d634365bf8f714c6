/** The interception pipeline with the real framers: what operator and destination get of a whole stream. */
module EndToEnd {
  import opened Bytes
  import opened Framing
  import opened Relay
  import Delimiter
  import LengthPrefix
  import Tamper

  /** A relay direction that has read its stream to the end and is done. */
  ghost predicate Done(cfg: Config, s: Sys, r: RelayId) {
    Reachable(cfg, s) && r in s.relays && s.relays[r].phase.Finished?
  }

  ghost predicate OnlyForwarded(s: Sys, r: RelayId)
    requires r in s.relays
  {
    AllForwarded(s.relays[r].settled)
  }

  /**
   A done direction has dealt with exactly the frames its framer cuts from the reads, in order, and has
   decided them all unless a cancellation came in between.
   */
  lemma {:induction false} AllDecided(cfg: Config, s: Sys, r: RelayId)
    requires Done(cfg, s, r)
    ensures Raws(s.relays[r].settled) == FramesOf(cfg.cut(r), s.relays[r]) && s.relays[r].closing
    ensures s.relays[r].out == Outcomes(cfg, r, s.relays[r].settled)
    ensures !s.relays[r].interrupted ==> NoneLost(s.relays[r].settled)
  {
    DoneIs(cfg, s, r);
    if !s.relays[r].interrupted {
      NothingLost(cfg, s, r);
    }
    hide *;
    OutputRefinesSpec(cfg, s, r);
  }

  lemma {:induction false} DoneIs(cfg: Config, s: Sys, r: RelayId)
    requires Done(cfg, s, r)
    ensures Reachable(cfg, s) && r in s.relays && s.relays[r].phase.Finished?
  {
  }

  /** Length-prefix framing is transparent on every stream, corrupt ones included. */
  lemma {:induction false} LengthPrefixTransparent(cfg: Config, s: Sys, r: RelayId, c: LengthPrefix.Format)
    requires Done(cfg, s, r) && !cfg.hasRules && cfg.cut(r) == LengthPrefix.Cutter(c) && OnlyForwarded(s, r)
    ensures s.relays[r].out == Concat(s.relays[r].chunks)
  {
    hide Reachable, Conserves;
    LengthPrefix.CutterConserves(c);
    TransparentAtEnd(cfg, s, r);
  }

  /** So is delimiter framing that keeps its delimiters. */
  lemma {:induction false} DelimiterTransparent(cfg: Config, s: Sys, r: RelayId, c: Delimiter.Format)
    requires Done(cfg, s, r) && !cfg.hasRules && cfg.cut(r) == Delimiter.Cutter(c) && c.includeDelimiter
             && OnlyForwarded(s, r)
    ensures s.relays[r].out == Concat(s.relays[r].chunks)
  {
    hide Reachable, Conserves;
    Delimiter.CutterConserves(c);
    TransparentAtEnd(cfg, s, r);
  }

  /**
   Delimiter framing that leaves its delimiters out passes the stream with exactly the delimiters that end
   a frame stripped: the decided frames are those of the same framer keeping them, each without its own.
   */
  lemma {:induction false} DelimiterStripped(cfg: Config, s: Sys, r: RelayId, c: Delimiter.Format)
    requires Done(cfg, s, r) && cfg.cut(r) == Delimiter.Cutter(c) && !c.includeDelimiter
    ensures var full := FramesOf(Delimiter.Cutter(c.(includeDelimiter := true)), s.relays[r]);
            && Concat(full) == Concat(s.relays[r].chunks)
            && Raws(s.relays[r].settled) == Delimiter.Stripped(c.delimiter, full)
            && (!cfg.hasRules && OnlyForwarded(s, r) ==>
                s.relays[r].out == Concat(Delimiter.Stripped(c.delimiter, full)))
  {
    AllDecided(cfg, s, r);
    hide FeedAll, Raws, Outcomes, Reachable;
    Delimiter.StreamStripped(c, s.relays[r].chunks);
    if !cfg.hasRules && OnlyForwarded(s, r) {
      ForwardedOutcomes(cfg, r, s.relays[r].settled);
    }
  }

  /**
   Messages sent back to back are dealt with one by one, each exactly once and in order, however TCP
   split them and whatever the operator did meanwhile; their outcomes are all the destination gets. Only a
   cancellation keeps one from being decided.
   */
  lemma {:induction false} EachMessageDecided(cfg: Config, s: Sys, r: RelayId, c: LengthPrefix.Format,
                                              messages: seq<seq<byte>>)
    requires Done(cfg, s, r) && cfg.cut(r) == LengthPrefix.Cutter(c)
    requires forall m :: m in messages ==> LengthPrefix.WellFormed(c, m)
    requires Concat(s.relays[r].chunks) == Concat(messages)
    ensures Raws(s.relays[r].settled) == messages
    ensures s.relays[r].out == Outcomes(cfg, r, s.relays[r].settled)
    ensures !s.relays[r].interrupted ==> NoneLost(s.relays[r].settled)
  {
    AllDecided(cfg, s, r);
    LengthPrefix.MessagesRoundTrip(c, messages, s.relays[r].chunks);
    hide Done, FeedAll, Raws;
    assert messages + [] == messages;
  }

  /** Where chunking is invisible, two runs on the same stream put the same frames before the operator. */
  lemma {:induction false} SameFramesSeen(cfg: Config, s: Sys, t: Sys, r: RelayId)
    requires Done(cfg, s, r) && Done(cfg, t, r)
    requires Concat(s.relays[r].chunks) == Concat(t.relays[r].chunks)
    requires ChunkingInvisible(cfg.cut(r), Concat(s.relays[r].chunks))
    ensures Raws(s.relays[r].settled) == Raws(t.relays[r].settled)
  {
    AllDecided(cfg, s, r);
    AllDecided(cfg, t, r);
    hide Done, FeedAll, Raws;
    assert FeedAll(cfg.cut(r), [], s.relays[r].chunks) == FeedAll(cfg.cut(r), [], t.relays[r].chunks);
  }
}

/** Alignments by numbers: matches, mismatches and gap columns counted out, and which optimum is taken. */
module AlignmentCounts {
  import opened Bytes
  import opened Alignment

  // ---- counting columns ----

  function Matches(al: seq<Pair>): nat {
    if al == [] then 0
    else
      var p := al[|al| - 1];
      Matches(al[..|al| - 1]) + if p.top.Val? && p.bottom.Val? && p.top.value == p.bottom.value then 1 else 0
  }

  function Mismatches(al: seq<Pair>): nat {
    if al == [] then 0
    else
      var p := al[|al| - 1];
      Mismatches(al[..|al| - 1]) + if p.top.Val? && p.bottom.Val? && p.top.value != p.bottom.value then 1 else 0
  }

  function TopGaps(al: seq<Pair>): nat {
    if al == [] then 0 else TopGaps(al[..|al| - 1]) + if al[|al| - 1].top.Gap? then 1 else 0
  }

  function BottomGaps(al: seq<Pair>): nat {
    if al == [] then 0 else BottomGaps(al[..|al| - 1]) + if al[|al| - 1].bottom.Gap? then 1 else 0
  }

  ghost predicate NoGapOnGap(al: seq<Pair>) {
    forall k :: 0 <= k < |al| ==> !(al[k].top.Gap? && al[k].bottom.Gap?)
  }

  /** The score is so much for each match, each mismatch and each gap. */
  lemma {:induction false} ScoreCounts(s: Scoring, al: seq<Pair>)
    requires NoGapOnGap(al)
    ensures Score(s, al) == s.hit * Matches(al) + s.miss * Mismatches(al) + s.gap * (TopGaps(al) + BottomGaps(al))
    decreases |al|
  {
    if al != [] {
      var init, p := al[..|al| - 1], al[|al| - 1];
      assert NoGapOnGap(init) && p == al[|al| - 1];
      ScoreCounts(s, init);
      CountsAdd(s, Matches(init), Mismatches(init), TopGaps(init) + BottomGaps(init));
    }
  }

  lemma {:induction false} CountsAdd(s: Scoring, m: nat, x: nat, g: nat)
    ensures s.hit * (m + 1) == s.hit * m + s.hit
    ensures s.miss * (x + 1) == s.miss * x + s.miss
    ensures s.gap * (g + 1) == s.gap * g + s.gap
  {
  }

  /** Every byte of either string is in a column of its own. */
  lemma {:induction false} ColumnsCounted(al: seq<Pair>)
    requires NoGapOnGap(al)
    ensures |al| == Matches(al) + Mismatches(al) + TopGaps(al) + BottomGaps(al)
    ensures |Degap(Tops(al))| == Matches(al) + Mismatches(al) + BottomGaps(al)
    ensures |Degap(Bottoms(al))| == Matches(al) + Mismatches(al) + TopGaps(al)
    decreases |al|
  {
    if al != [] {
      var init, p := al[..|al| - 1], al[|al| - 1];
      assert al == init + [p];
      ColumnsCounted(init);
      SnocColumn(init, p);
    }
  }

  /** `al` aligns the strings; one for a match, minus one for a mismatch, minus two for a gap: no sum is larger. */
  ghost predicate BestByCount(al: seq<Pair>, a: seq<byte>, b: seq<byte>) {
    && IsAlignment(al, a, b)
    && forall other :: IsAlignment(other, a, b) ==>
         Matches(other) - Mismatches(other) - 2 * (TopGaps(other) + BottomGaps(other))
         <= Matches(al) - Mismatches(al) - 2 * (TopGaps(al) + BottomGaps(al))
  }

  /** What the default scores ask for, in numbers. */
  lemma {:induction false} DefaultIsBestByCount(a: seq<byte>, b: seq<byte>)
    ensures BestByCount(Align(DEFAULT_SCORING, a, b), a, b)
  {
    var al := Align(DEFAULT_SCORING, a, b);
    AlignIsOptimal(DEFAULT_SCORING, a, b);
    hide Align, Score, Matches, Mismatches, TopGaps, BottomGaps;
    ScoreCounts(DEFAULT_SCORING, al);
    forall other | IsAlignment(other, a, b)
      ensures Matches(other) - Mismatches(other) - 2 * (TopGaps(other) + BottomGaps(other))
           <= Matches(al) - Mismatches(al) - 2 * (TopGaps(al) + BottomGaps(al))
    {
      ScoreCounts(DEFAULT_SCORING, other);
      assert Score(DEFAULT_SCORING, other) <= Score(DEFAULT_SCORING, al);
    }
  }

  // ---- where only substitutions occur ----

  /** The strings side by side, place by place. */
  function Zipped(a: seq<byte>, b: seq<byte>): (al: seq<Pair>)
    requires |a| == |b|
    ensures |al| == |a|
  {
    seq(|a|, k requires 0 <= k < |a| => Pair(Val(a[k]), Val(b[k])))
  }

  /** How many places differ. */
  function Unequal(a: seq<byte>, b: seq<byte>): nat
    requires |a| == |b|
    decreases |a|
  {
    if a == [] then 0
    else Unequal(a[..|a| - 1], b[..|b| - 1]) + if a[|a| - 1] != b[|b| - 1] then 1 else 0
  }

  lemma {:induction false} ZippedSnoc(a: seq<byte>, b: seq<byte>)
    requires |a| == |b| > 0
    ensures var n := |a| - 1; Zipped(a, b) == Zipped(a[..n], b[..n]) + [Pair(Val(a[n]), Val(b[n]))]
  {
  }

  lemma {:induction false} ZippedAligns(a: seq<byte>, b: seq<byte>)
    requires |a| == |b|
    ensures IsAlignment(Zipped(a, b), a, b)
    ensures Mismatches(Zipped(a, b)) == Unequal(a, b) && Matches(Zipped(a, b)) == |a| - Unequal(a, b)
    ensures TopGaps(Zipped(a, b)) == 0 && BottomGaps(Zipped(a, b)) == 0
    decreases |a|
  {
    if a == [] {
      assert Tops(Zipped(a, b)) == [] && Bottoms(Zipped(a, b)) == [];
    } else {
      var n := |a| - 1;
      var p := Pair(Val(a[n]), Val(b[n]));
      ZippedAligns(a[..n], b[..n]);
      ZippedSnoc(a, b);
      hide Zipped, IsAlignment;
      var init := Zipped(a[..n], b[..n]);
      assert (init + [p])[..n] == init && (init + [p])[n] == p;
      ExtendAlignment(DEFAULT_SCORING, init, a[..n], b[..n], p);
      OneByte(a, n);
      OneByte(b, n);
    }
  }

  lemma {:induction false} OneByte(a: seq<byte>, n: nat)
    requires |a| == n + 1
    ensures a[..n] + Degap([Val(a[n])]) == a
  {
    assert Degap([Val(a[n])]) == [a[n]];
  }

  lemma {:induction false} GaplessIsZipped(al: seq<Pair>, a: seq<byte>, b: seq<byte>)
    requires IsAlignment(al, a, b) && TopGaps(al) == 0 && BottomGaps(al) == 0
    ensures |a| == |b| && al == Zipped(a, b)
    decreases |al|
  {
    hide IsAlignment, TopGaps, BottomGaps, Zipped;
    if al == [] {
      NothingAligned(a, b);
    } else {
      var n := |al| - 1;
      GaplessLast(al, a, b);
      GaplessIsZipped(al[..n], a[..|a| - 1], b[..|b| - 1]);
      ZippedSnoc(a, b);
      assert al == al[..n] + [al[n]];
    }
  }

  lemma {:induction false} NothingAligned(a: seq<byte>, b: seq<byte>)
    requires IsAlignment([], a, b)
    ensures a == b == []
  {
  }

  /** The last column of an alignment without gaps holds the last bytes, and the others align the rest without gaps. */
  lemma {:induction false} GaplessLast(al: seq<Pair>, a: seq<byte>, b: seq<byte>)
    requires IsAlignment(al, a, b) && TopGaps(al) == 0 && BottomGaps(al) == 0 && al != []
    ensures a != [] && b != [] && al[|al| - 1] == Pair(Val(a[|a| - 1]), Val(b[|b| - 1]))
    ensures var init := al[..|al| - 1];
            IsAlignment(init, a[..|a| - 1], b[..|b| - 1]) && TopGaps(init) == 0 && BottomGaps(init) == 0
  {
    var init, p := al[..|al| - 1], al[|al| - 1];
    assert al == init + [p];
    SnocColumn(init, p);
    var x, y := Degap(Tops(init)), Degap(Bottoms(init));
    assert p.top.Val? && p.bottom.Val?;
    assert Degap([p.top]) == [p.top.value] && Degap([p.bottom]) == [p.bottom.value];
    assert a == x + [p.top.value] && b == y + [p.bottom.value];
    assert a[..|a| - 1] == x && b[..|b| - 1] == y;
  }

  /** Strings of one length that differ in one or two places are aligned place by place under the default scores. */
  lemma {:induction false} SubstitutionsOnly(a: seq<byte>, b: seq<byte>)
    requires |a| == |b| && Unequal(a, b) <= 2
    ensures Align(DEFAULT_SCORING, a, b) == Zipped(a, b)
  {
    var al := Align(DEFAULT_SCORING, a, b);
    DefaultIsBestByCount(a, b);
    ZippedAligns(a, b);
    ColumnsCounted(al);
    hide Align, Matches, Mismatches, TopGaps, BottomGaps, Unequal, Zipped;
    assert TopGaps(al) == BottomGaps(al);
    assert Matches(Zipped(a, b)) - Mismatches(Zipped(a, b)) >= |a| - 4;
    GaplessIsZipped(al, a, b);
  }

  // ---- which of the best alignments is taken ----

  /** A pair of bytes before a gap below, and that before a gap above. */
  function Rank(p: Pair): nat {
    if p.top.Val? && p.bottom.Val? then 0 else if p.top.Val? then 1 else 2
  }

  /** Read from their ends, `x` has the lower rank in the first column in which they differ. */
  ghost predicate PreferredTo(x: seq<Pair>, y: seq<Pair>) {
    x == y
    || (x != [] && y != [] &&
        if x[|x| - 1] == y[|y| - 1] then PreferredTo(x[..|x| - 1], y[..|y| - 1])
        else Rank(x[|x| - 1]) < Rank(y[|y| - 1]))
  }

  /** The last column of an optimal alignment leaves an optimal one and is a move the table allows. */
  lemma {:induction false} OptimalLast(s: Scoring, a: seq<byte>, b: seq<byte>, i: nat, j: nat, al: seq<Pair>)
    requires i <= |a| && j <= |b| && i + j > 0
    requires IsAlignment(al, a[..i], b[..j]) && Score(s, al) == Best(s, a, b, i, j)
    ensures al != []
    ensures var init, p := al[..|al| - 1], al[|al| - 1];
            var i', j' := if p.top.Gap? then i else i - 1, if p.bottom.Gap? then j else j - 1;
            && (p.top.Gap? ==> p.bottom.Val?) && 0 <= i' && 0 <= j' && i' + j' < i + j
            && (p.top.Val? ==> p.top.value == a[i - 1]) && (p.bottom.Val? ==> p.bottom.value == b[j - 1])
            && IsAlignment(init, a[..i'], b[..j']) && Score(s, init) == Best(s, a, b, i', j')
            && Best(s, a, b, i, j) == Best(s, a, b, i', j') + PairScore(s, p)
  {
    ColumnsCounted(al);
    assert al != [];
    var init, p := al[..|al| - 1], al[|al| - 1];
    assert al == init + [p];
    SnocColumn(init, p);
    PrefixOfAppend(a, i, Degap(Tops(init)), Degap([p.top]));
    PrefixOfAppend(b, j, Degap(Bottoms(init)), Degap([p.bottom]));
    var i', j' := if p.top.Gap? then i else i - 1, if p.bottom.Gap? then j else j - 1;
    TableIsUpperBound(s, a, b, i', j', init);
    MoveReaches(s, a, b, i, j, p);
  }

  /** No move reaches beyond the table. */
  lemma {:induction false} MoveReaches(s: Scoring, a: seq<byte>, b: seq<byte>, i: nat, j: nat, p: Pair)
    requires i <= |a| && j <= |b| && !(p.top.Gap? && p.bottom.Gap?)
    requires p.top.Val? ==> i > 0 && p.top.value == a[i - 1]
    requires p.bottom.Val? ==> j > 0 && p.bottom.value == b[j - 1]
    ensures Best(s, a, b, if p.top.Gap? then i else i - 1, if p.bottom.Gap? then j else j - 1) + PairScore(s, p)
            <= Best(s, a, b, i, j)
  {
  }

  /** Of the moves that reach an entry the traceback takes the one of the lowest rank. */
  lemma {:induction false} LowestRank(s: Scoring, a: seq<byte>, b: seq<byte>, i: nat, j: nat, p: Pair)
    requires i <= |a| && j <= |b| && i + j > 0 && !(p.top.Gap? && p.bottom.Gap?)
    requires p.top.Val? ==> i > 0 && p.top.value == a[i - 1]
    requires p.bottom.Val? ==> j > 0 && p.bottom.value == b[j - 1]
    requires Best(s, a, b, i, j)
             == Best(s, a, b, if p.top.Gap? then i else i - 1, if p.bottom.Gap? then j else j - 1) + PairScore(s, p)
    ensures LastPair(s, a, b, i, j) == p || Rank(LastPair(s, a, b, i, j)) < Rank(p)
  {
    hide Best;
  }

  lemma {:induction false} TraceIsPreferred(s: Scoring, a: seq<byte>, b: seq<byte>, i: nat, j: nat, al: seq<Pair>)
    requires i <= |a| && j <= |b|
    requires IsAlignment(al, a[..i], b[..j]) && Score(s, al) == Best(s, a, b, i, j)
    ensures PreferredTo(Trace(s, a, b, i, j), al)
    decreases i + j
  {
    if i + j == 0 {
      assert a[..0] == [] && b[..0] == [];
      ColumnsCounted(al);
    } else {
      OptimalLast(s, a, b, i, j, al);
      var init, p := al[..|al| - 1], al[|al| - 1];
      var i', j' := if p.top.Gap? then i else i - 1, if p.bottom.Gap? then j else j - 1;
      LowestRank(s, a, b, i, j, p);
      TraceSnoc(s, a, b, i, j);
      hide *;
      if LastPair(s, a, b, i, j) == p {
        TraceIsPreferred(s, a, b, i', j', init);
      }
      PreferredStep(Trace(s, a, b, i, j), al);
    }
  }

  lemma {:induction false} TraceSnoc(s: Scoring, a: seq<byte>, b: seq<byte>, i: nat, j: nat)
    requires i <= |a| && j <= |b| && i + j > 0
    ensures var q, x := LastPair(s, a, b, i, j), Trace(s, a, b, i, j);
            && x != [] && x[|x| - 1] == q
            && x[..|x| - 1] == Trace(s, a, b, if q.top.Gap? then i else i - 1, if q.bottom.Gap? then j else j - 1)
  {
    hide LastPair;
    var q := LastPair(s, a, b, i, j);
    var before := Trace(s, a, b, if q.top.Gap? then i else i - 1, if q.bottom.Gap? then j else j - 1);
    assert Trace(s, a, b, i, j) == before + [q] && (before + [q])[..|before|] == before;
  }

  lemma {:induction false} PreferredStep(x: seq<Pair>, y: seq<Pair>)
    requires x != [] && y != []
    requires if x[|x| - 1] == y[|y| - 1] then PreferredTo(x[..|x| - 1], y[..|y| - 1])
             else Rank(x[|x| - 1]) < Rank(y[|y| - 1])
    ensures PreferredTo(x, y)
  {
    hide Rank;
  }

  /**
   Of all alignments of the highest score the one taken is preferred to every other: read from the end it
   pairs bytes rather than put a gap below, and puts a gap below rather than above.
   */
  lemma {:induction false} AlignIsPreferred(s: Scoring, a: seq<byte>, b: seq<byte>, al: seq<Pair>)
    requires Optimal(s, a, b, al)
    ensures PreferredTo(Align(s, a, b), al)
  {
    AlignIsOptimal(s, a, b);
    assert a[..|a|] == a && b[..|b|] == b;
    TableIsUpperBound(s, a, b, |a|, |b|, al);
    assert IsAlignment(Align(s, a, b), a, b);
    TraceIsPreferred(s, a, b, |a|, |b|, al);
  }

  lemma {:induction false} PreferenceIsStrict(x: seq<Pair>, y: seq<Pair>)
    requires PreferredTo(x, y) && PreferredTo(y, x)
    ensures x == y
    decreases |x|
  {
    if x != y {
      assert x == x[..|x| - 1] + [x[|x| - 1]] && y == y[..|y| - 1] + [y[|y| - 1]];
      PreferenceIsStrict(x[..|x| - 1], y[..|y| - 1]);
    }
  }

  /** The highest score and that preference determine the alignment. */
  lemma {:induction false} AlignIsDetermined(s: Scoring, a: seq<byte>, b: seq<byte>, al: seq<Pair>)
    requires Optimal(s, a, b, al)
    requires forall other :: Optimal(s, a, b, other) ==> PreferredTo(al, other)
    ensures al == Align(s, a, b)
  {
    AlignIsOptimal(s, a, b);
    AlignIsPreferred(s, a, b, al);
    hide *;
    PreferenceIsStrict(Align(s, a, b), al);
  }
}

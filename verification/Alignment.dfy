/**
 Needleman-Wunsch global alignment: the score table filled in place, the
 traceback with its preference for diagonal moves, and its optimality.
 */
module Alignment {
  import opened Bytes

  /** One entry of an aligned row: a byte, or a gap. */
  datatype Cell = Gap | Val(value: byte)

  datatype Scoring = Scoring(hit: int, miss: int, gap: int)

  const DEFAULT_SCORING := Scoring(1, -1, -2)

  /** One column of a two-row alignment. */
  datatype Pair = Pair(top: Cell, bottom: Cell)

  function Degap(row: seq<Cell>): seq<byte> {
    if row == [] then []
    else (if row[0].Gap? then [] else [row[0].value]) + Degap(row[1..])
  }

  function Tops(al: seq<Pair>): (r: seq<Cell>)
    ensures |r| == |al|
  {
    seq(|al|, k requires 0 <= k < |al| => al[k].top)
  }

  function Bottoms(al: seq<Pair>): (r: seq<Cell>)
    ensures |r| == |al|
  {
    seq(|al|, k requires 0 <= k < |al| => al[k].bottom)
  }

  /** `al` aligns `a` with `b`: removing gaps gives them back, and no column is gap on gap. */
  ghost predicate IsAlignment(al: seq<Pair>, a: seq<byte>, b: seq<byte>) {
    && Degap(Tops(al)) == a
    && Degap(Bottoms(al)) == b
    && forall k :: 0 <= k < |al| ==> !(al[k].top.Gap? && al[k].bottom.Gap?)
  }

  function Substitution(s: Scoring, x: byte, y: byte): int {
    if x == y then s.hit else s.miss
  }

  function PairScore(s: Scoring, p: Pair): int {
    if p.top.Gap? || p.bottom.Gap? then s.gap else Substitution(s, p.top.value, p.bottom.value)
  }

  /** Sum of the column scores. */
  function Score(s: Scoring, al: seq<Pair>): int {
    if al == [] then 0 else Score(s, al[..|al| - 1]) + PairScore(s, al[|al| - 1])
  }

  function Max3(x: int, y: int, z: int): int {
    if x >= y && x >= z then x else if y >= z then y else z
  }

  /** The value the table holds at row `i`, column `j`. */
  function Best(s: Scoring, a: seq<byte>, b: seq<byte>, i: nat, j: nat): int
    requires i <= |a| && j <= |b|
  {
    if i == 0 && j == 0 then 0
    else if i == 0 then Best(s, a, b, i, j - 1) + s.gap
    else if j == 0 then Best(s, a, b, i - 1, j) + s.gap
    else Max3(Best(s, a, b, i - 1, j - 1) + Substitution(s, a[i - 1], b[j - 1]),
              Best(s, a, b, i - 1, j) + s.gap,
              Best(s, a, b, i, j - 1) + s.gap)
  }

  /** The move the traceback makes at `(i, j)`. */
  datatype Move = Diagonal | Up | Left

  function MoveAt(s: Scoring, a: seq<byte>, b: seq<byte>, i: nat, j: nat): (m: Move)
    requires i <= |a| && j <= |b| && i + j > 0
    ensures m.Diagonal? ==> i > 0 && j > 0
    ensures m.Up? ==> i > 0
    ensures m.Left? ==> j > 0
  {
    if i > 0 && j > 0 && Best(s, a, b, i, j) == Best(s, a, b, i - 1, j - 1) + Substitution(s, a[i - 1], b[j - 1])
    then Diagonal
    else if i > 0 && (j == 0 || Best(s, a, b, i, j) == Best(s, a, b, i - 1, j) + s.gap) then Up
    else Left
  }

  /** The column that move emits. */
  function LastPair(s: Scoring, a: seq<byte>, b: seq<byte>, i: nat, j: nat): (p: Pair)
    requires i <= |a| && j <= |b| && i + j > 0
    ensures !(p.top.Gap? && p.bottom.Gap?)
    ensures p.top.Val? ==> i > 0 && p.top.value == a[i - 1]
    ensures p.bottom.Val? ==> j > 0 && p.bottom.value == b[j - 1]
  {
    var m := MoveAt(s, a, b, i, j);
    Pair(if m.Left? then Gap else Val(a[i - 1]), if m.Up? then Gap else Val(b[j - 1]))
  }

  /** The columns the traceback produces for the first `i` and `j` bytes. */
  function Trace(s: Scoring, a: seq<byte>, b: seq<byte>, i: nat, j: nat): seq<Pair>
    requires i <= |a| && j <= |b|
    decreases i + j
  {
    if i + j == 0 then []
    else
      var p := LastPair(s, a, b, i, j);
      Trace(s, a, b, if p.top.Gap? then i else i - 1, if p.bottom.Gap? then j else j - 1) + [p]
  }

  /** The alignment of two whole byte strings. */
  function Align(s: Scoring, a: seq<byte>, b: seq<byte>): seq<Pair> {
    Trace(s, a, b, |a|, |b|)
  }

  // ---- appending a column ----

  lemma {:induction false} DegapAppend(x: seq<Cell>, y: seq<Cell>)
    ensures Degap(x + y) == Degap(x) + Degap(y)
  {
    if x == [] {
      assert x + y == y;
    } else {
      assert (x + y)[1..] == x[1..] + y;
      DegapAppend(x[1..], y);
    }
  }

  lemma {:induction false} SnocColumn(al: seq<Pair>, last: Pair)
    ensures Degap(Tops(al + [last])) == Degap(Tops(al)) + Degap([last.top])
    ensures Degap(Bottoms(al + [last])) == Degap(Bottoms(al)) + Degap([last.bottom])
  {
    assert Tops(al + [last]) == Tops(al) + [last.top];
    assert Bottoms(al + [last]) == Bottoms(al) + [last.bottom];
    DegapAppend(Tops(al), [last.top]);
    DegapAppend(Bottoms(al), [last.bottom]);
  }

  /** Extending an alignment by one column extends what it aligns and what it scores. */
  lemma {:induction false} ExtendAlignment(s: Scoring, al: seq<Pair>, a: seq<byte>, b: seq<byte>, last: Pair)
    requires IsAlignment(al, a, b)
    requires !(last.top.Gap? && last.bottom.Gap?)
    ensures IsAlignment(al + [last], a + Degap([last.top]), b + Degap([last.bottom]))
    ensures Score(s, al + [last]) == Score(s, al) + PairScore(s, last)
  {
    SnocColumn(al, last);
    assert (al + [last])[..|al|] == al;
  }

  // ---- optimality ----

  lemma {:induction false} PrefixGrows(a: seq<byte>, i: nat, c: Cell)
    requires i <= |a|
    requires c.Val? ==> i > 0 && c.value == a[i - 1]
    ensures a[..if c.Gap? then i else i - 1] + Degap([c]) == a[..i]
  {
    assert Degap([c]) == if c.Gap? then [] else [c.value];
  }

  /** Every move accounts for the whole difference between the two table entries it joins. */
  lemma {:induction false} MoveScores(s: Scoring, a: seq<byte>, b: seq<byte>, i: nat, j: nat)
    requires i <= |a| && j <= |b| && i + j > 0
    ensures var p := LastPair(s, a, b, i, j);
            Best(s, a, b, i, j)
            == Best(s, a, b, if p.top.Gap? then i else i - 1, if p.bottom.Gap? then j else j - 1) + PairScore(s, p)
  {
  }

  lemma {:induction false} TraceAligns(s: Scoring, a: seq<byte>, b: seq<byte>, i: nat, j: nat)
    requires i <= |a| && j <= |b|
    ensures IsAlignment(Trace(s, a, b, i, j), a[..i], b[..j])
    ensures Score(s, Trace(s, a, b, i, j)) == Best(s, a, b, i, j)
    decreases i + j
  {
    if i + j > 0 {
      var last := LastPair(s, a, b, i, j);
      var i' := if last.top.Gap? then i else i - 1;
      var j' := if last.bottom.Gap? then j else j - 1;
      TraceAligns(s, a, b, i', j');
      MoveScores(s, a, b, i, j);
      var init := Trace(s, a, b, i', j');
      assert Trace(s, a, b, i, j) == init + [last];
      ExtendAlignment(s, init, a[..i'], b[..j'], last);
      PrefixGrows(a, i, last.top);
      PrefixGrows(b, j, last.bottom);
    }
  }

  /** No alignment of the first `i` and `j` bytes scores above the table entry. */
  lemma {:induction false} TableIsUpperBound(s: Scoring, a: seq<byte>, b: seq<byte>, i: nat, j: nat, al: seq<Pair>)
    requires i <= |a| && j <= |b|
    requires IsAlignment(al, a[..i], b[..j])
    ensures Score(s, al) <= Best(s, a, b, i, j)
    decreases |al|
  {
    if al == [] {
      assert i == 0 && j == 0;
    } else {
      var init, last := al[..|al| - 1], al[|al| - 1];
      assert al == init + [last];
      SnocColumn(init, last);
      PrefixOfAppend(a, i, Degap(Tops(init)), Degap([last.top]));
      PrefixOfAppend(b, j, Degap(Bottoms(init)), Degap([last.bottom]));
      var i' := if last.top.Gap? then i else i - 1;
      var j' := if last.bottom.Gap? then j else j - 1;
      TableIsUpperBound(s, a, b, i', j', init);
    }
  }

  lemma {:induction false} PrefixOfAppend(a: seq<byte>, i: nat, x: seq<byte>, y: seq<byte>)
    requires i <= |a| && a[..i] == x + y && |y| <= 1
    ensures |y| <= i && x == a[..i - |y|]
    ensures |y| == 1 ==> y[0] == a[i - 1]
  {
    assert x == (x + y)[..|x|];
    if |y| == 1 {
      assert y[0] == (x + y)[|x|];
    }
  }

  /** `al` aligns the two strings and no other alignment of them scores higher. */
  ghost predicate Optimal(s: Scoring, a: seq<byte>, b: seq<byte>, al: seq<Pair>) {
    && IsAlignment(al, a, b)
    && forall other :: IsAlignment(other, a, b) ==> Score(s, other) <= Score(s, al)
  }

  /** The alignment is one, and no alignment of the same two strings scores higher. */
  lemma {:induction false} AlignIsOptimal(s: Scoring, a: seq<byte>, b: seq<byte>)
    ensures Optimal(s, a, b, Align(s, a, b))
    ensures Score(s, Align(s, a, b)) == Best(s, a, b, |a|, |b|)
  {
    assert a[..|a|] == a && b[..|b|] == b;
    TraceAligns(s, a, b, |a|, |b|);
    forall al | IsAlignment(al, a, b)
      ensures Score(s, al) <= Score(s, Align(s, a, b))
    {
      TableIsUpperBound(s, a, b, |a|, |b|, al);
    }
  }

  // ---- shape under scorings that prefer a substitution to two gaps ----

  ghost predicate CrossedGaps(p: Pair, q: Pair) {
    (p.top.Gap? && q.bottom.Gap?) || (p.bottom.Gap? && q.top.Gap?)
  }

  ghost predicate NowhereCrossed(al: seq<Pair>) {
    forall k :: 1 <= k < |al| ==> !CrossedGaps(al[k - 1], al[k])
  }

  /** A move to the left or up costs a gap, and no entry is below what a substitution reaches. */
  lemma {:induction false} GapMoves(s: Scoring, a: seq<byte>, b: seq<byte>, i: nat, j: nat)
    requires i <= |a| && j <= |b| && i + j > 0
    ensures MoveAt(s, a, b, i, j).Up? ==> Best(s, a, b, i, j) == Best(s, a, b, i - 1, j) + s.gap
    ensures MoveAt(s, a, b, i, j).Left? ==> Best(s, a, b, i, j) == Best(s, a, b, i, j - 1) + s.gap
    ensures i > 0 && j > 0 ==>
              Best(s, a, b, i, j) >= Best(s, a, b, i - 1, j - 1) + Substitution(s, a[i - 1], b[j - 1])
  {
  }

  /** Two successive gap moves never go in different directions. */
  lemma {:induction false} NoTurn(s: Scoring, a: seq<byte>, b: seq<byte>, i: nat, j: nat)
    requires 0 < i <= |a| && 0 < j <= |b|
    requires s.hit > 2 * s.gap && s.miss > 2 * s.gap
    ensures MoveAt(s, a, b, i, j).Up? ==> !MoveAt(s, a, b, i - 1, j).Left?
    ensures MoveAt(s, a, b, i, j).Left? ==> !MoveAt(s, a, b, i, j - 1).Up?
  {
    hide Best, MoveAt;
    GapMoves(s, a, b, i, j);
    GapMoves(s, a, b, i - 1, j);
    GapMoves(s, a, b, i, j - 1);
  }

  /** When any substitution beats two gaps, no gap in one row touches a gap in the other. */
  lemma {:induction false} NoCrossedGaps(s: Scoring, a: seq<byte>, b: seq<byte>, i: nat, j: nat)
    requires i <= |a| && j <= |b|
    requires s.hit > 2 * s.gap && s.miss > 2 * s.gap
    ensures NowhereCrossed(Trace(s, a, b, i, j))
    decreases i + j
  {
    if i + j > 0 {
      var p := LastPair(s, a, b, i, j);
      var i' := if p.top.Gap? then i else i - 1;
      var j' := if p.bottom.Gap? then j else j - 1;
      NoCrossedGaps(s, a, b, i', j');
      var init := Trace(s, a, b, i', j');
      assert Trace(s, a, b, i, j) == init + [p];
      if i' + j' > 0 {
        assert init[|init| - 1] == LastPair(s, a, b, i', j');
        if i > 0 && j > 0 {
          NoTurn(s, a, b, i, j);
        }
        assert !CrossedGaps(LastPair(s, a, b, i', j'), p);
      }
    }
  }

  /** The outer row and column of the table are multiples of the gap score. */
  lemma {:induction false} TableEdges(s: Scoring, a: seq<byte>, b: seq<byte>, n: nat)
    ensures n <= |a| ==> Best(s, a, b, n, 0) == n * s.gap
    ensures n <= |b| ==> Best(s, a, b, 0, n) == n * s.gap
  {
    if n > 0 {
      TableEdges(s, a, b, n - 1);
      assert n * s.gap == (n - 1) * s.gap + s.gap;
    }
  }

  lemma {:induction false} DefaultCeiling(a: seq<byte>, b: seq<byte>, i: nat, j: nat)
    requires i <= |a| && j <= |b|
    ensures Best(DEFAULT_SCORING, a, b, i, j) <= if i <= j then i - 2 * (j - i) else j - 2 * (i - j)
    decreases i + j
  {
    if i > 0 && j > 0 {
      DefaultCeiling(a, b, i - 1, j - 1);
    }
    if i > 0 {
      DefaultCeiling(a, b, i - 1, j);
    }
    if j > 0 {
      DefaultCeiling(a, b, i, j - 1);
    }
  }

  /** A byte string aligned with itself under the default scores has no gaps. */
  lemma {:induction false} SelfAlignmentHasNoGaps(a: seq<byte>, i: nat)
    requires i <= |a|
    ensures Best(DEFAULT_SCORING, a, a, i, i) == i
    ensures Trace(DEFAULT_SCORING, a, a, i, i) == seq(i, k requires 0 <= k < i => Pair(Val(a[k]), Val(a[k])))
  {
    if i > 0 {
      SelfAlignmentHasNoGaps(a, i - 1);
      DefaultCeiling(a, a, i, i);
    }
  }

  // ---- the imperative algorithm ----

  method FillTable(s: Scoring, a: seq<byte>, b: seq<byte>) returns (h: array2<int>)
    ensures fresh(h) && h.Length0 == |a| + 1 && h.Length1 == |b| + 1
    ensures forall i, j :: 0 <= i <= |a| && 0 <= j <= |b| ==> h[i, j] == Best(s, a, b, i, j)
  {
    h := new int[|a| + 1, |b| + 1]((i, j) => 0);
    FillEdges(s, a, b, h);
    for i := 1 to |a| + 1
      invariant RowsDone(s, a, b, h, i)
      invariant FirstColumn(s, a, b, h)
    {
      FillRow(s, a, b, h, i);
    }
  }

  ghost predicate RowsDone(s: Scoring, a: seq<byte>, b: seq<byte>, h: array2<int>, n: nat)
    requires h.Length0 == |a| + 1 && h.Length1 == |b| + 1 && n <= |a| + 1
    reads h
  {
    forall i, j :: 0 <= i < n && 0 <= j <= |b| ==> h[i, j] == Best(s, a, b, i, j)
  }

  ghost predicate FirstColumn(s: Scoring, a: seq<byte>, b: seq<byte>, h: array2<int>)
    requires h.Length0 == |a| + 1 && h.Length1 == |b| + 1
    reads h
  {
    forall i :: 0 <= i <= |a| ==> h[i, 0] == Best(s, a, b, i, 0)
  }

  method FillEdges(s: Scoring, a: seq<byte>, b: seq<byte>, h: array2<int>)
    requires h.Length0 == |a| + 1 && h.Length1 == |b| + 1
    requires h[0, 0] == 0
    modifies h
    ensures RowsDone(s, a, b, h, 1) && FirstColumn(s, a, b, h)
  {
    for i := 1 to |a| + 1
      invariant forall k :: 0 <= k < i ==> h[k, 0] == Best(s, a, b, k, 0)
    {
      TableEdges(s, a, b, i);
      h[i, 0] := i * s.gap;
    }
    for j := 1 to |b| + 1
      invariant FirstColumn(s, a, b, h)
      invariant forall k :: 0 <= k < j ==> h[0, k] == Best(s, a, b, 0, k)
    {
      TableEdges(s, a, b, j);
      h[0, j] := j * s.gap;
    }
  }

  method FillRow(s: Scoring, a: seq<byte>, b: seq<byte>, h: array2<int>, i: nat)
    requires h.Length0 == |a| + 1 && h.Length1 == |b| + 1 && 1 <= i <= |a|
    requires RowsDone(s, a, b, h, i) && FirstColumn(s, a, b, h)
    modifies h
    ensures RowsDone(s, a, b, h, i + 1) && FirstColumn(s, a, b, h)
  {
    assert h[i, 0] == Best(s, a, b, i, 0);
    for j := 1 to |b| + 1
      invariant RowsDone(s, a, b, h, i) && FirstColumn(s, a, b, h)
      invariant forall m :: 0 <= m < j ==> h[i, m] == Best(s, a, b, i, m)
    {
      CellValue(s, a, b, h, i, j);
      var diag := h[i - 1, j - 1] + (if a[i - 1] == b[j - 1] then s.hit else s.miss);
      var up := h[i - 1, j] + s.gap;
      var left := h[i, j - 1] + s.gap;
      h[i, j] := Max3(diag, up, left);
    }
  }

  lemma {:induction false} CellValue(s: Scoring, a: seq<byte>, b: seq<byte>, h: array2<int>, i: nat, j: nat)
    requires h.Length0 == |a| + 1 && h.Length1 == |b| + 1 && 1 <= i <= |a| && 1 <= j <= |b|
    requires RowsDone(s, a, b, h, i)
    requires h[i, j - 1] == Best(s, a, b, i, j - 1)
    ensures Best(s, a, b, i, j)
         == Max3(h[i - 1, j - 1] + Substitution(s, a[i - 1], b[j - 1]), h[i - 1, j] + s.gap, h[i, j - 1] + s.gap)
  {
  }

  /** The traceback's choice at `(i, j)`: a diagonal step when it explains the score, then up, then left. */
  method NextMove(s: Scoring, a: seq<byte>, b: seq<byte>, h: array2<int>, i: nat, j: nat) returns (m: Move)
    requires h.Length0 == |a| + 1 && h.Length1 == |b| + 1 && i <= |a| && j <= |b| && i + j > 0
    requires RowsDone(s, a, b, h, |a| + 1)
    ensures m == MoveAt(s, a, b, i, j)
  {
    if i > 0 && j > 0 && h[i, j] == h[i - 1, j - 1] + (if a[i - 1] == b[j - 1] then s.hit else s.miss) {
      return Diagonal;
    }
    if i > 0 && (j == 0 || h[i, j] == h[i - 1, j] + s.gap) {
      return Up;
    }
    return Left;
  }

  /** Walks the table back from the far corner, appending columns in reverse order. */
  method TraceBack(s: Scoring, a: seq<byte>, b: seq<byte>, h: array2<int>) returns (outA: seq<Cell>, outB: seq<Cell>)
    requires h.Length0 == |a| + 1 && h.Length1 == |b| + 1
    requires RowsDone(s, a, b, h, |a| + 1)
    ensures outA == Reverse(Tops(Align(s, a, b))) && outB == Reverse(Bottoms(Align(s, a, b)))
  {
    hide RowsDone, MoveAt, Best;
    outA, outB := [], [];
    ghost var al, walked: seq<Pair> := Align(s, a, b), [];
    var i, j := |a|, |b|;
    while i > 0 || j > 0
      invariant 0 <= i <= |a| && 0 <= j <= |b|
      invariant al == Trace(s, a, b, i, j) + walked
      invariant outA == Reverse(Tops(walked)) && outB == Reverse(Bottoms(walked))
      decreases i + j
    {
      ghost var p := LastPair(s, a, b, i, j);
      var move := NextMove(s, a, b, h, i, j);
      outA := outA + [if move.Left? then Gap else Val(a[i - 1])];
      outB := outB + [if move.Up? then Gap else Val(b[j - 1])];
      i := if move.Left? then i else i - 1;
      j := if move.Up? then j else j - 1;
      ReverseGrows(p, walked);
      assert al == Trace(s, a, b, i, j) + ([p] + walked);
      walked := [p] + walked;
    }
    assert Trace(s, a, b, 0, 0) + walked == walked;
  }

  lemma {:induction false} ReverseGrows(p: Pair, walked: seq<Pair>)
    ensures Reverse(Tops([p] + walked)) == Reverse(Tops(walked)) + [p.top]
    ensures Reverse(Bottoms([p] + walked)) == Reverse(Bottoms(walked)) + [p.bottom]
  {
    assert Tops([p] + walked) == [p.top] + Tops(walked);
    assert Bottoms([p] + walked) == [p.bottom] + Bottoms(walked);
  }

  /** The two aligned rows: they degap to the inputs and no other alignment scores higher. */
  method NeedlemanWunsch(s: Scoring, a: seq<byte>, b: seq<byte>) returns (rowA: seq<Cell>, rowB: seq<Cell>)
    ensures rowA == Tops(Align(s, a, b)) && rowB == Bottoms(Align(s, a, b))
    ensures |rowA| == |rowB| && Degap(rowA) == a && Degap(rowB) == b
    ensures Optimal(s, a, b, Align(s, a, b))
  {
    AlignIsOptimal(s, a, b);
    if |a| == 0 && |b| == 0 {
      return [], [];
    }
    var h := FillTable(s, a, b);
    var outA, outB := TraceBack(s, a, b, h);
    rowA, rowB := Reverse(outA), Reverse(outB);
  }
}

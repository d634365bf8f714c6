/**
 Progressive multi-row alignment: every later frame is aligned against the first
 one and merged into the table, inserting gap columns where the anchor gets a gap.
 */
module ProgressiveMerge {
  import opened Alignment
  import opened AlignmentCounts
  import opened Bytes
  import opened Options
  import opened Runs

  type Row = seq<Cell>
  type Column = seq<Cell>

  function RowOf(cols: seq<Column>, r: nat): (row: Row)
    requires forall c :: c in cols ==> r < |c|
    ensures |row| == |cols|
  {
    seq(|cols|, k requires 0 <= k < |cols| => cols[k][r])
  }

  function ColumnOf(rows: seq<Row>, c: nat): (col: Column)
    requires forall row :: row in rows ==> c < |row|
    ensures |col| == |rows|
  {
    seq(|rows|, r requires 0 <= r < |rows| => rows[r][c])
  }

  function Columns(rows: seq<Row>, width: nat): (cols: seq<Column>)
    requires forall row :: row in rows ==> |row| == width
    ensures |cols| == width && forall c :: c in cols ==> |c| == |rows|
  {
    seq(width, c requires 0 <= c < width => ColumnOf(rows, c))
  }

  ghost predicate AllGaps(col: Column) {
    forall r :: 0 <= r < |col| ==> col[r].Gap?
  }

  ghost predicate Table(cols: seq<Column>, n: nat) {
    forall c :: c in cols ==> |c| == n && !AllGaps(c)
  }

  /** Two rows of a table read side by side, dropping the columns where both have a gap. */
  function Project(x: Row, y: Row): seq<Pair>
    requires |x| == |y|
  {
    if x == [] then []
    else (if x[0].Gap? && y[0].Gap? then [] else [Pair(x[0], y[0])]) + Project(x[1..], y[1..])
  }

  function Gaps(n: nat): (c: Column)
    ensures |c| == n && AllGaps(c)
  {
    seq(n, k => Gap)
  }

  /** The first column of the merge of a table with `n` rows and an alignment of its anchor. */
  function MergeHead(n: nat, cols: seq<Column>, al: seq<Pair>): (head: Column)
    requires n > 0 && (forall c :: c in cols ==> |c| == n)
    requires |cols| + |al| > 0
    ensures |head| == n + 1
  {
    if cols != [] && (cols[0][0].Gap? || al == []) then cols[0] + [Gap]
    else if al[0].top.Gap? || cols == [] then Gaps(n) + [al[0].bottom]
    else cols[0] + [al[0].bottom]
  }

  function TakesColumn(n: nat, cols: seq<Column>, al: seq<Pair>): bool
    requires n > 0 && (forall c :: c in cols ==> |c| == n)
    requires |cols| + |al| > 0
  {
    cols != [] && (cols[0][0].Gap? || al == [] || al[0].top.Val?)
  }

  function TakesPair(n: nat, cols: seq<Column>, al: seq<Pair>): bool
    requires n > 0 && (forall c :: c in cols ==> |c| == n)
    requires |cols| + |al| > 0
  {
    al != [] && (cols == [] || cols[0][0].Val?)
  }

  /** Merges a table with an alignment of its anchor row against a new byte string. */
  function Merge(n: nat, cols: seq<Column>, al: seq<Pair>): (m: seq<Column>)
    requires n > 0 && (forall c :: c in cols ==> |c| == n)
    ensures forall c :: c in m ==> |c| == n + 1
    decreases |cols| + |al|
  {
    if |cols| + |al| == 0 then []
    else [MergeHead(n, cols, al)] + Merge(n, ColsLeft(n, cols, al), PairsLeft(n, cols, al))
  }

  /** The alignment's anchor side is the table's anchor row without its gaps. */
  ghost predicate Fits(n: nat, cols: seq<Column>, al: seq<Pair>) {
    && n > 0
    && Table(cols, n)
    && Degap(RowOf(cols, 0)) == Degap(Tops(al))
    && forall k :: 0 <= k < |al| ==> !(al[k].top.Gap? && al[k].bottom.Gap?)
  }

  /** What is left of the table and of the alignment once the first merged column is emitted. */
  function ColsLeft(n: nat, cols: seq<Column>, al: seq<Pair>): (rest: seq<Column>)
    requires n > 0 && (forall c :: c in cols ==> |c| == n)
    requires |cols| + |al| > 0
    ensures forall c :: c in rest ==> |c| == n
  {
    if TakesColumn(n, cols, al) then cols[1..] else cols
  }

  function PairsLeft(n: nat, cols: seq<Column>, al: seq<Pair>): seq<Pair>
    requires n > 0 && (forall c :: c in cols ==> |c| == n)
    requires |cols| + |al| > 0
  {
    if TakesPair(n, cols, al) then al[1..] else al
  }

  lemma {:induction false} DegapHead(row: Row)
    requires row != []
    ensures Degap(row) == Degap([row[0]]) + Degap(row[1..])
    ensures row[0].Val? ==> Degap(row) != [] && Degap(row)[0] == row[0].value && Degap(row)[1..] == Degap(row[1..])
    ensures row[0].Gap? ==> Degap(row) == Degap(row[1..])
  {
    assert row == [row[0]] + row[1..];
    DegapAppend([row[0]], row[1..]);
  }

  lemma {:induction false} RowTail(cols: seq<Column>, r: nat)
    requires cols != [] && forall x :: x in cols ==> r < |x|
    ensures RowOf(cols, r)[0] == cols[0][r] && RowOf(cols, r)[1..] == RowOf(cols[1..], r)
  {
  }

  lemma {:induction false} TopsTail(al: seq<Pair>)
    requires al != []
    ensures Tops(al)[0] == al[0].top && Tops(al)[1..] == Tops(al[1..])
  {
  }

  lemma {:induction false} FitsTail(n: nat, cols: seq<Column>, al: seq<Pair>)
    requires Fits(n, cols, al) && |cols| + |al| > 0
    ensures TakesColumn(n, cols, al) || TakesPair(n, cols, al)
    ensures al == [] ==> cols[0][0].Gap?
    ensures cols == [] ==> al[0].top.Gap?
    ensures cols != [] && al != [] && cols[0][0].Val? && al[0].top.Val? ==> cols[0][0] == al[0].top
    ensures Fits(n, ColsLeft(n, cols, al), PairsLeft(n, cols, al))
  {
    if cols != [] {
      RowTail(cols, 0);
      DegapHead(RowOf(cols, 0));
    }
    if al != [] {
      TopsTail(al);
      DegapHead(Tops(al));
    }
  }

  function ProjectOne(x: Cell, y: Cell): seq<Pair> {
    if x.Gap? && y.Gap? then [] else [Pair(x, y)]
  }

  lemma {:induction false} AddColumn(c: Column, cols: seq<Column>, i: nat, j: nat)
    requires i < |c| && j < |c| && forall x :: x in cols ==> i < |x| && j < |x|
    ensures Degap(RowOf([c] + cols, j)) == Degap([c[j]]) + Degap(RowOf(cols, j))
    ensures Project(RowOf([c] + cols, i), RowOf([c] + cols, j)) ==
              ProjectOne(c[i], c[j]) + Project(RowOf(cols, i), RowOf(cols, j))
  {
    assert RowOf([c] + cols, i) == [c[i]] + RowOf(cols, i);
    assert RowOf([c] + cols, j) == [c[j]] + RowOf(cols, j);
    DegapAppend([c[j]], RowOf(cols, j));
  }

  // ---- what merging keeps ----

  ghost predicate SameRow(x: seq<Column>, y: seq<Column>, r: nat)
    requires forall c :: c in x ==> r < |c|
    requires forall c :: c in y ==> r < |c|
  {
    && Degap(RowOf(x, r)) == Degap(RowOf(y, r))
    && Project(RowOf(x, 0), RowOf(x, r)) == Project(RowOf(y, 0), RowOf(y, r))
  }

  lemma {:induction false} SameRowStep(x: seq<Column>, y: seq<Column>, head: Column, was: Column, r: nat)
    requires r < |head| && r < |was|
    requires (forall c :: c in x ==> r < |c|) && (forall c :: c in y ==> r < |c|)
    requires SameRow(x, y, r)
    ensures head[0] == was[0] && head[r] == was[r] ==> SameRow([head] + x, [was] + y, r)
    ensures head[0].Gap? && head[r].Gap? ==> SameRow([head] + x, y, r)
  {
    AddColumn(head, x, 0, r);
    AddColumn(was, y, 0, r);
  }

  lemma {:induction false} OldRowStep(n: nat, cols: seq<Column>, al: seq<Pair>, rest: seq<Column>, r: nat)
    requires Fits(n, cols, al) && r < n && |cols| + |al| > 0
    requires (forall c :: c in rest ==> r < |c|) && SameRow(rest, ColsLeft(n, cols, al), r)
    ensures SameRow([MergeHead(n, cols, al)] + rest, cols, r)
  {
    hide SameRow;
    var head, cols' := MergeHead(n, cols, al), ColsLeft(n, cols, al);
    FitsTail(n, cols, al);
    if TakesColumn(n, cols, al) {
      assert cols == [cols[0]] + cols';
      SameRowStep(rest, cols', head, cols[0], r);
    } else {
      SameRowStep(rest, cols', head, head, r);
    }
  }

  /** Old rows keep their bytes and their alignment with the anchor. */
  lemma {:induction false} OldRowsKept(n: nat, cols: seq<Column>, al: seq<Pair>, r: nat)
    requires Fits(n, cols, al) && r < n
    ensures SameRow(Merge(n, cols, al), cols, r)
    decreases |cols| + |al|
  {
    if |cols| + |al| > 0 {
      FitsTail(n, cols, al);
      OldRowsKept(n, ColsLeft(n, cols, al), PairsLeft(n, cols, al), r);
      OldRowStep(n, cols, al, Merge(n, ColsLeft(n, cols, al), PairsLeft(n, cols, al)), r);
    }
  }

  ghost predicate Aligned(x: seq<Column>, n: nat, al: seq<Pair>)
    requires forall c :: c in x ==> n < |c|
  {
    && Degap(RowOf(x, n)) == Degap(Bottoms(al))
    && Project(RowOf(x, 0), RowOf(x, n)) == al
  }

  lemma {:induction false} AlignedStep(x: seq<Column>, n: nat, head: Column, p: Pair, al: seq<Pair>)
    requires n < |head| && (forall c :: c in x ==> n < |c|)
    requires Aligned(x, n, al)
    ensures head[0].Gap? && head[n].Gap? ==> Aligned([head] + x, n, al)
    ensures head[0] == p.top && head[n] == p.bottom && !(p.top.Gap? && p.bottom.Gap?) ==>
              Aligned([head] + x, n, [p] + al)
  {
    AddColumn(head, x, 0, n);
    BottomsCons(p, al);
  }

  lemma {:induction false} NewRowStep(n: nat, cols: seq<Column>, al: seq<Pair>, rest: seq<Column>)
    requires Fits(n, cols, al) && |cols| + |al| > 0
    requires (forall c :: c in rest ==> n < |c|) && Aligned(rest, n, PairsLeft(n, cols, al))
    ensures Aligned([MergeHead(n, cols, al)] + rest, n, al)
  {
    hide Aligned, Project, Degap, RowOf, Bottoms;
    FitsTail(n, cols, al);
    var head, al' := MergeHead(n, cols, al), PairsLeft(n, cols, al);
    if TakesPair(n, cols, al) {
      assert al == [al[0]] + al';
      AlignedStep(rest, n, head, al[0], al');
    } else {
      AlignedStep(rest, n, head, Pair(Gap, Gap), al');
    }
  }

  /** The new row holds exactly the new bytes, aligned with the anchor as `al` says. */
  lemma {:induction false} NewRowAligned(n: nat, cols: seq<Column>, al: seq<Pair>)
    requires Fits(n, cols, al)
    ensures Aligned(Merge(n, cols, al), n, al)
    decreases |cols| + |al|
  {
    if |cols| + |al| > 0 {
      FitsTail(n, cols, al);
      NewRowAligned(n, ColsLeft(n, cols, al), PairsLeft(n, cols, al));
      NewRowStep(n, cols, al, Merge(n, ColsLeft(n, cols, al), PairsLeft(n, cols, al)));
    }
  }

  lemma {:induction false} BottomsCons(p: Pair, al: seq<Pair>)
    ensures Degap(Bottoms([p] + al)) == Degap([p.bottom]) + Degap(Bottoms(al))
  {
    assert Bottoms([p] + al) == [p.bottom] + Bottoms(al);
    DegapAppend([p.bottom], Bottoms(al));
  }

  /** No merged column is all gaps. */
  lemma {:induction false} MergeIsTable(n: nat, cols: seq<Column>, al: seq<Pair>)
    requires Fits(n, cols, al)
    ensures Table(Merge(n, cols, al), n + 1)
    decreases |cols| + |al|
  {
    if |cols| + |al| > 0 {
      FitsTail(n, cols, al);
      var head := MergeHead(n, cols, al);
      if TakesColumn(n, cols, al) {
        var r :| 0 <= r < n && !cols[0][r].Gap?;
        assert head[r] == cols[0][r];
      } else {
        assert head[n] == al[0].bottom;
      }
      MergeIsTable(n, ColsLeft(n, cols, al), PairsLeft(n, cols, al));
    }
  }

  /** The first `n` rows of a table, without the columns those rows leave empty. */
  ghost function Restrict(cols: seq<Column>, n: nat): seq<Column>
    requires forall c :: c in cols ==> n <= |c|
  {
    if cols == [] then []
    else (if AllGaps(cols[0][..n]) then [] else [cols[0][..n]]) + Restrict(cols[1..], n)
  }

  lemma {:induction false} RestrictStep(n: nat, head: Column, rest: seq<Column>)
    requires n <= |head| && forall c :: c in rest ==> n <= |c|
    ensures Restrict([head] + rest, n) == (if AllGaps(head[..n]) then [] else [head[..n]]) + Restrict(rest, n)
  {
    assert ([head] + rest)[1..] == rest;
  }

  lemma {:induction false} RestrictHead(n: nat, cols: seq<Column>, al: seq<Pair>)
    requires Fits(n, cols, al) && |cols| + |al| > 0
    ensures var h := MergeHead(n, cols, al)[..n];
            cols == (if AllGaps(h) then [] else [h]) + ColsLeft(n, cols, al)
  {
    FitsTail(n, cols, al);
    var head := MergeHead(n, cols, al);
    if TakesColumn(n, cols, al) {
      assert head[..n] == cols[0] && cols[0] in cols;
    } else {
      assert head[..n] == Gaps(n);
    }
  }

  /** Merging only adds columns: without them the old table is still there, in order. */
  lemma {:induction false} MergeExtends(n: nat, cols: seq<Column>, al: seq<Pair>)
    requires Fits(n, cols, al)
    ensures Restrict(Merge(n, cols, al), n) == cols
    decreases |cols| + |al|
  {
    if |cols| + |al| > 0 {
      FitsTail(n, cols, al);
      MergeExtends(n, ColsLeft(n, cols, al), PairsLeft(n, cols, al));
      RestrictStep(n, MergeHead(n, cols, al), Merge(n, ColsLeft(n, cols, al), PairsLeft(n, cols, al)));
      RestrictHead(n, cols, al);
    }
  }

  // ---- the imperative merge ----

  /** Rows built so far hold the columns `done`. */
  ghost predicate Built(newRows: seq<Row>, newAnchor: Row, newSeqRow: Row, done: seq<Column>, n: nat) {
    && n > 0 && |newRows| == n
    && (forall c :: c in done ==> |c| == n + 1)
    && (forall r :: 0 <= r < n ==> newRows[r] == RowOf(done, r))
    && newAnchor == RowOf(done, 0)
    && newSeqRow == RowOf(done, n)
  }

  lemma {:induction false} RowSnoc(done: seq<Column>, col: Column, r: nat)
    requires r < |col| && forall c :: c in done ==> r < |c|
    ensures RowOf(done + [col], r) == RowOf(done, r) + [col[r]]
  {
  }

  /** Appends one column: a cell to every old row, one to the anchor, one to the new row. */
  method Emit(newRows: seq<Row>, newAnchor: Row, newSeqRow: Row, col: Column, cell: Cell, ghost done: seq<Column>)
    returns (rs: seq<Row>, an: Row, sr: Row)
    requires Built(newRows, newAnchor, newSeqRow, done, |newRows|)
    requires |col| == |newRows|
    ensures Built(rs, an, sr, done + [col + [cell]], |newRows|)
  {
    rs := newRows;
    for r := 0 to |newRows|
      invariant |rs| == |newRows|
      invariant forall k :: 0 <= k < r ==> rs[k] == newRows[k] + [col[k]]
      invariant forall k :: r <= k < |rs| ==> rs[k] == newRows[k]
    {
      rs := rs[r := rs[r] + [col[r]]];
    }
    an, sr := newAnchor + [col[0]], newSeqRow + [cell];
    forall r | 0 <= r <= |newRows|
      ensures RowOf(done + [col + [cell]], r) == RowOf(done, r) + [(col + [cell])[r]]
    {
      RowSnoc(done, col + [cell], r);
    }
  }

  /** `done` is what `total` holds once the table is consumed up to column `p` and the alignment up to pair `t`. */
  ghost predicate Pending(n: nat, cols: seq<Column>, p: nat, al: seq<Pair>, t: nat, done: seq<Column>,
                          total: seq<Column>) {
    && n > 0 && (forall c :: c in cols ==> |c| == n)
    && p <= |cols| && t <= |al|
    && total == done + Merge(n, cols[p..], al[t..])
  }

  /** A leading gap column of the anchor is emitted before anything else. */
  lemma {:induction false} GapStep(n: nat, cols: seq<Column>, p: nat, al: seq<Pair>, t: nat, done: seq<Column>,
                                   total: seq<Column>)
    requires Pending(n, cols, p, al, t, done, total)
    requires p < |cols| && cols[p][0].Gap?
    ensures Pending(n, cols, p + 1, al, t, done + [cols[p] + [Gap]], total)
  {
    assert cols[p..][0] == cols[p] && cols[p..][1..] == cols[p + 1..];
  }

  /** Otherwise the next pair of the alignment decides: a fresh gap column, or the table's byte column. */
  lemma {:induction false} PairStep(n: nat, cols: seq<Column>, p: nat, al: seq<Pair>, t: nat, done: seq<Column>,
                                    total: seq<Column>)
    requires Pending(n, cols, p, al, t, done, total)
    requires t < |al| && (p < |cols| ==> cols[p][0].Val?)
    ensures al[t].top.Gap? ==> Pending(n, cols, p, al, t + 1, done + [Gaps(n) + [al[t].bottom]], total)
    ensures al[t].top.Val? && p < |cols| ==>
              Pending(n, cols, p + 1, al, t + 1, done + [cols[p] + [al[t].bottom]], total)
  {
    var rest, als := cols[p..], al[t..];
    assert als[0] == al[t] && als[1..] == al[t + 1..];
    if p < |cols| {
      assert rest[0] == cols[p] && rest[1..] == cols[p + 1..];
    }
    MergeUnfolds(n, rest, als);
    Assoc(done, MergeHead(n, rest, als), Merge(n, ColsLeft(n, rest, als), PairsLeft(n, rest, als)));
  }

  lemma {:induction false} MergeUnfolds(n: nat, cols: seq<Column>, al: seq<Pair>)
    requires n > 0 && (forall c :: c in cols ==> |c| == n)
    requires |cols| + |al| > 0
    ensures Merge(n, cols, al) == [MergeHead(n, cols, al)] + Merge(n, ColsLeft(n, cols, al), PairsLeft(n, cols, al))
  {
  }

  lemma {:induction false} Assoc<T>(x: seq<T>, y: T, z: seq<T>)
    ensures x + ([y] + z) == (x + [y]) + z
  {
  }

  /** Copies the table's gap columns `from..target`, giving the new row a gap in each. */
  method EmitGapColumns(rows: seq<Row>, from: nat, target: nat, newRows: seq<Row>, newAnchor: Row, newSeqRow: Row,
                        ghost cols: seq<Column>, ghost al: seq<Pair>, ghost t: nat, ghost done0: seq<Column>,
                        ghost total: seq<Column>)
    returns (rs: seq<Row>, an: Row, sr: Row, prevCol: nat, ghost done: seq<Column>)
    requires |rows| > 0 && (forall row :: row in rows ==> |row| == |rows[0]|)
    requires from <= target <= |rows[0]| && cols == Columns(rows, |rows[0]|)
    requires forall c :: from <= c < target ==> rows[0][c].Gap?
    requires Built(newRows, newAnchor, newSeqRow, done0, |rows|)
    requires Pending(|rows|, cols, from, al, t, done0, total)
    ensures prevCol == target
    ensures Built(rs, an, sr, done, |rows|)
    ensures Pending(|rows|, cols, target, al, t, done, total)
  {
    hide Pending;
    rs, an, sr, prevCol, done := newRows, newAnchor, newSeqRow, from, done0;
    while prevCol < target
      invariant from <= prevCol <= target
      invariant Built(rs, an, sr, done, |rows|)
      invariant Pending(|rows|, cols, prevCol, al, t, done, total)
    {
      GapStep(|rows|, cols, prevCol, al, t, done, total);
      rs, an, sr := Emit(rs, an, sr, ColumnOf(rows, prevCol), Gap, done);
      done := done + [cols[prevCol] + [Gap]];
      prevCol := prevCol + 1;
    }
  }

  /** `colOf` lists, in order, exactly the positions of `row` that hold a byte. */
  ghost predicate BytePositions(row: Row, compact: seq<byte>, colOf: seq<nat>) {
    && |colOf| == |compact|
    && (forall k :: 0 <= k < |colOf| ==> colOf[k] < |row| && row[colOf[k]] == Val(compact[k]))
    && (forall k, c :: 0 <= k <= |colOf| && GapStart(colOf, k) <= c < GapEnd(row, colOf, k) ==> row[c].Gap?)
    && (forall k :: 0 <= k <= |colOf| ==> GapInRow(row, colOf, k))
  }

  ghost predicate GapInRow(row: Row, colOf: seq<nat>, k: nat)
    requires k <= |colOf|
  {
    GapStart(colOf, k) <= GapEnd(row, colOf, k) <= |row|
  }

  ghost function GapStart(colOf: seq<nat>, k: nat): nat
    requires k <= |colOf|
  {
    if k == 0 then 0 else colOf[k - 1] + 1
  }

  ghost function GapEnd(row: Row, colOf: seq<nat>, k: nat): nat
    requires k <= |colOf|
  {
    if k < |colOf| then colOf[k] else |row|
  }

  lemma {:induction false} PositionsGrow(row: Row, c: nat, compact: seq<byte>, colOf: seq<nat>)
    requires c < |row| && BytePositions(row[..c], compact, colOf)
    ensures row[c].Gap? ==> BytePositions(row[..c + 1], compact, colOf)
    ensures row[c].Val? ==> BytePositions(row[..c + 1], compact + [row[c].value], colOf + [c])
  {
    var n, row' := |colOf|, row[..c + 1];
    if row[c].Val? {
      var colOf' := colOf + [c];
      forall k, d | 0 <= k <= n + 1 && GapStart(colOf', k) <= d < GapEnd(row', colOf', k)
        ensures row'[d].Gap?
      {
        if k <= n {
          assert GapStart(colOf', k) == GapStart(colOf, k) && GapEnd(row', colOf', k) == GapEnd(row[..c], colOf, k);
          assert row[..c][d].Gap?;
        }
      }
      forall k | 0 <= k <= n + 1
        ensures GapInRow(row', colOf', k)
      {
        if k <= n {
          assert GapInRow(row[..c], colOf, k);
        }
      }
    } else {
      forall k, d | 0 <= k <= n && GapStart(colOf, k) <= d < GapEnd(row', colOf, k)
        ensures row'[d].Gap?
      {
        if d < c {
          assert GapStart(colOf, k) <= d < GapEnd(row[..c], colOf, k);
          assert row[..c][d].Gap?;
        }
      }
      forall k | 0 <= k <= n
        ensures GapInRow(row', colOf, k)
      {
        assert GapInRow(row[..c], colOf, k);
      }
    }
  }

  method Compact(row: Row) returns (compact: seq<byte>, colOf: seq<nat>)
    ensures compact == Degap(row)
    ensures BytePositions(row, compact, colOf)
  {
    compact, colOf := [], [];
    for c := 0 to |row|
      invariant compact == Degap(row[..c])
      invariant BytePositions(row[..c], compact, colOf)
    {
      assert row[..c + 1] == row[..c] + [row[c]];
      DegapAppend(row[..c], [row[c]]);
      PositionsGrow(row, c, compact, colOf);
      if row[c].Val? {
        compact, colOf := compact + [row[c].value], colOf + [c];
      }
    }
    assert row[..|row|] == row;
  }

  /** Position `p` is before the `k`-th byte of the row and past all earlier ones. */
  ghost predicate Between(row: Row, colOf: seq<nat>, k: nat, p: nat) {
    k <= |colOf| && GapStart(colOf, k) <= p <= GapEnd(row, colOf, k)
  }

  lemma {:induction false} NextByte(row: Row, compact: seq<byte>, colOf: seq<nat>, k: nat, p: nat, aligned: seq<Cell>,
                                    t: nat)
    requires BytePositions(row, compact, colOf) && Between(row, colOf, k, p)
    requires t < |aligned| && Degap(aligned[t..]) == compact[k..]
    ensures aligned[t].Gap? ==> Degap(aligned[t + 1..]) == compact[k..]
    ensures aligned[t].Val? ==> k < |colOf| && aligned[t] == row[colOf[k]]
                                && Between(row, colOf, k + 1, colOf[k] + 1)
                                && Degap(aligned[t + 1..]) == compact[k + 1..]
    ensures forall c :: p <= c < GapEnd(row, colOf, k) ==> row[c].Gap?
    ensures k < |colOf| ==> row[GapEnd(row, colOf, k)].Val?
  {
    DegapHead(aligned[t..]);
    assert aligned[t..][1..] == aligned[t + 1..];
    if aligned[t].Val? {
      assert k < |compact|;
      assert GapInRow(row, colOf, k + 1);
    }
  }

  /** One turn of the merge loop: the anchor's pending gap columns, then the pair itself. */
  method EmitPair(rows: seq<Row>, prevCol0: nat, target: nat, a: Cell, b: Cell, newRows: seq<Row>, newAnchor: Row,
                  newSeqRow: Row, ghost cols: seq<Column>, ghost al: seq<Pair>, ghost t: nat,
                  ghost done0: seq<Column>, ghost total: seq<Column>)
    returns (rs: seq<Row>, an: Row, sr: Row, prevCol: nat, ghost done: seq<Column>)
    requires |rows| > 0 && (forall row :: row in rows ==> |row| == |rows[0]|)
    requires prevCol0 <= target <= |rows[0]| && cols == Columns(rows, |rows[0]|)
    requires forall c :: prevCol0 <= c < target ==> rows[0][c].Gap?
    requires target < |rows[0]| ==> rows[0][target].Val?
    requires a.Val? ==> target < |rows[0]|
    requires t < |al| && al[t] == Pair(a, b)
    requires Built(newRows, newAnchor, newSeqRow, done0, |rows|)
    requires Pending(|rows|, cols, prevCol0, al, t, done0, total)
    ensures prevCol == if a.Gap? then target else target + 1
    ensures Built(rs, an, sr, done, |rows|)
    ensures Pending(|rows|, cols, prevCol, al, t + 1, done, total)
  {
    rs, an, sr, prevCol, done :=
      EmitGapColumns(rows, prevCol0, target, newRows, newAnchor, newSeqRow, cols, al, t, done0, total);
    PairStep(|rows|, cols, target, al, t, done, total);
    if a.Gap? {
      rs, an, sr := Emit(rs, an, sr, Gaps(|rows|), b, done);
      done := done + [Gaps(|rows|) + [b]];
    } else {
      rs, an, sr := Emit(rs, an, sr, ColumnOf(rows, target), b, done);
      done := done + [cols[target] + [b]];
      prevCol := target + 1;
    }
  }

  lemma {:induction false} PendingDone(n: nat, cols: seq<Column>, al: seq<Pair>, done: seq<Column>, total: seq<Column>)
    requires Pending(n, cols, |cols|, al, |al|, done, total)
    ensures done == total
  {
  }

  lemma {:induction false} NothingLeft(row: Row, compact: seq<byte>, colOf: seq<nat>, k: nat, p: nat,
                                       aligned: seq<Cell>)
    requires BytePositions(row, compact, colOf) && Between(row, colOf, k, p)
    requires Degap(aligned[|aligned|..]) == compact[k..]
    ensures forall c :: p <= c < |row| ==> row[c].Gap?
    ensures p <= |row|
  {
  }

  lemma {:induction false} BuiltRows(rs: seq<Row>, an: Row, sr: Row, done: seq<Column>, n: nat)
    requires Built(rs, an, sr, done, n)
    ensures an == RowOf(done, 0)
    ensures forall r :: 0 <= r <= n ==> (rs + [sr])[r] == RowOf(done, r)
  {
  }

  /** The state of the merge loop before pair `t`. */
  ghost predicate Turn(rows: seq<Row>, compact: seq<byte>, colOf: seq<nat>, alignedA: Row, t: nat, prevCol: nat,
                       compI: nat) {
    && |rows| > 0 && (forall row :: row in rows ==> |row| == |rows[0]|)
    && BytePositions(rows[0], compact, colOf)
    && Between(rows[0], colOf, compI, prevCol)
    && t <= |alignedA| && Degap(alignedA[t..]) == compact[compI..]
  }

  method MergeTurn(rows: seq<Row>, ghost compact: seq<byte>, colOf: seq<nat>, alignedA: Row, alignedB: Row, t: nat,
                   prevCol0: nat, compI0: nat, newRows: seq<Row>, newAnchor: Row, newSeqRow: Row,
                   ghost cols: seq<Column>, ghost al: seq<Pair>, ghost done0: seq<Column>, ghost total: seq<Column>)
    returns (rs: seq<Row>, an: Row, sr: Row, prevCol: nat, compI: nat, ghost done: seq<Column>)
    requires Turn(rows, compact, colOf, alignedA, t, prevCol0, compI0) && t < |alignedA|
    requires alignedA == Tops(al) && alignedB == Bottoms(al)
    requires cols == Columns(rows, |rows[0]|)
    requires Built(newRows, newAnchor, newSeqRow, done0, |rows|)
    requires Pending(|rows|, cols, prevCol0, al, t, done0, total)
    ensures Turn(rows, compact, colOf, alignedA, t + 1, prevCol, compI)
    ensures Built(rs, an, sr, done, |rows|)
    ensures Pending(|rows|, cols, prevCol, al, t + 1, done, total)
  {
    NextByte(rows[0], compact, colOf, compI0, prevCol0, alignedA, t);
    var target := if compI0 < |colOf| then colOf[compI0] else |rows[0]|;
    rs, an, sr, prevCol, done :=
      EmitPair(rows, prevCol0, target, alignedA[t], alignedB[t], newRows, newAnchor, newSeqRow, cols, al, t, done0,
               total);
    compI := if alignedA[t].Gap? then compI0 else compI0 + 1;
  }

  /** Walks the alignment of the anchor's bytes, building the merged rows column by column. */
  method MergeColumns(rows: seq<Row>, compact: seq<byte>, colOf: seq<nat>, alignedA: Row, alignedB: Row,
                      ghost al: seq<Pair>)
    returns (rs: seq<Row>, an: Row, sr: Row, ghost done: seq<Column>)
    requires Turn(rows, compact, colOf, alignedA, 0, 0, 0)
    requires alignedA == Tops(al) && alignedB == Bottoms(al)
    ensures done == Merge(|rows|, Columns(rows, |rows[0]|), al)
    ensures Built(rs, an, sr, Merge(|rows|, Columns(rows, |rows[0]|), al), |rows|)
  {
    ghost var cols := Columns(rows, |rows[0]|);
    ghost var total := Merge(|rows|, cols, al);
    done, rs, an, sr := [], seq(|rows|, r => []), [], [];
    var prevCol, compI := 0, 0;
    assert cols[0..] == cols && al[0..] == al;
    for t := 0 to |alignedA|
      invariant Turn(rows, compact, colOf, alignedA, t, prevCol, compI)
      invariant Built(rs, an, sr, done, |rows|)
      invariant Pending(|rows|, cols, prevCol, al, t, done, total)
    {
      rs, an, sr, prevCol, compI, done :=
        MergeTurn(rows, compact, colOf, alignedA, alignedB, t, prevCol, compI, rs, an, sr, cols, al, done, total);
    }
    NothingLeft(rows[0], compact, colOf, compI, prevCol, alignedA);
    rs, an, sr, prevCol, done := EmitGapColumns(rows, prevCol, |rows[0]|, rs, an, sr, cols, al, |al|, done, total);
    PendingDone(|rows|, cols, al, done, total);
  }

  /**
   Aligns `newSeq` with the anchor's bytes and merges it into the table. The new table's columns are
   those of `Merge`, the last row being the new one.
   */
  method AlignAndMerge(rows: seq<Row>, prevAnchor: Row, newSeq: seq<byte>)
    returns (newAnchor: Row, newRows: seq<Row>, ghost merged: seq<Column>)
    requires |rows| > 0 && rows[0] == prevAnchor && forall row :: row in rows ==> |row| == |prevAnchor|
    ensures merged == Merge(|rows|, Columns(rows, |prevAnchor|), Align(DEFAULT_SCORING, Degap(prevAnchor), newSeq))
    ensures newAnchor == RowOf(merged, 0)
    ensures |newRows| == |rows| + 1
    ensures forall r :: 0 <= r <= |rows| ==> newRows[r] == RowOf(merged, r)
  {
    var compact, colOf := Compact(prevAnchor);
    var alignedA, alignedB := NeedlemanWunsch(DEFAULT_SCORING, compact, newSeq);
    assert alignedA[0..] == alignedA && compact[0..] == compact;
    var rs, an, sr;
    rs, an, sr, merged := MergeColumns(rows, compact, colOf, alignedA, alignedB,
                                       Align(DEFAULT_SCORING, compact, newSeq));
    newAnchor, newRows := an, rs + [sr];
    BuiltRows(rs, an, sr, merged, |rows|);
  }

  // ---- the whole table ----

  /** The rows of a table given by its columns. */
  ghost predicate IsRows(rows: seq<Row>, cols: seq<Column>) {
    && |rows| > 0
    && (forall c :: c in cols ==> |c| == |rows|)
    && (forall r :: 0 <= r < |rows| ==> rows[r] == RowOf(cols, r))
  }

  /** Row `k` spells byte string `k`, and beside the anchor row it reads as their pairwise alignment. */
  ghost predicate FaithfulRow(cols: seq<Column>, seqs: seq<seq<byte>>, k: nat)
    requires k < |seqs| && forall c :: c in cols ==> |c| == |seqs|
  {
    && Degap(RowOf(cols, k)) == seqs[k]
    && (k >= 1 ==> Project(RowOf(cols, 0), RowOf(cols, k)) == Align(DEFAULT_SCORING, seqs[0], seqs[k]))
  }

  /** What a table says about the byte strings it aligns; no column is all gaps. */
  ghost predicate Faithful(cols: seq<Column>, seqs: seq<seq<byte>>) {
    && |seqs| > 0
    && Table(cols, |seqs|)
    && (forall k :: 0 <= k < |seqs| ==> FaithfulRow(cols, seqs, k))
  }

  /**
   The table is the anchor's bytes, one to a column, with the other byte strings merged in one after the
   other, each by its own alignment with the anchor.
   */
  ghost predicate Stacked(cols: seq<Column>, seqs: seq<seq<byte>>)
    decreases |seqs|
  {
    if |seqs| == 0 then false
    else if |seqs| == 1 then
      |cols| == |seqs[0]| && forall c :: 0 <= c < |cols| ==> cols[c] == [Val(seqs[0][c])]
    else
      var n := |seqs| - 1;
      exists before ::
        && Stacked(before, seqs[..n]) && Table(before, n)
        && cols == Merge(n, before, Align(DEFAULT_SCORING, seqs[0], seqs[n]))
  }

  lemma {:induction false} StackOneMore(cols: seq<Column>, seqs: seq<seq<byte>>, newSeq: seq<byte>)
    requires Stacked(cols, seqs) && Table(cols, |seqs|)
    ensures Stacked(Merge(|seqs|, cols, Align(DEFAULT_SCORING, seqs[0], newSeq)), seqs + [newSeq])
  {
    hide Merge, Align, Table;
    assert (seqs + [newSeq])[..|seqs|] == seqs;
  }

  /** Every row is, beside the anchor, an alignment that no other beats by count. */
  ghost predicate RowsAreBest(cols: seq<Column>, seqs: seq<seq<byte>>)
    requires seqs != [] && forall c :: c in cols ==> |c| == |seqs|
  {
    forall k :: 1 <= k < |seqs| ==> BestByCount(Project(RowOf(cols, 0), RowOf(cols, k)), seqs[0], seqs[k])
  }

  lemma {:induction false} FaithfulIsBest(cols: seq<Column>, seqs: seq<seq<byte>>)
    requires Faithful(cols, seqs)
    ensures RowsAreBest(cols, seqs)
  {
    hide BestByCount, Align, Project;
    forall k | 1 <= k < |seqs|
      ensures BestByCount(Project(RowOf(cols, 0), RowOf(cols, k)), seqs[0], seqs[k])
    {
      assert FaithfulRow(cols, seqs, k);
      DefaultIsBestByCount(seqs[0], seqs[k]);
    }
  }

  lemma {:induction false} ColumnsOfRows(rows: seq<Row>, cols: seq<Column>)
    requires IsRows(rows, cols)
    ensures forall row :: row in rows ==> |row| == |cols|
    ensures Columns(rows, |cols|) == cols
  {
    forall c | 0 <= c < |cols|
      ensures Columns(rows, |cols|)[c] == cols[c]
    {
      assert forall r :: 0 <= r < |rows| ==> rows[r][c] == cols[c][r];
    }
  }

  lemma {:induction false} DegapVals(s: seq<byte>)
    ensures Degap(seq(|s|, i requires 0 <= i < |s| => Val(s[i]))) == s
    decreases |s|
  {
    var row := seq(|s|, i requires 0 <= i < |s| => Val(s[i]));
    if s != [] {
      DegapVals(s[1..]);
      assert row[1..] == seq(|s[1..]|, i requires 0 <= i < |s[1..]| => Val(s[1..][i]));
    }
  }

  lemma {:induction false} FaithfulFits(cols: seq<Column>, seqs: seq<seq<byte>>, newSeq: seq<byte>)
    requires Faithful(cols, seqs)
    ensures Fits(|seqs|, cols, Align(DEFAULT_SCORING, seqs[0], newSeq))
  {
    assert FaithfulRow(cols, seqs, 0);
    AlignIsOptimal(DEFAULT_SCORING, seqs[0], newSeq);
  }

  lemma {:induction false} OldRowStaysFaithful(cols: seq<Column>, seqs: seq<seq<byte>>, newSeq: seq<byte>, k: nat)
    requires Faithful(cols, seqs) && k < |seqs|
    ensures FaithfulRow(Merge(|seqs|, cols, Align(DEFAULT_SCORING, seqs[0], newSeq)), seqs + [newSeq], k)
  {
    assert FaithfulRow(cols, seqs, k);
    FaithfulFits(cols, seqs, newSeq);
    OldRowsKept(|seqs|, cols, Align(DEFAULT_SCORING, seqs[0], newSeq), k);
  }

  lemma {:induction false} NewRowFaithful(cols: seq<Column>, seqs: seq<seq<byte>>, newSeq: seq<byte>)
    requires Faithful(cols, seqs)
    ensures FaithfulRow(Merge(|seqs|, cols, Align(DEFAULT_SCORING, seqs[0], newSeq)), seqs + [newSeq], |seqs|)
  {
    FaithfulFits(cols, seqs, newSeq);
    NewRowAligned(|seqs|, cols, Align(DEFAULT_SCORING, seqs[0], newSeq));
    AlignIsOptimal(DEFAULT_SCORING, seqs[0], newSeq);
  }

  /** Merging one more byte string keeps every earlier pairwise alignment and adds the new one. */
  lemma {:induction false} MergeStaysFaithful(cols: seq<Column>, seqs: seq<seq<byte>>, newSeq: seq<byte>)
    requires Faithful(cols, seqs)
    ensures Faithful(Merge(|seqs|, cols, Align(DEFAULT_SCORING, seqs[0], newSeq)), seqs + [newSeq])
  {
    hide FaithfulRow, Merge, Align;
    FaithfulFits(cols, seqs, newSeq);
    MergeIsTable(|seqs|, cols, Align(DEFAULT_SCORING, seqs[0], newSeq));
    forall k | 0 <= k < |seqs| + 1
      ensures FaithfulRow(Merge(|seqs|, cols, Align(DEFAULT_SCORING, seqs[0], newSeq)), seqs + [newSeq], k)
    {
      if k < |seqs| {
        OldRowStaysFaithful(cols, seqs, newSeq, k);
      } else {
        NewRowFaithful(cols, seqs, newSeq);
      }
    }
  }

  lemma {:induction false} AnchorAlone(row: Row, s: seq<byte>)
    requires row == seq(|s|, i requires 0 <= i < |s| => Val(s[i]))
    ensures IsRows([row], Columns([row], |row|))
    ensures Faithful(Columns([row], |row|), [s]) && Stacked(Columns([row], |row|), [s])
  {
    DegapVals(s);
    var cols := Columns([row], |row|);
    assert RowOf(cols, 0) == row;
    forall c: Column | c in cols
      ensures |c| == 1 && !AllGaps(c)
    {
      var i :| 0 <= i < |row| && c == ColumnOf([row], i);
      assert c[0] == row[i];
    }
  }

  /** Merges one frame into a faithful table. */
  method MergeFrame(rows0: seq<Row>, anchor0: Row, newSeq: seq<byte>, ghost cols0: seq<Column>,
                    ghost seqs: seq<seq<byte>>)
    returns (rows: seq<Row>, anchorRow: Row, ghost cols: seq<Column>)
    requires IsRows(rows0, cols0) && Faithful(cols0, seqs) && |rows0| == |seqs| && anchor0 == rows0[0]
    requires Stacked(cols0, seqs)
    ensures IsRows(rows, cols) && Faithful(cols, seqs + [newSeq]) && |rows| == |seqs| + 1 && anchorRow == rows[0]
    ensures Stacked(cols, seqs + [newSeq])
  {
    ColumnsOfRows(rows0, cols0);
    assert FaithfulRow(cols0, seqs, 0);
    MergeStaysFaithful(cols0, seqs, newSeq);
    StackOneMore(cols0, seqs, newSeq);
    hide Stacked;
    anchorRow, rows, cols := AlignAndMerge(rows0, anchor0, newSeq);
  }

  /**
   The rows of the alignment table of the selected byte strings, each cut to `maxFrameSize`. Beside the
   anchor every row still reads as its own pairwise alignment, however many rows came later, and that
   alignment is the best one by count.
   */
  method AlignRows(selected: seq<seq<byte>>, maxFrameSize: int)
    returns (rows: seq<Row>, trimmed: seq<seq<byte>>, ghost cols: seq<Column>)
    requires selected != []
    ensures |rows| == |trimmed| == |selected|
    ensures forall k :: 0 <= k < |trimmed| ==> trimmed[k] == Head(selected[k], maxFrameSize)
    ensures IsRows(rows, cols) && Faithful(cols, trimmed)
    ensures Stacked(cols, trimmed) && RowsAreBest(cols, trimmed)
  {
    trimmed := seq(|selected|, k requires 0 <= k < |selected| => Head(selected[k], maxFrameSize));
    hide *;
    rows, cols := AlignTrimmed(trimmed);
  }

  lemma {:induction false} OneMore<T>(s: seq<T>, k: nat)
    requires k < |s|
    ensures |s[..k]| == k && s[..k + 1] == s[..k] + [s[k]]
    ensures k + 1 == |s| ==> s[..k + 1] == s
  {
  }

  method AlignTrimmed(trimmed: seq<seq<byte>>) returns (rows: seq<Row>, ghost cols: seq<Column>)
    requires trimmed != []
    ensures |rows| == |trimmed|
    ensures IsRows(rows, cols) && Faithful(cols, trimmed)
    ensures Stacked(cols, trimmed) && RowsAreBest(cols, trimmed)
  {
    hide *;
    OneMore(trimmed, 0);
    var anchorRow;
    rows, anchorRow, cols := StartTable(trimmed[0]);
    ghost var seqs := [trimmed[0]];
    for k := 1 to |trimmed|
      invariant seqs == trimmed[..k]
      invariant IsRows(rows, cols) && Faithful(cols, seqs) && |rows| == |seqs| == k && rows[0] == anchorRow
      invariant Stacked(cols, seqs)
    {
      OneMore(trimmed, k);
      rows, anchorRow, cols := MergeFrame(rows, anchorRow, trimmed[k], cols, seqs);
      seqs := seqs + [trimmed[k]];
    }
    OneMore(trimmed, |trimmed| - 1);
    FaithfulIsBest(cols, trimmed);
  }

  /** The table of the anchor alone. */
  method StartTable(anchor: seq<byte>) returns (rows: seq<Row>, anchorRow: Row, ghost cols: seq<Column>)
    ensures rows == [anchorRow] && IsRows(rows, cols) && Faithful(cols, [anchor]) && Stacked(cols, [anchor])
  {
    anchorRow := seq(|anchor|, i requires 0 <= i < |anchor| => Val(anchor[i]));
    rows := [anchorRow];
    cols := Columns(rows, |anchorRow|);
    AnchorAlone(anchorRow, anchor);
  }

  // ---- consensus and variable regions ----

  datatype Token = Agreed(value: byte) | Varies | SomeGap

  datatype RegionKind = DifferRegion | GapRegion

  ghost predicate HasGap(col: Column) {
    exists r :: 0 <= r < |col| && col[r].Gap?
  }

  /** What the consensus line and the region list must say about one column. */
  ghost predicate Describes(col: Column, token: Token, kind: Option<RegionKind>) {
    && (HasGap(col) <==> token == SomeGap)
    && (HasGap(col) <==> kind == Some(GapRegion))
    && (token.Agreed? <==> kind.None?)
    && (token.Agreed? ==> forall r :: 0 <= r < |col| ==> col[r] == Val(token.value))
    && (token.Varies? ==> exists r :: 0 <= r < |col| && col[r] != col[0])
  }

  method DescribeColumn(col: Column) returns (token: Token, kind: Option<RegionKind>)
    requires |col| > 0 && !AllGaps(col)
    ensures Describes(col, token, kind)
  {
    var anyGap, allGaps, same := false, true, true;
    for r := 0 to |col|
      invariant anyGap <==> exists k :: 0 <= k < r && col[k].Gap?
      invariant allGaps <==> forall k :: 0 <= k < r ==> col[k].Gap?
      invariant same <==> forall k :: 0 <= k < r ==> col[k] == col[0]
    {
      anyGap := anyGap || col[r].Gap?;
      allGaps := allGaps && col[r].Gap?;
      same := same && col[r] == col[0];
    }
    if anyGap {
      if allGaps {
        assert false; // no column of the table is all gaps
      }
      return SomeGap, Some(GapRegion);
    }
    if same {
      return Agreed(col[0].value), None;
    }
    return Varies, Some(DifferRegion);
  }

  lemma {:induction false} TableOfFaithful(rows: seq<Row>, seqs: seq<seq<byte>>, cols: seq<Column>)
    requires IsRows(rows, cols) && Faithful(cols, seqs) && |rows| == |seqs|
    ensures Table(cols, |rows|)
    ensures (forall row :: row in rows ==> |row| == |cols|) && Columns(rows, |cols|) == cols
  {
    ColumnsOfRows(rows, cols);
  }

  /**
   The whole report: rows, consensus line, and the maximal runs of differing or gapped columns. Given
   frames but a limit that selects none of them, there is no anchor to align with and no report.
   */
  method AlignFrames(frames: seq<seq<byte>>, maxFrames: int, maxFrameSize: int)
    returns (aligned: bool, rows: seq<Row>, consensus: seq<Token>, regions: seq<Run<RegionKind>>,
             ghost cols: seq<Column>, ghost trimmed: seq<seq<byte>>, ghost kinds: seq<Option<RegionKind>>)
    ensures aligned <==> frames == [] || Head(frames, maxFrames) != []
    ensures frames == [] ==> rows == [] && consensus == [] && regions == []
    ensures aligned ==> |rows| == |trimmed| == |Head(frames, maxFrames)|
    ensures forall k :: 0 <= k < |trimmed| && k < |frames| ==> trimmed[k] == Head(frames[k], maxFrameSize)
    ensures aligned && frames != [] ==> IsRows(rows, cols) && Faithful(cols, trimmed)
    ensures aligned && frames != [] ==> Stacked(cols, trimmed) && RowsAreBest(cols, trimmed)
    ensures |consensus| == |kinds| == |cols|
    ensures forall c :: 0 <= c < |cols| ==> Describes(cols[c], consensus[c], kinds[c])
    ensures MaximalRuns(kinds, regions)
  {
    aligned, rows, consensus, regions, cols, trimmed, kinds := true, [], [], [], [], [], [];
    if frames == [] {
      return;
    }
    var selected := Head(frames, maxFrames);
    if selected == [] {
      aligned := false;
      return;
    }
    hide Faithful, Describes, Stacked, RowsAreBest;
    rows, trimmed, cols := AlignRows(selected, maxFrameSize);
    TableOfFaithful(rows, trimmed, cols);
    var marks;
    consensus, marks := DescribeColumns(rows, cols);
    kinds := marks;
    hide *;
    regions := Coalesce(marks);
  }

  method DescribeColumns(rows: seq<Row>, ghost cols: seq<Column>)
    returns (consensus: seq<Token>, kinds: seq<Option<RegionKind>>)
    requires |rows| > 0 && Table(cols, |rows|)
    requires (forall row :: row in rows ==> |row| == |cols|) && Columns(rows, |cols|) == cols
    ensures |consensus| == |kinds| == |cols|
    ensures forall c :: 0 <= c < |cols| ==> Describes(cols[c], consensus[c], kinds[c])
  {
    hide Describes;
    consensus, kinds := [], [];
    for c := 0 to |rows[0]|
      invariant |consensus| == |kinds| == c
      invariant forall k :: 0 <= k < c ==> Describes(cols[k], consensus[k], kinds[k])
    {
      var col := ColumnOf(rows, c);
      assert col == Columns(rows, |cols|)[c] == cols[c] && cols[c] in cols;
      var token, kind := DescribeColumn(col);
      consensus, kinds := consensus + [token], kinds + [kind];
    }
  }
}

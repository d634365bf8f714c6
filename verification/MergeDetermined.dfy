/** What pins the merge down: no other table keeps the old one, adds the new row so, and puts its columns there. */
module MergeDetermined {
  import opened Alignment
  import opened AlignmentCounts
  import opened Bytes
  import opened ProgressiveMerge

  /** A column that only the new row uses. */
  ghost predicate Inserted(col: Column, n: nat)
    requires n <= |col|
  {
    AllGaps(col[..n])
  }

  /**
   `x` extends the table `cols` by a row aligned with its anchor as `al` says. An old column in which the
   anchor has a gap gets no new byte, and new columns come after such old ones, right before the anchor's
   next byte.
   */
  ghost predicate IsMerge(x: seq<Column>, n: nat, cols: seq<Column>, al: seq<Pair>) {
    && n > 0 && Table(x, n + 1)
    && Restrict(x, n) == cols
    && Project(RowOf(x, 0), RowOf(x, n)) == al
    && (forall c :: 0 <= c < |x| && x[c][0].Gap? && !Inserted(x[c], n) ==> x[c][n].Gap?)
    && (forall c :: 0 <= c < |x| - 1 && Inserted(x[c], n) ==> Inserted(x[c + 1], n) || x[c + 1][0].Val?)
  }

  lemma {:induction false} HeadOf(x: seq<Column>, n: nat, cols: seq<Column>, al: seq<Pair>)
    requires IsMerge(x, n, cols, al) && x != []
    ensures |x[0]| == n + 1 && !AllGaps(x[0])
    ensures forall c :: c in x[1..] ==> |c| == n + 1
    ensures cols == (if Inserted(x[0], n) then [] else [x[0][..n]]) + Restrict(x[1..], n)
    ensures al == ProjectOne(x[0][0], x[0][n]) + Project(RowOf(x[1..], 0), RowOf(x[1..], n))
  {
    hide AllGaps, Project, ProjectOne, Restrict;
    assert x == [x[0]] + x[1..] && x[0] in x;
    RestrictStep(n, x[0], x[1..]);
    AddColumn(x[0], x[1..], 0, n);
  }

  lemma {:induction false} TailIsMerge(x: seq<Column>, n: nat, cols: seq<Column>, al: seq<Pair>)
    requires IsMerge(x, n, cols, al) && x != []
    ensures (forall c :: c in x[1..] ==> |c| == n + 1)
    ensures IsMerge(x[1..], n, Restrict(x[1..], n), Project(RowOf(x[1..], 0), RowOf(x[1..], n)))
  {
    hide Project, Restrict, AllGaps;
    var y := x[1..];
    assert forall c :: 0 <= c < |y| ==> y[c] == x[c + 1];
  }

  /** Behind a new column the next old one has a byte of the anchor. */
  lemma {:induction false} NextOldHasByte(x: seq<Column>, n: nat, cols: seq<Column>, al: seq<Pair>)
    requires IsMerge(x, n, cols, al) && x != [] && Inserted(x[0], n)
    ensures cols != [] ==> cols[0] != [] && cols[0][0].Val?
    decreases |x|
  {
    HeadOf(x, n, cols, al);
    TailIsMerge(x, n, cols, al);
    var y := x[1..];
    if y != [] {
      assert y[0] == x[1];
      if Inserted(y[0], n) {
        NextOldHasByte(y, n, cols, Project(RowOf(y, 0), RowOf(y, n)));
      } else {
        HeadOf(y, n, cols, Project(RowOf(y, 0), RowOf(y, n)));
      }
    }
  }

  lemma {:induction false} SameHeadInserted(h: Column, n: nat, cols: seq<Column>, al: seq<Pair>, al': seq<Pair>)
    requires n > 0 && |h| == n + 1 && Inserted(h, n) && !AllGaps(h) && (forall c :: c in cols ==> |c| == n)
    requires cols != [] ==> cols[0][0].Val?
    requires al == ProjectOne(h[0], h[n]) + al'
    ensures al != [] && h == MergeHead(n, cols, al) && cols == ColsLeft(n, cols, al) && al' == PairsLeft(n, cols, al)
  {
    InsertedHead(h, n);
    assert h == h[..n] + [h[n]];
    hide AllGaps;
    assert al[0] == Pair(h[0], h[n]) && al[1..] == al';
  }

  lemma {:induction false} SameHeadOld(h: Column, n: nat, cols: seq<Column>, al: seq<Pair>, cols': seq<Column>,
                                       al': seq<Pair>)
    requires n > 0 && |h| == n + 1 && (forall c :: c in cols ==> |c| == n) && (h[0].Gap? ==> h[n].Gap?)
    requires cols == [h[..n]] + cols' && al == ProjectOne(h[0], h[n]) + al'
    ensures h == MergeHead(n, cols, al) && cols' == ColsLeft(n, cols, al) && al' == PairsLeft(n, cols, al)
  {
    assert cols[0] == h[..n] && cols[0][0] == h[0] && cols[1..] == cols';
    assert h == h[..n] + [h[n]];
    if h[0].Val? {
      assert al[0] == Pair(h[0], h[n]) && al[1..] == al';
    }
  }

  lemma {:induction false} MergeFacts(x: seq<Column>, n: nat, cols: seq<Column>, al: seq<Pair>)
    requires IsMerge(x, n, cols, al)
    ensures n > 0 && forall c :: c in x ==> |c| == n + 1
    ensures x != [] && x[0][0].Gap? && !Inserted(x[0], n) ==> x[0][n].Gap?
  {
    hide Restrict, Project, Inserted, AllGaps;
  }

  /** The first column of any such table is the one the merge starts with, and the rest is such a table again. */
  lemma {:induction false} SameHead(x: seq<Column>, n: nat, cols: seq<Column>, al: seq<Pair>)
    requires IsMerge(x, n, cols, al) && x != [] && (forall c :: c in cols ==> |c| == n)
    ensures n > 0 && |cols| + |al| > 0 && x[0] == MergeHead(n, cols, al)
    ensures (forall c :: c in x[1..] ==> |c| == n + 1)
    ensures Restrict(x[1..], n) == ColsLeft(n, cols, al)
    ensures Project(RowOf(x[1..], 0), RowOf(x[1..], n)) == PairsLeft(n, cols, al)
  {
    hide IsMerge, Restrict, Project, AllGaps, Inserted, MergeHead, ColsLeft, PairsLeft, ProjectOne;
    MergeFacts(x, n, cols, al);
    HeadOf(x, n, cols, al);
    var al' := Project(RowOf(x[1..], 0), RowOf(x[1..], n));
    if Inserted(x[0], n) {
      NextOldHasByte(x, n, cols, al);
      assert [] + Restrict(x[1..], n) == Restrict(x[1..], n);
      SameHeadInserted(x[0], n, cols, al, al');
    } else {
      SameHeadOld(x[0], n, cols, al, Restrict(x[1..], n), al');
    }
  }

  lemma {:induction false} InsertedHead(h: Column, n: nat)
    requires n > 0 && |h| == n + 1 && Inserted(h, n) && !AllGaps(h)
    ensures h[..n] == Gaps(n) && h[0].Gap? && h[n].Val?
  {
    assert h[..n][0] == h[0];
    assert forall r :: 0 <= r < n ==> h[..n][r] == h[r];
  }

  lemma {:induction false} NothingMerged(n: nat, cols: seq<Column>, al: seq<Pair>)
    requires IsMerge([], n, cols, al)
    ensures cols == [] && al == []
  {
  }

  /** There is one merge of a table with an alignment of its anchor. */
  lemma {:induction false} MergeIsUnique(x: seq<Column>, n: nat, cols: seq<Column>, al: seq<Pair>)
    requires IsMerge(x, n, cols, al) && forall c :: c in cols ==> |c| == n
    ensures x == Merge(n, cols, al)
    decreases |x|
  {
    hide IsMerge, Restrict, Project, MergeHead;
    if x == [] {
      NothingMerged(n, cols, al);
    } else {
      SameHead(x, n, cols, al);
      TailIsMerge(x, n, cols, al);
      MergeIsUnique(x[1..], n, ColsLeft(n, cols, al), PairsLeft(n, cols, al));
      assert x == [x[0]] + x[1..];
    }
  }

  /** Old columns with a gapped anchor take no byte, and new columns are followed by new ones or by an anchor byte. */
  ghost predicate InPlace(x: seq<Column>, n: nat)
    requires n > 0 && forall c :: c in x ==> |c| == n + 1
  {
    && (forall c :: 0 <= c < |x| && x[c][0].Gap? && !Inserted(x[c], n) ==> x[c][n].Gap?)
    && (forall c :: 0 <= c < |x| - 1 && Inserted(x[c], n) ==> Inserted(x[c + 1], n) || x[c + 1][0].Val?)
  }

  lemma {:induction false} HeadInPlace(n: nat, cols: seq<Column>, al: seq<Pair>)
    requires Fits(n, cols, al) && |cols| + |al| > 0
    ensures var h := MergeHead(n, cols, al);
            && (h[0].Gap? && !Inserted(h, n) ==> h[n].Gap?)
            && (Inserted(h, n) ==> (cols == [] || cols[0][0].Val?) && ColsLeft(n, cols, al) == cols)
  {
    FitsTail(n, cols, al);
    var h := MergeHead(n, cols, al);
    if TakesColumn(n, cols, al) {
      assert h[..n] == cols[0] && cols[0] in cols;
    } else {
      assert h[..n] == Gaps(n);
    }
  }

  /** A merge that starts with an old column of a gapped anchor only does so when the table does. */
  lemma {:induction false} StartsWith(n: nat, cols: seq<Column>, al: seq<Pair>)
    requires Fits(n, cols, al) && |cols| + |al| > 0 && (cols == [] || cols[0][0].Val?)
    ensures Inserted(MergeHead(n, cols, al), n) || MergeHead(n, cols, al)[0].Val?
  {
    FitsTail(n, cols, al);
    var h := MergeHead(n, cols, al);
    if !TakesColumn(n, cols, al) {
      assert h[..n] == Gaps(n);
    }
  }

  lemma {:induction false} ConsInPlace(h: Column, rest: seq<Column>, n: nat)
    requires n > 0 && |h| == n + 1 && (forall c :: c in rest ==> |c| == n + 1) && InPlace(rest, n)
    requires h[0].Gap? && !Inserted(h, n) ==> h[n].Gap?
    requires Inserted(h, n) && rest != [] ==> Inserted(rest[0], n) || rest[0][0].Val?
    ensures InPlace([h] + rest, n)
  {
    hide AllGaps;
    var x := [h] + rest;
    assert forall c :: 1 <= c < |x| ==> x[c] == rest[c - 1];
  }

  lemma {:induction false} MergeInPlace(n: nat, cols: seq<Column>, al: seq<Pair>)
    requires Fits(n, cols, al)
    ensures InPlace(Merge(n, cols, al), n)
    decreases |cols| + |al|
  {
    hide InPlace, Fits, MergeHead;
    FitsIs(n, cols, al);
    if |cols| + |al| == 0 {
      NothingInPlace(n);
    } else {
      var cols', al' := ColsLeft(n, cols, al), PairsLeft(n, cols, al);
      FitsTail(n, cols, al);
      MergeInPlace(n, cols', al');
      HeadInPlace(n, cols, al);
      if |cols'| + |al'| > 0 && (cols' == [] || cols'[0][0].Val?) {
        StartsWith(n, cols', al');
      }
      hide Inserted;
      ConsInPlace(MergeHead(n, cols, al), Merge(n, cols', al'), n);
    }
  }

  lemma {:induction false} FitsIs(n: nat, cols: seq<Column>, al: seq<Pair>)
    requires Fits(n, cols, al)
    ensures n > 0 && (forall c :: c in cols ==> |c| == n)
  {
  }

  lemma {:induction false} NothingInPlace(n: nat)
    requires n > 0
    ensures InPlace([], n)
  {
  }

  /** The merge keeps the old table, adds the aligned row and puts its columns where it should. */
  lemma {:induction false} MergeIsMerge(n: nat, cols: seq<Column>, al: seq<Pair>)
    requires Fits(n, cols, al)
    ensures IsMerge(Merge(n, cols, al), n, cols, al)
  {
    FitsIs(n, cols, al);
    MergeIsTable(n, cols, al);
    MergeExtends(n, cols, al);
    NewRowAligned(n, cols, al);
    MergeInPlace(n, cols, al);
    hide Merge, Fits, Restrict, Project;
  }

  /** The byte strings alone determine the whole table. */
  lemma {:induction false} StackIsUnique(x: seq<Column>, y: seq<Column>, seqs: seq<seq<byte>>)
    requires Stacked(x, seqs) && Stacked(y, seqs)
    ensures x == y
    decreases |seqs|
  {
    hide Merge, Align, Table;
    if |seqs| > 1 {
      var n := |seqs| - 1;
      var al := Align(DEFAULT_SCORING, seqs[0], seqs[n]);
      var before :| Stacked(before, seqs[..n]) && Table(before, n) && x == Merge(n, before, al);
      var before' :| Stacked(before', seqs[..n]) && Table(before', n) && y == Merge(n, before', al);
      StackIsUnique(before, before', seqs[..n]);
    }
  }
}

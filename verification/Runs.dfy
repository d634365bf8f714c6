/** Maximal runs of equally marked positions. */
module Runs {
  import opened Options

  datatype Run<K> = Run(start: nat, end: nat, kind: K)

  /** A nonempty stretch of one kind that can be extended on neither side. */
  ghost predicate Maximal<K>(marks: seq<Option<K>>, r: Run<K>) {
    && r.start < r.end <= |marks|
    && (forall p :: r.start <= p < r.end ==> marks[p] == Some(r.kind))
    && (r.start == 0 || marks[r.start - 1] != Some(r.kind))
    && (r.end == |marks| || marks[r.end] != Some(r.kind))
  }

  ghost predicate Covers<K>(r: Run<K>, p: nat) {
    r.start <= p < r.end
  }

  /** `runs` are, in ascending order, the maximal runs that end by `limit`, and they miss no mark before it. */
  ghost predicate RunsUpTo<K>(marks: seq<Option<K>>, runs: seq<Run<K>>, limit: nat)
    requires limit <= |marks|
  {
    && (forall i :: 0 <= i < |runs| ==> Maximal(marks, runs[i]) && runs[i].end <= limit)
    && (forall i, j :: 0 <= i < j < |runs| ==> runs[i].end <= runs[j].start)
    && (forall p :: 0 <= p < limit && marks[p].Some? ==> exists i :: 0 <= i < |runs| && Covers(runs[i], p))
  }

  ghost predicate MaximalRuns<K>(marks: seq<Option<K>>, runs: seq<Run<K>>) {
    RunsUpTo(marks, runs, |marks|)
  }

  lemma {:induction false} CloseRun<K>(marks: seq<Option<K>>, runs: seq<Run<K>>, r: Run<K>)
    requires Maximal(marks, r)
    requires RunsUpTo(marks, runs, r.start)
    ensures RunsUpTo(marks, runs + [r], r.end)
  {
    forall p | 0 <= p < r.end && marks[p].Some?
      ensures exists i :: 0 <= i < |runs + [r]| && Covers((runs + [r])[i], p)
    {
      if p < r.start {
        var i :| 0 <= i < |runs| && Covers(runs[i], p);
        assert (runs + [r])[i] == runs[i];
      } else {
        assert Covers((runs + [r])[|runs|], p);
      }
    }
  }

  lemma {:induction false} SkipUnmarked<K>(marks: seq<Option<K>>, runs: seq<Run<K>>, p: nat)
    requires p < |marks| && RunsUpTo(marks, runs, p) && marks[p].None?
    ensures RunsUpTo(marks, runs, p + 1)
  {
  }

  /** Two runs of the same kind that share a position are the same run. */
  lemma {:induction false} SameRun<K>(marks: seq<Option<K>>, x: Run<K>, y: Run<K>, p: nat)
    requires Maximal(marks, x) && Maximal(marks, y) && Covers(x, p) && Covers(y, p)
    ensures x == y
  {
    assert marks[p] == Some(x.kind);
    assert x.kind == y.kind;
    StartsNoEarlier(marks, x, y);
    StartsNoEarlier(marks, y, x);
  }

  lemma {:induction false} StartsNoEarlier<K>(marks: seq<Option<K>>, x: Run<K>, y: Run<K>)
    requires Maximal(marks, x) && Maximal(marks, y) && x.kind == y.kind
    requires x.start < y.end && y.start < x.end
    ensures x.start >= y.start && x.end <= y.end
  {
  }

  /** The marks determine the runs: there is only one list of maximal runs. */
  lemma {:induction false} RunsAreUnique<K>(marks: seq<Option<K>>, xs: seq<Run<K>>, ys: seq<Run<K>>)
    requires MaximalRuns(marks, xs) && MaximalRuns(marks, ys)
    ensures xs == ys
  {
    SameRunsFrom(marks, xs, ys, 0);
  }

  lemma {:induction false} SameRunsFrom<K>(marks: seq<Option<K>>, xs: seq<Run<K>>, ys: seq<Run<K>>, from: nat)
    requires MaximalRuns(marks, xs) && MaximalRuns(marks, ys)
    requires from <= |xs| && from <= |ys| && xs[..from] == ys[..from]
    ensures xs == ys
    decreases |xs| - from
  {
    if from < |xs| && from < |ys| {
      NextRunStartsFirst(marks, xs, ys, from);
      NextRunStartsFirst(marks, ys, xs, from);
      SameRun(marks, xs[from], ys[from], xs[from].start);
      assert xs[..from + 1] == xs[..from] + [xs[from]];
      assert ys[..from + 1] == ys[..from] + [ys[from]];
      SameRunsFrom(marks, xs, ys, from + 1);
    } else if from < |xs| {
      assert ys == ys[..from];
      NoFurtherRun(marks, xs, ys);
    } else if from < |ys| {
      assert xs == xs[..from];
      NoFurtherRun(marks, ys, xs);
    } else {
      assert xs == xs[..from] && ys == ys[..from];
    }
  }

  lemma {:induction false} NoFurtherRun<K>(marks: seq<Option<K>>, xs: seq<Run<K>>, ys: seq<Run<K>>)
    requires MaximalRuns(marks, xs) && MaximalRuns(marks, ys)
    requires ys <= xs
    ensures xs == ys
  {
    if |ys| < |xs| {
      var i := CoveringRun(marks, ys, xs[|ys|].start);
      assert false;
    }
  }

  lemma {:induction false} CoveringRun<K>(marks: seq<Option<K>>, runs: seq<Run<K>>, p: nat) returns (i: nat)
    requires MaximalRuns(marks, runs) && p < |marks| && marks[p].Some?
    ensures i < |runs| && Covers(runs[i], p)
  {
    i :| 0 <= i < |runs| && Covers(runs[i], p);
  }

  lemma {:induction false} NextRunStartsFirst<K>(marks: seq<Option<K>>, xs: seq<Run<K>>, ys: seq<Run<K>>, from: nat)
    requires MaximalRuns(marks, xs) && MaximalRuns(marks, ys)
    requires from < |xs| && from < |ys| && xs[..from] == ys[..from]
    ensures ys[from].start <= xs[from].start
  {
    var p := xs[from].start;
    RunIsMarked(marks, xs, from);
    var i := CoveringRun(marks, ys, p);
    SamePrefix(xs, ys, from, i);
    RunsAscend(marks, xs, i, from);
    RunsAscend(marks, ys, from, i);
  }

  lemma {:induction false} SamePrefix<T>(xs: seq<T>, ys: seq<T>, from: nat, i: nat)
    requires from <= |xs| && from <= |ys| && xs[..from] == ys[..from]
    ensures i < from ==> xs[i] == ys[i]
  {
    assert i < from ==> xs[i] == xs[..from][i] && ys[i] == ys[..from][i];
  }

  lemma {:induction false} RunIsMarked<K>(marks: seq<Option<K>>, runs: seq<Run<K>>, i: nat)
    requires MaximalRuns(marks, runs) && i < |runs|
    ensures runs[i].start < |marks| && marks[runs[i].start].Some?
  {
    assert Maximal(marks, runs[i]);
  }

  lemma {:induction false} RunsAscend<K>(marks: seq<Option<K>>, runs: seq<Run<K>>, i: nat, j: nat)
    requires MaximalRuns(marks, runs)
    ensures i < j < |runs| ==> runs[i].start < runs[i].end <= runs[j].start
  {
    assert i < |runs| ==> Maximal(marks, runs[i]);
  }

  /** The run being built: everything from `start` to `pos` is of its kind, and it could not start earlier. */
  ghost predicate Open<K>(marks: seq<Option<K>>, start: nat, kind: K, pos: nat) {
    && start < pos <= |marks|
    && (forall p :: start <= p < pos ==> marks[p] == Some(kind))
    && (start == 0 || marks[start - 1] != Some(kind))
  }

  ghost predicate Scanned<K>(marks: seq<Option<K>>, runs: seq<Run<K>>, current: Option<(nat, K)>, pos: nat) {
    && pos <= |marks|
    && match current
       case None => RunsUpTo(marks, runs, pos) && (pos > 0 ==> marks[pos - 1].None?)
       case Some((start, kind)) => Open(marks, start, kind, pos) && RunsUpTo(marks, runs, start)
  }

  lemma {:induction false} CloseCurrent<K>(marks: seq<Option<K>>, runs: seq<Run<K>>, start: nat, kind: K, pos: nat)
    requires Open(marks, start, kind, pos) && RunsUpTo(marks, runs, start)
    requires pos == |marks| || marks[pos] != Some(kind)
    ensures RunsUpTo(marks, runs + [Run(start, pos, kind)], pos)
  {
    CloseRun(marks, runs, Run(start, pos, kind));
  }

  // ---- what one turn of a run loop does ----

  lemma {:induction false} ScanSkips<K>(marks: seq<Option<K>>, runs: seq<Run<K>>, pos: nat)
    requires Scanned(marks, runs, None, pos) && pos < |marks| && marks[pos].None?
    ensures Scanned(marks, runs, None, pos + 1)
  {
    SkipUnmarked(marks, runs, pos);
  }

  lemma {:induction false} ScanOpens<K>(marks: seq<Option<K>>, runs: seq<Run<K>>, pos: nat)
    requires Scanned(marks, runs, None, pos) && pos < |marks| && marks[pos].Some?
    ensures Scanned(marks, runs, Some((pos, marks[pos].value)), pos + 1)
  {
  }

  lemma {:induction false} ScanGoesOn<K>(marks: seq<Option<K>>, runs: seq<Run<K>>, start: nat, kind: K, pos: nat)
    requires Scanned(marks, runs, Some((start, kind)), pos) && pos < |marks| && marks[pos] == Some(kind)
    ensures Scanned(marks, runs, Some((start, kind)), pos + 1)
  {
  }

  lemma {:induction false} StartsBefore<K>(marks: seq<Option<K>>, runs: seq<Run<K>>, start: nat, kind: K, pos: nat)
    requires Scanned(marks, runs, Some((start, kind)), pos)
    ensures start < pos <= |marks|
  {
  }

  lemma {:induction false} ScanCloses<K>(marks: seq<Option<K>>, runs: seq<Run<K>>, start: nat, kind: K, pos: nat)
    requires Scanned(marks, runs, Some((start, kind)), pos) && pos < |marks| && marks[pos].None?
    ensures Scanned(marks, runs + [Run(start, pos, kind)], None, pos + 1)
  {
    CloseCurrent(marks, runs, start, kind, pos);
    hide Open;
    SkipUnmarked(marks, runs + [Run(start, pos, kind)], pos);
  }

  lemma {:induction false} ScanSwitches<K>(marks: seq<Option<K>>, runs: seq<Run<K>>, start: nat, kind: K, pos: nat)
    requires Scanned(marks, runs, Some((start, kind)), pos) && pos < |marks| && marks[pos].Some?
             && marks[pos] != Some(kind)
    ensures Scanned(marks, runs + [Run(start, pos, kind)], Some((pos, marks[pos].value)), pos + 1)
  {
    CloseCurrent(marks, runs, start, kind, pos);
    hide RunsUpTo;
    assert marks[pos - 1] == Some(kind);
  }

  lemma {:induction false} ScanEnds<K>(marks: seq<Option<K>>, runs: seq<Run<K>>, current: Option<(nat, K)>)
    requires Scanned(marks, runs, current, |marks|)
    ensures MaximalRuns(marks, if current.None? then runs else runs + [Run(current.value.0, |marks|, current.value.1)])
  {
    if current.Some? {
      CloseCurrent(marks, runs, current.value.0, current.value.1, |marks|);
    }
  }

  lemma {:induction false} ScanStarts<K>(marks: seq<Option<K>>)
    ensures Scanned(marks, [], None, 0)
  {
  }

  /** Coalesces equally marked neighbours. */
  method Coalesce<K(==)>(marks: seq<Option<K>>) returns (runs: seq<Run<K>>)
    ensures MaximalRuns(marks, runs)
  {
    hide *;
    runs := [];
    var current: Option<(nat, K)> := None;
    ScanStarts(marks);
    for pos := 0 to |marks|
      invariant Scanned(marks, runs, current, pos)
    {
      if marks[pos].None? {
        if current.Some? {
          ScanCloses(marks, runs, current.value.0, current.value.1, pos);
          runs := runs + [Run(current.value.0, pos, current.value.1)];
          current := None;
        } else {
          ScanSkips(marks, runs, pos);
        }
      } else if current.None? {
        ScanOpens(marks, runs, pos);
        current := Some((pos, marks[pos].value));
      } else if current.value.1 != marks[pos].value {
        ScanSwitches(marks, runs, current.value.0, current.value.1, pos);
        runs := runs + [Run(current.value.0, pos, current.value.1)];
        current := Some((pos, marks[pos].value));
      } else {
        ScanGoesOn(marks, runs, current.value.0, current.value.1, pos);
      }
    }
    ScanEnds(marks, runs, current);
    if current.Some? {
      runs := runs + [Run(current.value.0, |marks|, current.value.1)];
    }
  }
}

/** The coalesced byte diff of two frames: maximal differing ranges that patch one frame into the other. */
module Diff {
  import opened Bytes
  import opened Options
  import opened Runs

  datatype Difference = Difference(offset: nat, length: nat, valueA: seq<byte>, valueB: seq<byte>, delta: Option<int>)

  function Max(x: nat, y: nat): nat {
    if x >= y then x else y
  }

  function Min(x: nat, y: nat): nat {
    if x <= y then x else y
  }

  /** A slice that is cut off at the end of the bytes. */
  function Slice(s: seq<byte>, start: nat, end: nat): seq<byte>
    requires start <= end
  {
    s[Min(start, |s|)..Min(end, |s|)]
  }

  /** Past the end of one frame counts as different. */
  predicate Differs(a: seq<byte>, b: seq<byte>, i: nat)
    requires i < Max(|a|, |b|)
  {
    i >= |a| || i >= |b| || a[i] != b[i]
  }

  /** The differing positions, marked. */
  function Marks(a: seq<byte>, b: seq<byte>): (m: seq<Option<()>>)
    ensures |m| == Max(|a|, |b|)
  {
    seq(Max(|a|, |b|), i requires 0 <= i < Max(|a|, |b|) => if Differs(a, b, i) then Some(()) else None)
  }

  /** The difference between two equally long fields of at most eight bytes, as big-endian integers. */
  function Delta(x: seq<byte>, y: seq<byte>): Option<int> {
    if |x| == |y| && 1 <= |x| <= 8 then Some(FromBig(y) - FromBig(x)) else None
  }

  function Emit(a: seq<byte>, b: seq<byte>, start: nat, end: nat): Difference
    requires start <= end
  {
    var x, y := Slice(a, start, end), Slice(b, start, end);
    Difference(start, end - start, x, y, Delta(x, y))
  }

  /** `ds` reports the runs `rs`, one each. */
  ghost predicate Reports(a: seq<byte>, b: seq<byte>, rs: seq<Run<()>>, ds: seq<Difference>) {
    |ds| == |rs| && forall i :: 0 <= i < |rs| ==>
      rs[i].start <= rs[i].end && ds[i] == Emit(a, b, rs[i].start, rs[i].end)
  }

  method Differences(a: seq<byte>, b: seq<byte>) returns (ds: seq<Difference>, ghost rs: seq<Run<()>>)
    ensures MaximalRuns(Marks(a, b), rs) && Reports(a, b, rs, ds)
    ensures Rebuild(a, ds, 0) == b
    ensures forall i :: 0 <= i < |ds| ==> Shows(a, b, ds[i])
    ensures |ds| == |rs|
            && forall i :: 0 <= i < |ds| ==> ds[i].offset == rs[i].start && ds[i].offset + ds[i].length == rs[i].end
  {
    var n := Max(|a|, |b|);
    ghost var marks := Marks(a, b);
    ds, rs := [], [];
    var runStart: Option<nat> := None;
    hide *;
    ScanStarts(marks);
    NothingReported(a, b);
    for i := 0 to n
      invariant Scanned(marks, rs, if runStart.None? then None else Some((runStart.value, ())), i)
      invariant Reports(a, b, rs, ds)
    {
      var va := if i < |a| then Some(a[i]) else None;
      var vb := if i < |b| then Some(b[i]) else None;
      MarkAt(a, b, i);
      if va != vb {
        if runStart.None? {
          ScanOpens(marks, rs, i);
          runStart := Some(i);
        } else {
          ScanGoesOn(marks, rs, runStart.value, (), i);
        }
      } else if runStart.Some? {
        StartsBefore(marks, rs, runStart.value, (), i);
        ScanCloses(marks, rs, runStart.value, (), i);
        OneMoreReported(a, b, rs, ds, runStart.value, i);
        ds := ds + [Emit(a, b, runStart.value, i)];
        rs := rs + [Run(runStart.value, i, ())];
        runStart := None;
      } else {
        ScanSkips(marks, rs, i);
      }
    }
    ScanEnds(marks, rs, if runStart.None? then None else Some((runStart.value, ())));
    if runStart.Some? {
      StartsBefore(marks, rs, runStart.value, (), n);
      OneMoreReported(a, b, rs, ds, runStart.value, n);
      ds := ds + [Emit(a, b, runStart.value, n)];
      rs := rs + [Run(runStart.value, n, ())];
    }
    DiffIsPatch(a, b, rs, ds);
    ReportsShow(a, b, rs, ds);
  }

  /** What a reported range says: the bytes either frame has there, and as a number how much the second is larger. */
  ghost predicate Shows(a: seq<byte>, b: seq<byte>, d: Difference) {
    var end := d.offset + d.length;
    && |d.valueA| == (if |a| <= d.offset then 0 else if |a| <= end then |a| - d.offset else d.length)
    && |d.valueB| == (if |b| <= d.offset then 0 else if |b| <= end then |b| - d.offset else d.length)
    && (forall k :: 0 <= k < |d.valueA| ==> d.valueA[k] == a[d.offset + k])
    && (forall k :: 0 <= k < |d.valueB| ==> d.valueB[k] == b[d.offset + k])
    && (d.delta.Some? <==> |d.valueA| == |d.valueB| && 1 <= |d.valueA| <= 8)
    && (d.delta.Some? ==> d.delta.value == FromBytes(d.valueB, Big) - FromBytes(d.valueA, Big))
  }

  lemma {:induction false} EmitShows(a: seq<byte>, b: seq<byte>, start: nat, end: nat)
    requires start <= end
    ensures Shows(a, b, Emit(a, b, start, end))
  {
    hide FromBig;
  }

  lemma {:induction false} ReportsShow(a: seq<byte>, b: seq<byte>, rs: seq<Run<()>>, ds: seq<Difference>)
    requires Reports(a, b, rs, ds)
    ensures forall i :: 0 <= i < |ds| ==> ds[i].offset == rs[i].start && ds[i].offset + ds[i].length == rs[i].end
    ensures forall i :: 0 <= i < |ds| ==> Shows(a, b, ds[i])
  {
    hide Shows;
    forall i | 0 <= i < |ds|
      ensures Shows(a, b, ds[i])
    {
      EmitShows(a, b, rs[i].start, rs[i].end);
    }
  }

  lemma {:induction false} NothingReported(a: seq<byte>, b: seq<byte>)
    ensures Reports(a, b, [], [])
  {
  }

  lemma {:induction false} OneMoreReported(a: seq<byte>, b: seq<byte>, rs: seq<Run<()>>, ds: seq<Difference>,
                                           start: nat, end: nat)
    requires Reports(a, b, rs, ds) && start <= end
    ensures Reports(a, b, rs + [Run(start, end, ())], ds + [Emit(a, b, start, end)])
  {
    hide Emit;
  }

  lemma {:induction false} MarkAt(a: seq<byte>, b: seq<byte>, i: nat)
    requires i < Max(|a|, |b|)
    ensures Marks(a, b)[i] == if (if i < |a| then Some(a[i]) else None) != (if i < |b| then Some(b[i]) else None)
              then Some(()) else None
  {
  }

  // ---- the diff is a patch ----

  /** `a` from `from` on, with each range replaced by its new bytes. */
  function Rebuild(a: seq<byte>, ds: seq<Difference>, from: nat): seq<byte>
    decreases |ds|
  {
    if ds == [] then Slice(a, from, Max(from, |a|))
    else (if from <= ds[0].offset then Slice(a, from, ds[0].offset) else []) + ds[0].valueB
         + Rebuild(a, ds[1..], ds[0].offset + ds[0].length)
  }

  /** Between two ranges the frames agree and neither has ended. */
  lemma {:induction false} Agree(a: seq<byte>, b: seq<byte>, rs: seq<Run<()>>, k: nat, from: nat, to: nat)
    requires MaximalRuns(Marks(a, b), rs) && k <= |rs|
    requires from <= to <= Max(|a|, |b|)
    requires k > 0 ==> rs[k - 1].end <= from
    requires k < |rs| ==> to <= rs[k].start
    ensures from < to ==> to <= |a| && to <= |b| && a[from..to] == b[from..to]
  {
    assert forall j :: 0 <= j < k ==> rs[j].end <= from;
    assert forall j :: k <= j < |rs| ==> to <= rs[j].start;
    forall p | from <= p < to
      ensures !Differs(a, b, p)
    {
      if Differs(a, b, p) {
        assert Marks(a, b)[p] == Some(());
        var i := CoveringRun(Marks(a, b), rs, p);
        assert false;
      }
    }
    if from < to {
      assert !Differs(a, b, to - 1);
      forall i | 0 <= i < to - from
        ensures a[from..to][i] == b[from..to][i]
      {
        assert !Differs(a, b, from + i);
      }
    }
  }

  lemma {:induction false} RebuildFrom(a: seq<byte>, b: seq<byte>, rs: seq<Run<()>>, ds: seq<Difference>, k: nat)
    requires MaximalRuns(Marks(a, b), rs) && Reports(a, b, rs, ds) && k <= |rs|
    ensures var from := if k == 0 then 0 else rs[k - 1].end;
            from <= Max(|a|, |b|) && Rebuild(a, ds[k..], from) == Slice(b, from, Max(from, |b|))
    decreases |rs| - k
  {
    hide MaximalRuns, Marks, Slice, Emit, Rebuild;
    var from := if k == 0 then 0 else rs[k - 1].end;
    RunBounds(a, b, rs, k);
    if k == |rs| {
      LastPiece(a, b, rs, ds, from);
    } else {
      RebuildFrom(a, b, rs, ds, k + 1);
      SamePiece(a, b, rs, k, from, rs[k].start);
      RebuildStep(a, b, ds, k, from, rs[k].start, rs[k].end);
    }
  }

  lemma {:induction false} SamePiece(a: seq<byte>, b: seq<byte>, rs: seq<Run<()>>, k: nat, from: nat, to: nat)
    requires MaximalRuns(Marks(a, b), rs) && k <= |rs|
    requires from <= to <= Max(|a|, |b|)
    requires k > 0 ==> rs[k - 1].end <= from
    requires k < |rs| ==> to <= rs[k].start
    ensures Slice(a, from, to) == Slice(b, from, to)
  {
    hide MaximalRuns, Marks;
    Agree(a, b, rs, k, from, to);
  }

  lemma {:induction false} LastPiece(a: seq<byte>, b: seq<byte>, rs: seq<Run<()>>, ds: seq<Difference>, from: nat)
    requires MaximalRuns(Marks(a, b), rs) && |ds| == |rs| && from <= Max(|a|, |b|)
    requires |rs| > 0 ==> rs[|rs| - 1].end <= from
    ensures Rebuild(a, ds[|rs|..], from) == Slice(b, from, Max(from, |b|))
  {
    hide MaximalRuns, Marks;
    Agree(a, b, rs, |rs|, from, Max(|a|, |b|));
    assert |ds[|rs|..]| == 0;
  }

  lemma {:induction false} RebuildStep(a: seq<byte>, b: seq<byte>, ds: seq<Difference>, k: nat, from: nat, start: nat,
                                       end: nat)
    requires k < |ds| && from <= start <= end && ds[k] == Emit(a, b, start, end)
    requires Slice(a, from, start) == Slice(b, from, start)
    requires Rebuild(a, ds[k + 1..], end) == Slice(b, end, Max(end, |b|))
    ensures Rebuild(a, ds[k..], from) == Slice(b, from, Max(from, |b|))
  {
    assert ds[k..][0] == ds[k] && ds[k..][1..] == ds[k + 1..];
    Pieces(b, from, start, end);
    hide Slice, Delta;
  }

  lemma {:induction false} RunBounds(a: seq<byte>, b: seq<byte>, rs: seq<Run<()>>, k: nat)
    requires MaximalRuns(Marks(a, b), rs) && k <= |rs|
    ensures k > 0 ==> rs[k - 1].end <= Max(|a|, |b|)
    ensures k < |rs| ==> (if k == 0 then 0 else rs[k - 1].end) <= rs[k].start < rs[k].end <= Max(|a|, |b|)
  {
    if k > 0 {
      assert Maximal(Marks(a, b), rs[k - 1]);
    }
    if k < |rs| {
      assert Maximal(Marks(a, b), rs[k]);
    }
  }

  lemma {:induction false} Pieces(b: seq<byte>, from: nat, start: nat, end: nat)
    requires from <= start <= end
    ensures Slice(b, from, start) + Slice(b, start, end) + Slice(b, end, Max(end, |b|)) ==
              Slice(b, from, Max(from, |b|))
  {
  }

  /** Replacing every reported range of `a` by its new bytes gives `b`. */
  lemma {:induction false} DiffIsPatch(a: seq<byte>, b: seq<byte>, rs: seq<Run<()>>, ds: seq<Difference>)
    requires MaximalRuns(Marks(a, b), rs) && Reports(a, b, rs, ds)
    ensures Rebuild(a, ds, 0) == b
  {
    RebuildFrom(a, b, rs, ds, 0);
    assert ds[0..] == ds;
  }

  /** There is nothing to report exactly when the frames are equal. */
  lemma {:induction false} EmptyDiffIffEqual(a: seq<byte>, b: seq<byte>, rs: seq<Run<()>>, ds: seq<Difference>)
    requires MaximalRuns(Marks(a, b), rs) && Reports(a, b, rs, ds)
    ensures ds == [] <==> a == b
  {
    DiffIsPatch(a, b, rs, ds);
    if rs != [] {
      assert Marks(a, b)[rs[0].start] == Some(());
      assert Differs(a, b, rs[0].start);
    }
  }

  // ---- common prefix and suffix ----

  /** The longest common prefix, then the longest common suffix that does not overlap it. */
  method CommonEnds(a: seq<byte>, b: seq<byte>) returns (prefix: nat, suffix: nat)
    ensures prefix + suffix <= Min(|a|, |b|)
    ensures a[..prefix] == b[..prefix] && a[|a| - suffix..] == b[|b| - suffix..]
    ensures prefix == Min(|a|, |b|) || a[prefix] != b[prefix]
    ensures prefix + suffix == Min(|a|, |b|) || a[|a| - 1 - suffix] != b[|b| - 1 - suffix]
  {
    prefix := 0;
    while prefix < Min(|a|, |b|) && a[prefix] == b[prefix]
      invariant prefix <= Min(|a|, |b|) && a[..prefix] == b[..prefix]
    {
      prefix := prefix + 1;
    }
    suffix := 0;
    while suffix < Min(|a|, |b|) - prefix && a[|a| - 1 - suffix] == b[|b| - 1 - suffix]
      invariant prefix + suffix <= Min(|a|, |b|)
      invariant a[|a| - suffix..] == b[|b| - suffix..]
    {
      suffix := suffix + 1;
    }
  }
}

/** Mining byte n-grams that many frames share, and suppressing those a longer hit already explains. */
module Ngrams {
  import opened Bytes

  type FrameId = nat

  datatype Frame = Frame(id: FrameId, raw: seq<byte>)

  datatype Hit = Hit(gram: seq<byte>, count: nat)

  predicate Contains(raw: seq<byte>, gram: seq<byte>) {
    exists i :: 0 <= i <= |raw| && At(raw, gram, i)
  }

  /** The frames a gram occurs in, by id. */
  ghost function Holders(frames: seq<Frame>, gram: seq<byte>): set<FrameId> {
    set k | 0 <= k < |frames| && Contains(frames[k].raw, gram) :: frames[k].id
  }

  // ---- counting ----

  type Table = map<seq<byte>, set<FrameId>>

  predicate InRange(gram: seq<byte>, lo: nat, hi: nat) {
    lo <= |gram| <= hi
  }

  /** Each gram of an admitted length that occurs somewhere is listed with exactly the frames that hold it. */
  ghost predicate Counts(table: Table, frames: seq<Frame>, lo: nat, hi: nat) {
    forall gram ::
      && (gram in table <==> InRange(gram, lo, hi) && Holders(frames, gram) != {})
      && (gram in table ==> table[gram] == Holders(frames, gram))
  }

  /** Grams of one frame seen once lengths below `length` are done, and positions below `pos` for `length` itself. */
  ghost predicate Seen(seen: set<seq<byte>>, raw: seq<byte>, lo: nat, length: nat, pos: nat) {
    forall gram :: gram in seen <==>
      lo <= |gram| && exists i: nat :: At(raw, gram, i) && (|gram| < length || (|gram| == length && i < pos))
  }

  /** The table after a frame whose grams found so far are `seen`. */
  ghost predicate Extended(table: Table, before: Table, seen: set<seq<byte>>, id: FrameId) {
    forall gram ::
      && (gram in table <==> gram in before || gram in seen)
      && (gram in table ==>
          table[gram] == (if gram in before then before[gram] else {}) + (if gram in seen then {id} else {}))
  }

  method CountFrame(before: Table, f: Frame, lo: nat, hi: nat) returns (table: Table, ghost all: set<seq<byte>>)
    requires 1 <= lo <= hi
    ensures Extended(table, before, all, f.id)
    ensures forall gram :: gram in all <==> InRange(gram, lo, hi) && Contains(f.raw, gram)
  {
    hide *;
    table := before;
    var seen: set<seq<byte>> := {};
    var length := lo;
    NothingSeen(before, f, lo);
    while length <= hi && length <= |f.raw|
      invariant lo <= length <= hi + 1
      invariant Seen(seen, f.raw, lo, length, 0) && Extended(table, before, seen, f.id)
      decreases hi + 1 - length
    {
      var i := 0;
      while i < |f.raw| - length + 1
        invariant 0 <= i <= |f.raw| - length + 1
        invariant Seen(seen, f.raw, lo, length, i) && Extended(table, before, seen, f.id)
      {
        var gram := f.raw[i..i + length];
        SeenOneMore(seen, f.raw, lo, length, i);
        if gram !in seen {
          ExtendedOneMore(table, before, seen, f.id, gram);
          seen := seen + {gram};
          table := table[gram := (if gram in table then table[gram] else {}) + {f.id}];
        } else {
          assert seen + {gram} == seen;
        }
        i := i + 1;
      }
      NextLength(seen, f.raw, lo, length, i);
      length := length + 1;
    }
    AllSeen(seen, f.raw, lo, hi, length);
    all := seen;
  }

  lemma {:induction false} NothingSeen(before: Table, f: Frame, lo: nat)
    ensures Seen({}, f.raw, lo, lo, 0) && Extended(before, before, {}, f.id)
  {
  }

  lemma {:induction false} SeenOneMore(seen: set<seq<byte>>, raw: seq<byte>, lo: nat, length: nat, i: nat)
    requires lo <= length && i + length <= |raw| && Seen(seen, raw, lo, length, i)
    ensures Seen(seen + {raw[i..i + length]}, raw, lo, length, i + 1)
  {
    var gram, seen' := raw[i..i + length], seen + {raw[i..i + length]};
    assert At(raw, gram, i);
    forall g
      ensures g in seen' <==>
                lo <= |g| && exists j: nat :: At(raw, g, j) && (|g| < length || (|g| == length && j < i + 1))
    {
      if lo <= |g| && exists j: nat :: At(raw, g, j) && (|g| < length || (|g| == length && j < i + 1)) {
        var j: nat :| At(raw, g, j) && (|g| < length || (|g| == length && j < i + 1));
        if |g| == length && j == i {
          assert g == gram;
        } else {
          assert g in seen;
        }
      }
    }
  }

  lemma {:induction false} ExtendedOneMore(table: Table, before: Table, seen: set<seq<byte>>, id: FrameId,
                                           gram: seq<byte>)
    requires Extended(table, before, seen, id) && gram !in seen
    ensures Extended(table[gram := (if gram in table then table[gram] else {}) + {id}], before, seen + {gram}, id)
  {
  }

  lemma {:induction false} NextLength(seen: set<seq<byte>>, raw: seq<byte>, lo: nat, length: nat, i: nat)
    requires length <= |raw| && i == |raw| - length + 1 && Seen(seen, raw, lo, length, i)
    ensures Seen(seen, raw, lo, length + 1, 0)
  {
  }

  lemma {:induction false} AllSeen(seen: set<seq<byte>>, raw: seq<byte>, lo: nat, hi: nat, length: nat)
    requires Seen(seen, raw, lo, length, 0) && length <= hi + 1 && (length == hi + 1 || length > |raw|)
    ensures forall gram :: gram in seen <==> InRange(gram, lo, hi) && Contains(raw, gram)
  {
    forall gram
      ensures gram in seen <==> InRange(gram, lo, hi) && Contains(raw, gram)
    {
      if InRange(gram, lo, hi) && Contains(raw, gram) {
        var i: nat :| At(raw, gram, i);
        assert |gram| < length;
      }
    }
  }

  lemma {:induction false} CountsOneMore(table: Table, before: Table, frames: seq<Frame>, f: Frame, lo: nat, hi: nat,
                                         all: set<seq<byte>>)
    requires Counts(before, frames, lo, hi) && Extended(table, before, all, f.id)
    requires forall gram :: gram in all <==> InRange(gram, lo, hi) && Contains(f.raw, gram)
    ensures Counts(table, frames + [f], lo, hi)
  {
    forall gram
      ensures gram in table <==> InRange(gram, lo, hi) && Holders(frames + [f], gram) != {}
      ensures gram in table ==> table[gram] == Holders(frames + [f], gram)
    {
      HoldersSnoc(frames, f, gram);
    }
  }

  lemma {:induction false} HoldersSnoc(frames: seq<Frame>, f: Frame, gram: seq<byte>)
    ensures Holders(frames + [f], gram) == Holders(frames, gram) + if Contains(f.raw, gram) then {f.id} else {}
  {
    var fs := frames + [f];
    forall id | id in Holders(frames, gram)
      ensures id in Holders(fs, gram)
    {
      var k :| 0 <= k < |frames| && Contains(frames[k].raw, gram) && frames[k].id == id;
      assert fs[k] == frames[k];
    }
    if Contains(f.raw, gram) {
      assert fs[|frames|] == f;
    }
  }

  method CountGrams(frames: seq<Frame>, lo: nat, hi: nat) returns (table: Table)
    requires 1 <= lo <= hi
    ensures Counts(table, frames, lo, hi)
  {
    table := map[];
    for k := 0 to |frames|
      invariant Counts(table, frames[..k], lo, hi)
    {
      ghost var before, all := table, {};
      table, all := CountFrame(table, frames[k], lo, hi);
      CountsOneMore(table, before, frames[..k], frames[k], lo, hi, all);
      assert frames[..k + 1] == frames[..k] + [frames[k]];
    }
    assert frames[..|frames|] == frames;
  }

  /** The frames that hold the gram, in order. */
  function Carriers(frames: seq<Frame>, gram: seq<byte>): seq<Frame> {
    if frames == [] then []
    else
      var last := frames[|frames| - 1];
      Carriers(frames[..|frames| - 1], gram) + if Contains(last.raw, gram) then [last] else []
  }

  /** With distinct frame ids a gram's count is the number of frames that hold it. */
  lemma {:induction false} CountIsFrames(frames: seq<Frame>, gram: seq<byte>)
    requires forall i, j :: 0 <= i < j < |frames| ==> frames[i].id != frames[j].id
    ensures |Holders(frames, gram)| == |Carriers(frames, gram)|
    decreases |frames|
  {
    if frames != [] {
      var init, last := frames[..|frames| - 1], frames[|frames| - 1];
      CountIsFrames(init, gram);
      assert frames == init + [last];
      HoldersSnoc(init, last, gram);
      assert last.id !in Holders(init, gram);
    } else {
      assert Holders(frames, gram) == {};
    }
  }

  // ---- suppression ----

  /** No gram is listed twice. */
  ghost predicate OneEach(hits: seq<Hit>) {
    forall i, j :: 0 <= i < j < |hits| ==> hits[i].gram != hits[j].gram
  }

  /** The hits are the grams at or above the threshold, each once, with its count. */
  ghost predicate AreHits(hits: seq<Hit>, table: Table, threshold: nat) {
    && (forall h :: h in hits <==> h.gram in table && h.count == |table[h.gram]| && h.count >= threshold)
    && OneEach(hits)
  }

  method SelectHits(table: Table, threshold: nat) returns (hits: seq<Hit>)
    ensures AreHits(hits, table, threshold)
  {
    hits := [];
    var left := table.Keys;
    while left != {}
      invariant left <= table.Keys
      invariant forall h :: h in hits <==>
                  h.gram in table && h.gram !in left && h.count == |table[h.gram]| && h.count >= threshold
      invariant OneEach(hits)
      decreases |left|
    {
      var gram :| gram in left;
      if |table[gram]| >= threshold {
        assert forall k :: 0 <= k < |hits| ==> hits[k] in hits;
        hits := hits + [Hit(gram, |table[gram]|)];
      }
      left := left - {gram};
    }
  }

  /** `shorter` adds nothing to `longer`: it occurs inside it and in as many frames. */
  predicate Explains(longer: Hit, shorter: Hit) {
    |shorter.gram| < |longer.gram| && shorter.count == longer.count && Contains(longer.gram, shorter.gram)
  }

  ghost predicate Explained(hits: seq<Hit>, shorter: Hit) {
    exists longer :: longer in hits && Explains(longer, shorter)
  }

  ghost predicate InSome(groups: seq<seq<Hit>>, h: Hit) {
    exists g :: 0 <= g < |groups| && h in groups[g]
  }

  ghost predicate OneLengthEach(groups: seq<seq<Hit>>) {
    forall g, x, y :: 0 <= g < |groups| && x in groups[g] && y in groups[g] ==> |x.gram| == |y.gram|
  }

  ghost predicate Descending(groups: seq<seq<Hit>>) {
    forall f, g, x, y :: 0 <= f < g < |groups| && x in groups[f] && y in groups[g] ==> |y.gram| < |x.gram|
  }

  /** Hits grouped by length, longest first. */
  ghost predicate Grouped(hits: seq<Hit>, groups: seq<seq<Hit>>) {
    (forall h :: h in hits <==> InSome(groups, h)) && OneLengthEach(groups) && Descending(groups)
  }

  /** `after` is `before` and the grams of those hits of `group` that `longer` explains. */
  ghost predicate Marked(before: set<seq<byte>>, after: set<seq<byte>>, longer: Hit, group: seq<Hit>) {
    forall gram :: gram in after <==>
      gram in before
      || exists h :: h in group && h.gram == gram && h.count == longer.count && Contains(longer.gram, gram)
  }

  method MarkGroup(before: set<seq<byte>>, longer: Hit, group: seq<Hit>) returns (after: set<seq<byte>>)
    ensures Marked(before, after, longer, group)
  {
    after := before;
    for k := 0 to |group|
      invariant Marked(before, after, longer, group[..k])
    {
      var h := group[k];
      assert group[..k + 1] == group[..k] + [h];
      if h.count == longer.count && Contains(longer.gram, h.gram) {
        after := after + {h.gram};
      }
    }
    assert group[..|group|] == group;
  }

  /** Everything the first `done` hits of group `g` and all earlier groups explain in later groups. */
  ghost predicate SuppressedUpTo(suppressed: set<seq<byte>>, groups: seq<seq<Hit>>, g: nat, done: nat)
    requires g <= |groups| && (g < |groups| ==> done <= |groups[g]|)
  {
    forall gram :: gram in suppressed <==>
      exists f, i, e, j :: 0 <= f < e < |groups| && 0 <= i < |groups[f]| && 0 <= j < |groups[e]|
        && (f < g || (f == g && i < done)) && Suppresses(groups, f, i, e, j, gram)
  }

  predicate Suppresses(groups: seq<seq<Hit>>, f: nat, i: nat, e: nat, j: nat, gram: seq<byte>)
    requires f < e < |groups| && i < |groups[f]| && j < |groups[e]|
  {
    groups[e][j].gram == gram && groups[e][j].count == groups[f][i].count && Contains(groups[f][i].gram, gram)
  }

  method Suppress(groups: seq<seq<Hit>>) returns (suppressed: set<seq<byte>>)
    ensures SuppressedUpTo(suppressed, groups, |groups|, 0)
  {
    suppressed := {};
    for g := 0 to |groups|
      invariant SuppressedUpTo(suppressed, groups, g, 0)
    {
      for i := 0 to |groups[g]|
        invariant SuppressedUpTo(suppressed, groups, g, i)
      {
        suppressed := MarkLater(suppressed, groups, g, i);
      }
    }
  }

  method MarkLater(before: set<seq<byte>>, groups: seq<seq<Hit>>, g: nat, i: nat) returns (suppressed: set<seq<byte>>)
    requires g < |groups| && i < |groups[g]| && SuppressedUpTo(before, groups, g, i)
    ensures SuppressedUpTo(suppressed, groups, g, i + 1)
  {
    suppressed := before;
    for e := g + 1 to |groups|
      invariant forall gram :: gram in suppressed <==>
        gram in before || exists d, j :: g < d < e && 0 <= j < |groups[d]| && Suppresses(groups, g, i, d, j, gram)
    {
      ghost var was := suppressed;
      suppressed := MarkGroup(suppressed, groups[g][i], groups[e]);
      MarkedStep(before, was, suppressed, groups, g, i, e);
    }
    LaterDone(before, suppressed, groups, g, i);
  }

  lemma {:induction false} MarkedStep(before: set<seq<byte>>, was: set<seq<byte>>, now: set<seq<byte>>,
                                      groups: seq<seq<Hit>>, g: nat, i: nat, e: nat)
    requires g < e < |groups| && i < |groups[g]|
    requires forall gram :: gram in was <==>
               gram in before
               || exists d, j :: g < d < e && 0 <= j < |groups[d]| && Suppresses(groups, g, i, d, j, gram)
    requires Marked(was, now, groups[g][i], groups[e])
    ensures forall gram :: gram in now <==>
              gram in before
              || exists d, j :: g < d < e + 1 && 0 <= j < |groups[d]| && Suppresses(groups, g, i, d, j, gram)
  {
    forall gram
      ensures gram in now <==>
              gram in before
              || exists d, j :: g < d < e + 1 && 0 <= j < |groups[d]| && Suppresses(groups, g, i, d, j, gram)
    {
      if gram in now && gram !in was {
        var h :| h in groups[e] && h.gram == gram && h.count == groups[g][i].count && Contains(groups[g][i].gram, gram);
        var j :| 0 <= j < |groups[e]| && groups[e][j] == h;
        assert Suppresses(groups, g, i, e, j, gram);
      }
      if exists d, j :: g < d < e + 1 && 0 <= j < |groups[d]| && Suppresses(groups, g, i, d, j, gram) {
        var d, j :| g < d < e + 1 && 0 <= j < |groups[d]| && Suppresses(groups, g, i, d, j, gram);
        if d == e {
          assert groups[e][j] in groups[e];
        }
      }
    }
  }

  lemma {:induction false} LaterDone(before: set<seq<byte>>, now: set<seq<byte>>, groups: seq<seq<Hit>>, g: nat, i: nat)
    requires g < |groups| && i < |groups[g]| && SuppressedUpTo(before, groups, g, i)
    requires forall gram :: gram in now <==>
               gram in before
               || exists d, j :: g < d < |groups| && 0 <= j < |groups[d]| && Suppresses(groups, g, i, d, j, gram)
    ensures SuppressedUpTo(now, groups, g, i + 1)
  {
  }

  lemma {:induction false} SuppressedHasReason(hits: seq<Hit>, groups: seq<seq<Hit>>, h: Hit, f: nat, i: nat, e: nat,
                                               j: nat)
    requires Grouped(hits, groups) && h in hits
    requires forall x, y :: x in hits && y in hits && x.gram == y.gram ==> x == y
    requires f < e < |groups| && i < |groups[f]| && j < |groups[e]| && Suppresses(groups, f, i, e, j, h.gram)
    ensures Explained(hits, h)
  {
    hide Contains;
    assert groups[f][i] in groups[f] && groups[e][j] in groups[e];
    assert groups[e][j] == h;
    assert Explains(groups[f][i], h);
  }

  lemma {:induction false} ExplainedIsReached(hits: seq<Hit>, groups: seq<seq<Hit>>, longer: Hit, h: Hit)
    returns (f: nat, i: nat, e: nat, j: nat)
    requires Grouped(hits, groups) && longer in hits && h in hits && Explains(longer, h)
    ensures f < e < |groups| && i < |groups[f]| && j < |groups[e]| && Suppresses(groups, f, i, e, j, h.gram)
  {
    hide Contains;
    f :| 0 <= f < |groups| && longer in groups[f];
    e :| 0 <= e < |groups| && h in groups[e];
    i :| 0 <= i < |groups[f]| && groups[f][i] == longer;
    j :| 0 <= j < |groups[e]| && groups[e][j] == h;
  }

  /** With groups in descending length, what is suppressed is what some longer hit explains. */
  lemma {:induction false} SuppressedIsExplained(hits: seq<Hit>, groups: seq<seq<Hit>>, suppressed: set<seq<byte>>,
                                                 h: Hit)
    requires Grouped(hits, groups) && SuppressedUpTo(suppressed, groups, |groups|, 0) && h in hits
    requires forall x, y :: x in hits && y in hits && x.gram == y.gram ==> x == y
    ensures h.gram in suppressed <==> Explained(hits, h)
  {
    hide Grouped, Suppresses, Explains;
    if h.gram in suppressed {
      var f, i, e, j :| 0 <= f < e < |groups| && 0 <= i < |groups[f]| && 0 <= j < |groups[e]|
                        && Suppresses(groups, f, i, e, j, h.gram);
      SuppressedHasReason(hits, groups, h, f, i, e, j);
    }
    if Explained(hits, h) {
      var longer :| longer in hits && Explains(longer, h);
      var f, i, e, j := ExplainedIsReached(hits, groups, longer, h);
    }
  }

  // ---- nothing is lost ----

  function Longest(hits: seq<Hit>): nat {
    if hits == [] then 0
    else if |hits[0].gram| >= Longest(hits[1..]) then |hits[0].gram| else Longest(hits[1..])
  }

  lemma {:induction false} LongestBounds(hits: seq<Hit>, h: Hit)
    requires h in hits
    ensures |h.gram| <= Longest(hits)
  {
    if h != hits[0] {
      assert h in hits[1..];
      LongestBounds(hits[1..], h);
    }
  }

  lemma {:induction false} SliceOfSlice(x: seq<byte>, i: nat, k: nat, j: nat, l: nat)
    requires i <= k <= |x| && j <= l <= k - i
    ensures x[i..k][j..l] == x[i + j..i + l]
  {
    forall m | 0 <= m < l - j
      ensures x[i..k][j..l][m] == x[i + j..i + l][m]
    {
      assert x[i..k][j..l][m] == x[i..k][j + m] == x[i + j + m];
    }
  }

  lemma {:induction false} ContainsTransitive(x: seq<byte>, y: seq<byte>, z: seq<byte>)
    requires Contains(x, y) && Contains(y, z)
    ensures Contains(x, z)
  {
    var i :| 0 <= i <= |x| && At(x, y, i);
    var j :| 0 <= j <= |y| && At(y, z, j);
    assert x[i..i + |y|] == y && y[j..j + |z|] == z;
    SliceOfSlice(x, i, i + |y|, j, j + |z|);
    assert At(x, z, i + j);
  }

  lemma {:induction false} ContainsSelf(x: seq<byte>)
    ensures Contains(x, x)
  {
    assert x[0..|x|] == x;
    assert At(x, x, 0);
  }

  /** Every hit is an unexplained one, or lies inside one that is in as many frames. */
  lemma {:induction false} SurvivorFor(hits: seq<Hit>, h: Hit) returns (s: Hit)
    requires h in hits
    ensures s in hits && !Explained(hits, s) && s.count == h.count && Contains(s.gram, h.gram)
    decreases Longest(hits) - |h.gram|
  {
    if Explained(hits, h) {
      var longer :| longer in hits && Explains(longer, h);
      LongestBounds(hits, longer);
      s := SurvivorFor(hits, longer);
      ContainsTransitive(s.gram, longer.gram, h.gram);
    } else {
      s := h;
      ContainsSelf(h.gram);
    }
  }

  // ---- the whole search ----

  type ByLength = map<nat, seq<Hit>>

  ghost predicate Filed(byLen: ByLength, hits: seq<Hit>) {
    && (forall L, h :: L in byLen && h in byLen[L] ==> |h.gram| == L && h in hits)
    && (forall h :: h in hits ==> |h.gram| in byLen && h in byLen[|h.gram|])
  }

  method FileByLength(hits: seq<Hit>) returns (byLen: ByLength)
    ensures Filed(byLen, hits)
  {
    byLen := map[];
    for k := 0 to |hits|
      invariant Filed(byLen, hits[..k])
    {
      var h := hits[k];
      assert hits[..k + 1] == hits[..k] + [h];
      byLen := byLen[|h.gram| := (if |h.gram| in byLen then byLen[|h.gram|] else []) + [h]];
    }
    assert hits[..|hits|] == hits;
  }

  /** The groups so far hold exactly the hits of length `L` or more. */
  ghost predicate GroupedFrom(hits: seq<Hit>, groups: seq<seq<Hit>>, L: nat) {
    (forall h :: InSome(groups, h) <==> h in hits && L <= |h.gram|) && OneLengthEach(groups) && Descending(groups)
  }

  method GroupByLength(hits: seq<Hit>) returns (groups: seq<seq<Hit>>)
    ensures Grouped(hits, groups)
  {
    var byLen := FileByLength(hits);
    groups := [];
    NoneYet(hits);
    hide *;
    for L := Longest(hits) + 1 downto 0
      invariant GroupedFrom(hits, groups, L)
    {
      NextGroup(hits, byLen, groups, L);
      if L in byLen {
        groups := groups + [byLen[L]];
      }
    }
    GroupedFromZero(hits, groups);
  }

  lemma {:induction false} NoneYet(hits: seq<Hit>)
    ensures GroupedFrom(hits, [], Longest(hits) + 1)
  {
    forall h | h in hits
      ensures |h.gram| <= Longest(hits)
    {
      LongestBounds(hits, h);
    }
  }

  lemma {:induction false} GroupedFromZero(hits: seq<Hit>, groups: seq<seq<Hit>>)
    requires GroupedFrom(hits, groups, 0)
    ensures Grouped(hits, groups)
  {
  }

  lemma {:induction false} NextGroup(hits: seq<Hit>, byLen: ByLength, groups: seq<seq<Hit>>, L: nat)
    requires Filed(byLen, hits) && GroupedFrom(hits, groups, L + 1)
    ensures L !in byLen ==> GroupedFrom(hits, groups, L)
    ensures L in byLen ==> GroupedFrom(hits, groups + [byLen[L]], L)
  {
    if L in byLen {
      AddGroup(hits, byLen, groups, L);
    } else {
      assert forall h :: h in hits && L <= |h.gram| ==> L + 1 <= |h.gram|;
    }
  }

  lemma {:induction false} AddGroup(hits: seq<Hit>, byLen: ByLength, groups: seq<seq<Hit>>, L: nat)
    requires Filed(byLen, hits) && GroupedFrom(hits, groups, L + 1) && L in byLen
    ensures GroupedFrom(hits, groups + [byLen[L]], L)
  {
    hide InSome, OneLengthEach, Descending;
    var last := byLen[L];
    FiledAt(hits, byLen, L);
    hide Filed;
    forall h: Hit
      ensures InSome(groups + [last], h) <==> h in hits && L <= |h.gram|
    {
      GroupMembers(groups, last, h);
    }
    AddedOneLength(groups, last);
    AddedDescends(groups, last, L);
  }

  lemma {:induction false} FiledAt(hits: seq<Hit>, byLen: ByLength, L: nat)
    requires Filed(byLen, hits) && L in byLen
    ensures forall h :: h in byLen[L] <==> h in hits && |h.gram| == L
  {
  }

  lemma {:induction false} GroupMembers(groups: seq<seq<Hit>>, last: seq<Hit>, h: Hit)
    ensures InSome(groups + [last], h) <==> InSome(groups, h) || h in last
  {
    var after := groups + [last];
    if h in last {
      assert h in after[|groups|];
    }
    if InSome(groups, h) {
      var g :| 0 <= g < |groups| && h in groups[g];
      assert h in after[g];
    }
  }

  lemma {:induction false} AddedOneLength(groups: seq<seq<Hit>>, last: seq<Hit>)
    requires OneLengthEach(groups) && forall x, y :: x in last && y in last ==> |x.gram| == |y.gram|
    ensures OneLengthEach(groups + [last])
  {
  }

  lemma {:induction false} AddedDescends(groups: seq<seq<Hit>>, last: seq<Hit>, L: nat)
    requires Descending(groups) && forall x :: InSome(groups, x) ==> L < |x.gram|
    requires forall y :: y in last ==> |y.gram| == L
    ensures Descending(groups + [last])
  {
    var after := groups + [last];
    forall f, g, x: Hit, y: Hit | 0 <= f < g < |after| && x in after[f] && y in after[g]
      ensures |y.gram| < |x.gram|
    {
      assert x in groups[f] && InSome(groups, x);
    }
  }

  /** How many frames hold the gram, as the search counts them. */
  ghost function Count(frames: seq<Frame>, gram: seq<byte>): nat {
    |Holders(frames, gram)|
  }

  /** What the surviving hits promise, before they are sorted and capped. */
  ghost predicate Complete(frames: seq<Frame>, lo: nat, hi: nat, threshold: nat, found: seq<Hit>) {
    && (forall h :: h in found ==> InRange(h.gram, lo, hi) && h.count == Count(frames, h.gram) >= threshold)
    && (forall gram :: InRange(gram, lo, hi) && Count(frames, gram) >= threshold ==>
          exists s :: s in found && s.count == Count(frames, gram) && Contains(s.gram, gram))
    && (forall s, gram :: s in found && InRange(gram, lo, hi) && |gram| > |s.gram| && Contains(gram, s.gram) ==>
        Count(frames, gram) != s.count)
  }

  /**
   Every gram of an admitted length that enough frames share is reported, or lies inside a reported one
   that as many frames share; and nothing reported lies inside a longer gram that as many frames share.
   */
  method Survivors(frames: seq<Frame>, minLength: nat, maxLength: nat, threshold: nat) returns (found: seq<Hit>)
    requires threshold >= 1 && 1 <= minLength <= maxLength
    ensures Complete(frames, minLength, maxLength, threshold, found)
    ensures OneEach(found)
  {
    var table := CountGrams(frames, minLength, maxLength);
    var hits := SelectHits(table, threshold);
    var groups := GroupByLength(hits);
    var suppressed := Suppress(groups);
    found := DropSuppressed(hits, table, threshold, suppressed);
    hide *;
    SurvivorsComplete(frames, minLength, maxLength, threshold, table, hits, groups, suppressed, found);
  }

  method DropSuppressed(hits: seq<Hit>, ghost table: Table, ghost threshold: nat, suppressed: set<seq<byte>>)
    returns (found: seq<Hit>)
    requires AreHits(hits, table, threshold)
    ensures forall h :: h in found <==> h in hits && h.gram !in suppressed
    ensures OneEach(found)
  {
    found := [];
    for k := 0 to |hits|
      invariant forall h :: h in found <==> h in hits[..k] && h.gram !in suppressed
      invariant OneEach(found)
    {
      assert hits[..k + 1] == hits[..k] + [hits[k]];
      if hits[k].gram !in suppressed {
        assert forall i :: 0 <= i < |found| ==> found[i] in hits[..k];
        found := found + [hits[k]];
      }
    }
    assert hits[..|hits|] == hits;
  }

  lemma {:induction false} NoFrames(threshold: nat)
    requires threshold >= 1
    ensures forall lo, hi :: Complete([], lo, hi, threshold, [])
  {
    assert forall gram :: Holders([], gram) == {};
  }

  lemma {:induction false} HitsAreDistinct(hits: seq<Hit>, table: Table, threshold: nat)
    requires AreHits(hits, table, threshold)
    ensures forall x, y :: x in hits && y in hits && x.gram == y.gram ==> x == y
  {
  }

  lemma {:induction false} SurvivorsComplete(frames: seq<Frame>, lo: nat, hi: nat, threshold: nat, table: Table,
                                             hits: seq<Hit>, groups: seq<seq<Hit>>, suppressed: set<seq<byte>>,
                                             found: seq<Hit>)
    requires threshold >= 1 && Counts(table, frames, lo, hi) && AreHits(hits, table, threshold)
    requires Grouped(hits, groups) && SuppressedUpTo(suppressed, groups, |groups|, 0)
    requires forall h :: h in found <==> h in hits && h.gram !in suppressed
    ensures Complete(frames, lo, hi, threshold, found)
  {
    HitsAreDistinct(hits, table, threshold);
    forall gram | InRange(gram, lo, hi) && Count(frames, gram) >= threshold
      ensures exists s :: s in found && s.count == Count(frames, gram) && Contains(s.gram, gram)
    {
      var s := GramHasSurvivor(frames, lo, hi, threshold, table, hits, groups, suppressed, gram);
      assert s in found;
    }
    forall s, gram | s in found && InRange(gram, lo, hi) && |gram| > |s.gram| && Contains(gram, s.gram)
      ensures Count(frames, gram) != s.count
    {
      NotInsideLonger(frames, lo, hi, threshold, table, hits, groups, suppressed, s, gram);
    }
  }

  lemma {:induction false} GramHasSurvivor(frames: seq<Frame>, lo: nat, hi: nat, threshold: nat, table: Table,
                                           hits: seq<Hit>, groups: seq<seq<Hit>>, suppressed: set<seq<byte>>,
                                           gram: seq<byte>)
    returns (s: Hit)
    requires threshold >= 1 && Counts(table, frames, lo, hi) && AreHits(hits, table, threshold)
    requires Grouped(hits, groups) && SuppressedUpTo(suppressed, groups, |groups|, 0)
    requires InRange(gram, lo, hi) && Count(frames, gram) >= threshold
    ensures s in hits && s.gram !in suppressed && s.count == Count(frames, gram) && Contains(s.gram, gram)
  {
    HitsAreDistinct(hits, table, threshold);
    hide Grouped, SuppressedUpTo, Contains, Explained;
    assert Holders(frames, gram) != {};
    var h := Hit(gram, Count(frames, gram));
    assert h in hits;
    s := SurvivorFor(hits, h);
    SuppressedIsExplained(hits, groups, suppressed, s);
  }

  lemma {:induction false} NotInsideLonger(frames: seq<Frame>, lo: nat, hi: nat, threshold: nat, table: Table,
                                           hits: seq<Hit>, groups: seq<seq<Hit>>, suppressed: set<seq<byte>>,
                                           s: Hit, gram: seq<byte>)
    requires threshold >= 1 && Counts(table, frames, lo, hi) && AreHits(hits, table, threshold)
    requires Grouped(hits, groups) && SuppressedUpTo(suppressed, groups, |groups|, 0)
    requires s in hits && s.gram !in suppressed
    requires InRange(gram, lo, hi) && |gram| > |s.gram| && Contains(gram, s.gram)
    ensures Count(frames, gram) != s.count
  {
    HitsAreDistinct(hits, table, threshold);
    hide Grouped, SuppressedUpTo, Contains;
    SuppressedIsExplained(hits, groups, suppressed, s);
    var h := Hit(gram, Count(frames, gram));
    assert h.count >= threshold ==> Holders(frames, gram) != {};
    assert h.count >= threshold ==> h in hits;
    assert h.count == s.count ==> Explains(h, s);
  }
}

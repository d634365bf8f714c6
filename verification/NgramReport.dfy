/** The report of shared byte sequences: ranked, cut to a limit, and with sample offsets. */
module NgramReport {
  import opened Bytes
  import opened Ngrams

  // ---- ranking ----

  /** Python's order on byte strings. */
  predicate Less(a: seq<byte>, b: seq<byte>) {
    b != [] && (a == [] || a[0] < b[0] || (a[0] == b[0] && Less(a[1..], b[1..])))
  }

  /** Longer grams first, then those in more frames, then by their bytes. */
  predicate Before(x: Hit, y: Hit) {
    || |x.gram| > |y.gram|
    || (|x.gram| == |y.gram| && x.count > y.count)
    || (|x.gram| == |y.gram| && x.count == y.count && Less(x.gram, y.gram))
  }

  ghost predicate Ranked(hits: seq<Hit>) {
    forall i, j :: 0 <= i < j < |hits| ==> Before(hits[i], hits[j])
  }

  /** The first of two reported hits is longer, or as long and in more frames, or smaller where they first differ. */
  ghost predicate InOrder(x: Hit, y: Hit) {
    || |x.gram| > |y.gram|
    || (|x.gram| == |y.gram| && x.count > y.count)
    || (|x.gram| == |y.gram| && x.count == y.count
        && exists p :: 0 <= p < |x.gram| && x.gram[..p] == y.gram[..p] && x.gram[p] < y.gram[p])
  }

  lemma {:induction false} LessMeans(a: seq<byte>, b: seq<byte>)
    requires |a| == |b|
    ensures Less(a, b) <==> exists p :: 0 <= p < |a| && a[..p] == b[..p] && a[p] < b[p]
  {
    if a != [] {
      LessMeans(a[1..], b[1..]);
      if p :| 0 <= p < |a| && a[..p] == b[..p] && a[p] < b[p] {
        if p > 0 {
          assert a[0] == a[..p][0] == b[..p][0] == b[0];
          assert a[1..][..p - 1] == a[..p][1..] == b[..p][1..] == b[1..][..p - 1];
          assert a[1..][p - 1] < b[1..][p - 1];
        }
      }
      if a[0] == b[0] && Less(a[1..], b[1..]) {
        var q :| 0 <= q < |a| - 1 && a[1..][..q] == b[1..][..q] && a[1..][q] < b[1..][q];
        assert a[..q + 1] == [a[0]] + a[1..][..q] && b[..q + 1] == [b[0]] + b[1..][..q];
        assert a[q + 1] < b[q + 1];
      }
      if a[0] < b[0] {
        assert a[..0] == b[..0];
      }
    }
  }

  lemma {:induction false} BeforeMeans(x: Hit, y: Hit)
    ensures Before(x, y) <==> InOrder(x, y)
  {
    hide Less;
    if |x.gram| == |y.gram| {
      LessMeans(x.gram, y.gram);
    }
  }

  lemma {:induction false} LessAsymmetric(a: seq<byte>, b: seq<byte>)
    ensures !(Less(a, b) && Less(b, a))
  {
    if a != [] && b != [] {
      LessAsymmetric(a[1..], b[1..]);
    }
  }

  lemma {:induction false} LessTransitive(a: seq<byte>, b: seq<byte>, c: seq<byte>)
    requires Less(a, b) && Less(b, c)
    ensures Less(a, c)
  {
    if a != [] && a[0] == b[0] == c[0] {
      LessTransitive(a[1..], b[1..], c[1..]);
    }
  }

  lemma {:induction false} LessTotal(a: seq<byte>, b: seq<byte>)
    requires a != b
    ensures Less(a, b) || Less(b, a)
  {
    if a != [] && b != [] && a[0] == b[0] {
      assert a == [a[0]] + a[1..] && b == [b[0]] + b[1..];
      LessTotal(a[1..], b[1..]);
    }
  }

  lemma {:induction false} BeforeTransitive(x: Hit, y: Hit, z: Hit)
    requires Before(x, y) && Before(y, z)
    ensures Before(x, z)
  {
    hide Less;
    if Less(x.gram, y.gram) && Less(y.gram, z.gram) {
      LessTransitive(x.gram, y.gram, z.gram);
    }
  }

  lemma {:induction false} BeforeAsymmetric(x: Hit, y: Hit)
    ensures !(Before(x, y) && Before(y, x))
  {
    hide Less;
    LessAsymmetric(x.gram, y.gram);
  }

  function Insert(h: Hit, hits: seq<Hit>): seq<Hit> {
    if hits == [] || Before(h, hits[0]) then [h] + hits else [hits[0]] + Insert(h, hits[1..])
  }

  /** What sorting by the order above leaves. */
  function Sorted(hits: seq<Hit>): seq<Hit> {
    if hits == [] then [] else Insert(hits[0], Sorted(hits[1..]))
  }

  lemma {:induction false} InsertMembers(h: Hit, hits: seq<Hit>)
    ensures forall x :: x in Insert(h, hits) <==> x == h || x in hits
  {
    hide Before;
    if hits != [] && !Before(h, hits[0]) {
      InsertMembers(h, hits[1..]);
      assert hits == [hits[0]] + hits[1..];
    }
  }

  lemma {:induction false} InsertRanked(h: Hit, hits: seq<Hit>)
    requires Ranked(hits) && forall x :: x in hits ==> x.gram != h.gram
    ensures Ranked(Insert(h, hits))
  {
    if hits != [] {
      hide Less;
      var first, rest := hits[0], hits[1..];
      if Before(h, first) {
        hide Before;
        forall j | 0 <= j < |hits|
          ensures Before(h, hits[j])
        {
          if j > 0 {
            BeforeTransitive(h, first, hits[j]);
          }
        }
      } else {
        LessTotal(h.gram, first.gram);
        assert Before(first, h);
        hide Before;
        assert forall x :: x in rest ==> x in hits;
        InsertRanked(h, rest);
        InsertMembers(h, rest);
        FirstBeforeAll(first, h, rest);
      }
    }
  }

  lemma {:induction false} FirstBeforeAll(first: Hit, h: Hit, rest: seq<Hit>)
    requires Before(first, h) && Ranked([first] + rest)
    requires Ranked(Insert(h, rest)) && forall x :: x in Insert(h, rest) <==> x == h || x in rest
    ensures Ranked([first] + Insert(h, rest))
  {
    hide Before, Insert;
    forall x | x in Insert(h, rest)
      ensures Before(first, x)
    {
      if x != h {
        var k :| 0 <= k < |rest| && rest[k] == x;
        assert ([first] + rest)[0] == first && ([first] + rest)[k + 1] == x;
      }
    }
  }

  lemma {:induction false} SortedIsRanked(hits: seq<Hit>)
    requires OneEach(hits)
    ensures Ranked(Sorted(hits))
    ensures forall x :: x in Sorted(hits) <==> x in hits
  {
    hide Insert, Before;
    if hits != [] {
      var h, rest := hits[0], hits[1..];
      assert hits == [h] + rest;
      SortedIsRanked(rest);
      assert forall x :: x in rest ==> x.gram != h.gram;
      InsertRanked(h, Sorted(rest));
      InsertMembers(h, Sorted(rest));
    }
  }

  /** There is one way to rank given hits. */
  lemma {:induction false} RankedIsUnique(s: seq<Hit>, t: seq<Hit>)
    requires Ranked(s) && Ranked(t) && forall h :: h in s <==> h in t
    ensures s == t
  {
    hide Before;
    if s == [] {
      assert forall k :: 0 <= k < |t| ==> t[k] in t;
    } else {
      assert s[0] in s && s[0] in t && t[0] in t && t[0] in s;
      RankedFirst(s, t[0]);
      RankedFirst(t, s[0]);
      BeforeAsymmetric(s[0], t[0]);
      RankedTail(s);
      RankedTail(t);
      RankedIsUnique(s[1..], t[1..]);
      assert s == [s[0]] + s[1..] && t == [t[0]] + t[1..];
    }
  }

  lemma {:induction false} RankedFirst(s: seq<Hit>, h: Hit)
    requires Ranked(s) && h in s
    ensures s[0] == h || Before(s[0], h)
  {
    hide Before;
  }

  lemma {:induction false} RankedTail(s: seq<Hit>)
    requires Ranked(s) && s != []
    ensures Ranked(s[1..])
    ensures forall h :: h in s[1..] <==> h in s && h != s[0]
  {
    hide Before;
    assert s == [s[0]] + s[1..];
    forall k | 1 <= k < |s|
      ensures s[k] != s[0]
    {
      BeforeAsymmetric(s[0], s[k]);
    }
  }

  lemma {:induction false} ListedIsAdmitted(frames: seq<Frame>, lo: nat, hi: nat, threshold: nat, a: seq<Hit>, h: Hit)
    requires Complete(frames, lo, hi, threshold, a) && h in a
    ensures InRange(h.gram, lo, hi) && h.count == Count(frames, h.gram) >= threshold
  {
    hide Contains, Count, InRange;
  }

  lemma {:induction false} AdmittedIsCovered(frames: seq<Frame>, lo: nat, hi: nat, threshold: nat, a: seq<Hit>,
                                             gram: seq<byte>) returns (s: Hit)
    requires Complete(frames, lo, hi, threshold, a) && InRange(gram, lo, hi) && Count(frames, gram) >= threshold
    ensures s in a && s.count == Count(frames, gram) && Contains(s.gram, gram)
  {
    hide Contains, Count, InRange;
    s :| s in a && s.count == Count(frames, gram) && Contains(s.gram, gram);
  }

  lemma {:induction false} ListedIsLongest(frames: seq<Frame>, lo: nat, hi: nat, threshold: nat, a: seq<Hit>, h: Hit,
                                           gram: seq<byte>)
    requires Complete(frames, lo, hi, threshold, a) && h in a
    requires InRange(gram, lo, hi) && Contains(gram, h.gram) && Count(frames, gram) == h.count
    ensures |gram| <= |h.gram|
  {
    hide Contains, Count, InRange;
  }

  /** Two complete lists hold the same hits. */
  lemma {:induction false} CompleteHolds(frames: seq<Frame>, lo: nat, hi: nat, threshold: nat, a: seq<Hit>,
                                         b: seq<Hit>, h: Hit)
    requires Complete(frames, lo, hi, threshold, a) && Complete(frames, lo, hi, threshold, b) && h in a
    ensures h in b
  {
    hide *;
    ListedIsAdmitted(frames, lo, hi, threshold, a, h);
    var s := AdmittedIsCovered(frames, lo, hi, threshold, b, h.gram);
    ListedIsAdmitted(frames, lo, hi, threshold, b, s);
    ListedIsLongest(frames, lo, hi, threshold, a, h, s.gram);
    ContainsShorter(s.gram, h.gram);
    assert s == h;
  }

  lemma {:induction false} ContainsShorter(x: seq<byte>, y: seq<byte>)
    requires Contains(x, y)
    ensures |x| > |y| || x == y
  {
  }

  /** What is reported, and in which order, follows from the frames alone: no order of traversal shows. */
  lemma {:induction false} ReportIsDetermined(frames: seq<Frame>, lo: nat, hi: nat, threshold: nat, a: seq<Hit>,
                                              b: seq<Hit>)
    requires Complete(frames, lo, hi, threshold, a) && Complete(frames, lo, hi, threshold, b)
    requires Ranked(a) && Ranked(b)
    ensures a == b
  {
    hide *;
    forall h
      ensures h in a <==> h in b
    {
      if h in a {
        CompleteHolds(frames, lo, hi, threshold, a, b, h);
      }
      if h in b {
        CompleteHolds(frames, lo, hi, threshold, b, a, h);
      }
    }
    RankedIsUnique(a, b);
  }

  // ---- samples ----

  /** The first offsets the gram occurs at in a frame. */
  datatype Sample = Sample(id: FrameId, offsets: seq<nat>)

  datatype Sequence = Sequence(gram: seq<byte>, count: nat, samples: seq<Sample>)

  const MAX_OFFSETS: nat := 4
  const MAX_SAMPLES: nat := 3

  ghost predicate Ascending(offsets: seq<nat>) {
    forall i, j :: 0 <= i < j < |offsets| ==> offsets[i] < offsets[j]
  }

  /** The first occurrences, overlapping ones included, and all of them when there are no more than four. */
  ghost predicate FirstOffsets(raw: seq<byte>, gram: seq<byte>, offsets: seq<nat>) {
    && |offsets| <= 4 && Ascending(offsets)
    && (forall k :: 0 <= k < |offsets| ==> At(raw, gram, offsets[k]))
    && (forall i: nat :: At(raw, gram, i) && i !in offsets ==>
          |offsets| == 4 && forall k :: 0 <= k < |offsets| ==> offsets[k] < i)
  }

  /** The first three frames that hold the gram, or all when they are fewer, each with its first offsets. */
  ghost predicate Sampled(frames: seq<Frame>, gram: seq<byte>, samples: seq<Sample>) {
    var held := Carriers(frames, gram);
    && |samples| == (if |held| < 3 then |held| else 3)
    && forall k :: 0 <= k < |samples| ==>
         samples[k].id == held[k].id && samples[k].offsets != [] && FirstOffsets(held[k].raw, gram, samples[k].offsets)
  }

  /** The leftmost occurrence at `start` or after it, or -1. */
  function FindFrom(raw: seq<byte>, gram: seq<byte>, start: nat): (r: int)
    requires start <= |raw|
    ensures r == -1 || start <= r
    ensures r >= 0 ==> At(raw, gram, r)
    ensures forall i: nat :: start <= i && At(raw, gram, i) ==> 0 <= r <= i
  {
    FindsFrom(raw, gram, start);
    var r := Find(raw[start..], gram);
    if r < 0 then -1 else start + r
  }

  lemma {:induction false} FindsFrom(raw: seq<byte>, gram: seq<byte>, start: nat)
    requires start <= |raw|
    ensures var r := Find(raw[start..], gram);
            && (r >= 0 ==> At(raw, gram, start + r))
            && forall i: nat :: start <= i && At(raw, gram, i) ==> 0 <= r <= i - start
  {
    hide Find;
    var tail := raw[start..];
    var r := Find(tail, gram);
    if r >= 0 {
      FoundIsOccurrence(tail, gram);
      assert tail[r..r + |gram|] == raw[start + r..start + r + |gram|];
    }
    forall i: nat | start <= i && At(raw, gram, i)
      ensures 0 <= r <= i - start
    {
      assert tail[i - start..i - start + |gram|] == raw[i..i + |gram|];
      FoundIsLeftmost(tail, gram, i - start);
    }
  }

  method SampleOffsets(raw: seq<byte>, gram: seq<byte>) returns (offsets: seq<nat>)
    requires gram != []
    ensures FirstOffsets(raw, gram, offsets)
  {
    offsets := [];
    var start: nat := 0;
    while |offsets| < MAX_OFFSETS
      invariant start <= |raw| && |offsets| <= MAX_OFFSETS && Ascending(offsets)
      invariant forall k :: 0 <= k < |offsets| ==> offsets[k] < start && At(raw, gram, offsets[k])
      invariant forall i: nat :: i < start && At(raw, gram, i) ==> i in offsets
      decreases MAX_OFFSETS - |offsets|
    {
      var idx := FindFrom(raw, gram, start);
      if idx < 0 {
        break;
      }
      offsets := offsets + [idx];
      start := idx + 1;
    }
  }

  lemma {:induction false} CarriersOneMore(frames: seq<Frame>, k: nat, gram: seq<byte>)
    requires k < |frames|
    ensures |frames[..k + 1]| == k + 1
    ensures Carriers(frames[..k + 1], gram) ==
              Carriers(frames[..k], gram) + if Contains(frames[k].raw, gram) then [frames[k]] else []
  {
    assert frames[..k + 1][..k] == frames[..k];
  }

  lemma {:induction false} CarriersPrefix(frames: seq<Frame>, k: nat, gram: seq<byte>)
    requires k <= |frames|
    ensures Carriers(frames[..k], gram) <= Carriers(frames, gram)
    decreases |frames| - k
  {
    hide Carriers;
    if k == |frames| {
      assert frames[..k] == frames;
    } else {
      CarriersOneMore(frames, k, gram);
      CarriersPrefix(frames, k + 1, gram);
    }
  }

  lemma {:induction false} OffsetsShowHolding(raw: seq<byte>, gram: seq<byte>, offsets: seq<nat>)
    requires FirstOffsets(raw, gram, offsets)
    ensures offsets != [] <==> Contains(raw, gram)
  {
    assert offsets != [] ==> At(raw, gram, offsets[0]);
    if i :| 0 <= i <= |raw| && At(raw, gram, i) {
      assert i in offsets || |offsets| == MAX_OFFSETS;
    }
  }

  method SampleFrames(frames: seq<Frame>, gram: seq<byte>) returns (samples: seq<Sample>)
    requires gram != []
    ensures Sampled(frames, gram, samples)
  {
    hide FirstOffsets, Contains, Carriers;
    samples := [];
    NoCarriers(gram);
    for k := 0 to |frames|
      invariant |samples| == |Carriers(frames[..k], gram)| < MAX_SAMPLES && Sampled(frames[..k], gram, samples)
    {
      CarriersOneMore(frames, k, gram);
      var offsets := SampleOffsets(frames[k].raw, gram);
      OffsetsShowHolding(frames[k].raw, gram, offsets);
      if offsets != [] {
        samples := samples + [Sample(frames[k].id, offsets)];
      }
      if |samples| >= MAX_SAMPLES {
        CarriersPrefix(frames, k + 1, gram);
        return;
      }
    }
    assert frames[..|frames|] == frames;
  }

  lemma {:induction false} NoCarriers(gram: seq<byte>)
    ensures Carriers([], gram) == []
  {
  }

  // ---- the whole report ----

  ghost predicate Reports(frames: seq<Frame>, hits: seq<Hit>, found: seq<Sequence>) {
    && |found| == |hits|
    && forall k :: 0 <= k < |hits| ==>
         && found[k].gram == hits[k].gram && found[k].count == hits[k].count
         && Sampled(frames, hits[k].gram, found[k].samples)
  }

  method Describe(frames: seq<Frame>, hits: seq<Hit>) returns (found: seq<Sequence>)
    requires forall h :: h in hits ==> h.gram != []
    ensures Reports(frames, hits, found)
  {
    hide Sampled;
    found := [];
    for k := 0 to |hits|
      invariant Reports(frames, hits[..k], found)
    {
      assert hits[k] in hits;
      var samples := SampleFrames(frames, hits[k].gram);
      found := found + [Sequence(hits[k].gram, hits[k].count, samples)];
    }
    assert hits[..|hits|] == hits;
  }

  /** How many of `n` frames a gram must occur in, for the given share of them. */
  function Threshold(minCoverage: real, n: nat): (t: nat)
    ensures t >= 1
  {
    var least := -(-(minCoverage * n as real)).Floor;
    if least >= 1 then least else 1
  }

  /** A count reaches the threshold just when some frame holds the gram and the share of frames is reached. */
  lemma {:induction false} ThresholdIsShare(minCoverage: real, n: nat, count: nat)
    ensures count >= Threshold(minCoverage, n) <==> count >= 1 && count as real >= minCoverage * n as real
  {
    var share := minCoverage * n as real;
    assert -((-share).Floor as real) >= share > -((-share).Floor as real) - 1.0;
  }

  /**
   The sequences reported are the first `maxResults` of the one ranked list that holds every gram of an
   admitted length that the given share of the frames hold, unless a longer one in as many frames explains
   it; each comes with the first offsets in the first frames that hold it.
   */
  method FindConstantByteSequences(frames: seq<Frame>, minLength: int, maxLength: int, minCoverage: real,
                                   maxResults: int)
    returns (found: seq<Sequence>, ghost all: seq<Hit>)
    ensures |frames| == 0 || minLength < 1 || maxLength < minLength ==> found == []
    ensures 1 <= minLength <= maxLength ==>
              Complete(frames, minLength, maxLength, Threshold(minCoverage, |frames|), all)
    ensures Ranked(all) && Reports(frames, Head(all, maxResults), found)
    ensures forall i, j :: 0 <= i < j < |found| ==>
              InOrder(Hit(found[i].gram, found[i].count), Hit(found[j].gram, found[j].count))
  {
    var threshold := Threshold(minCoverage, |frames|);
    if |frames| == 0 || minLength < 1 || maxLength < minLength {
      NoFrames(threshold);
      all, found := [], [];
      return;
    }
    hide Threshold;
    var surviving := Survivors(frames, minLength, maxLength, threshold);
    SortedIsRanked(surviving);
    all := Sorted(surviving);
    CompleteMembers(frames, minLength, maxLength, threshold, surviving, all);
    hide *;
    found := Describe(frames, Head(Sorted(surviving), maxResults));
    FoundInOrder(frames, all, maxResults, found);
  }

  lemma {:induction false} FoundInOrder(frames: seq<Frame>, all: seq<Hit>, maxResults: int, found: seq<Sequence>)
    requires Ranked(all) && Reports(frames, Head(all, maxResults), found)
    ensures forall i, j :: 0 <= i < j < |found| ==>
              InOrder(Hit(found[i].gram, found[i].count), Hit(found[j].gram, found[j].count))
  {
    hide Before, InOrder, Sampled, Head;
    var hits := Head(all, maxResults);
    forall i, j | 0 <= i < j < |found|
      ensures InOrder(Hit(found[i].gram, found[i].count), Hit(found[j].gram, found[j].count))
    {
      assert hits[i] == all[i] && hits[j] == all[j];
      BeforeMeans(all[i], all[j]);
    }
  }

  lemma {:induction false} CompleteMembers(frames: seq<Frame>, lo: nat, hi: nat, threshold: nat, a: seq<Hit>,
                                           b: seq<Hit>)
    requires 1 <= lo <= hi && Complete(frames, lo, hi, threshold, a) && forall h :: h in b <==> h in a
    ensures Complete(frames, lo, hi, threshold, b)
    ensures forall h :: h in b ==> h.gram != []
  {
    hide Count, Contains;
    forall gram | InRange(gram, lo, hi) && Count(frames, gram) >= threshold
      ensures exists s :: s in b && s.count == Count(frames, gram) && Contains(s.gram, gram)
    {
      var s :| s in a && s.count == Count(frames, gram) && Contains(s.gram, gram);
      assert s in b;
    }
  }
}

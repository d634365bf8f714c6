/** Bytes and fixed-width unsigned integers in both byte orders. */
module Bytes {

  newtype byte = x: int | 0 <= x < 256

  datatype ByteOrder = Big | Little

  function Reverse<T>(s: seq<T>): (r: seq<T>)
    ensures |r| == |s|
    ensures forall k :: 0 <= k < |s| ==> r[k] == s[|s| - 1 - k]
  {
    if s == [] then [] else Reverse(s[1..]) + [s[0]]
  }

  function Concat<T>(parts: seq<seq<T>>): seq<T> {
    if parts == [] then [] else parts[0] + Concat(parts[1..])
  }

  lemma {:induction false} ConcatAppend<T>(xs: seq<seq<T>>, ys: seq<seq<T>>)
    ensures Concat(xs + ys) == Concat(xs) + Concat(ys)
  {
    if xs == [] {
      assert xs + ys == ys;
    } else {
      assert (xs + ys)[1..] == xs[1..] + ys;
      ConcatAppend(xs[1..], ys);
    }
  }

  /** Number of values a width-`w` field can hold. */
  function Limit(w: nat): (r: nat)
    ensures r >= 1
  {
    if w == 0 then 1 else 256 * Limit(w - 1)
  }

  /** Value of big-endian bytes. */
  function FromBig(b: seq<byte>): nat {
    if b == [] then 0 else FromBig(b[..|b| - 1]) * 256 + b[|b| - 1] as nat
  }

  function FromBytes(b: seq<byte>, order: ByteOrder): nat {
    if order.Big? then FromBig(b) else FromBig(Reverse(b))
  }

  /** The last byte of big-endian text and the first of little-endian text count once, the others 256 times as much. */
  lemma {:induction false} BytePlaces(b: seq<byte>, y: byte)
    ensures FromBytes([], Big) == 0 && FromBytes([], Little) == 0
    ensures FromBytes(b + [y], Big) == 256 * FromBytes(b, Big) + y as nat
    ensures FromBytes([y] + b, Little) == y as nat + 256 * FromBytes(b, Little)
  {
    assert (b + [y])[..|b|] == b;
    assert ([y] + b)[1..] == b && Reverse([y] + b) == Reverse(b) + [y];
    assert (Reverse(b) + [y])[..|b|] == Reverse(b);
  }

  function ToBig(n: nat, w: nat): (r: seq<byte>)
    ensures |r| == w
  {
    if w == 0 then [] else ToBig(n / 256, w - 1) + [(n % 256) as byte]
  }

  function ToBytes(n: nat, w: nat, order: ByteOrder): (r: seq<byte>)
    ensures |r| == w
  {
    if order.Big? then ToBig(n, w) else Reverse(ToBig(n, w))
  }

  lemma {:induction false} BigRoundTrip(n: nat, w: nat)
    requires n < Limit(w)
    ensures FromBig(ToBig(n, w)) == n
  {
    if w > 0 {
      BigRoundTrip(n / 256, w - 1);
      assert ToBig(n, w)[..w - 1] == ToBig(n / 256, w - 1);
    }
  }

  /** A value that fits its width survives encoding, in both byte orders. */
  lemma {:induction false} RoundTrip(n: nat, w: nat, order: ByteOrder)
    requires n < Limit(w)
    ensures FromBytes(ToBytes(n, w, order), order) == n
  {
    BigRoundTrip(n, w);
    assert Reverse(Reverse(ToBig(n, w))) == ToBig(n, w);
  }

  lemma {:induction false} FromBigBound(b: seq<byte>)
    ensures FromBig(b) < Limit(|b|)
  {
    if b != [] {
      FromBigBound(b[..|b| - 1]);
    }
  }

  /** Equal-width byte strings with the same value are the same bytes. */
  lemma {:induction false} FromBigInjective(x: seq<byte>, y: seq<byte>)
    requires |x| == |y|
    ensures FromBig(x) == FromBig(y) <==> x == y
  {
    if x != [] {
      FromBigInjective(x[..|x| - 1], y[..|y| - 1]);
      assert x == x[..|x| - 1] + [x[|x| - 1]];
      assert y == y[..|y| - 1] + [y[|y| - 1]];
    }
  }

  lemma {:induction false} BigFieldRoundTrip(x: seq<byte>)
    ensures ToBig(FromBig(x), |x|) == x
  {
    FromBigBound(x);
    BigRoundTrip(FromBig(x), |x|);
    FromBigInjective(ToBig(FromBig(x), |x|), x);
  }

  /** Decoding a field and encoding it again gives the same bytes, in both byte orders. */
  lemma {:induction false} FieldRoundTrip(b: seq<byte>, order: ByteOrder)
    ensures FromBytes(b, order) < Limit(|b|)
    ensures ToBytes(FromBytes(b, order), |b|, order) == b
  {
    hide FromBig, ToBig;
    var big := if order.Big? then b else Reverse(b);
    FromBigBound(big);
    BigFieldRoundTrip(big);
    assert Reverse(Reverse(b)) == b;
  }

  // ---- slices ----

  /** Python's `s[:limit]`; a negative limit counts from the end. */
  function Head<T>(s: seq<T>, limit: int): (r: seq<T>)
    ensures r <= s
    ensures |r| == if limit >= 0 then if limit < |s| then limit else |s| else if |s| + limit > 0 then |s| + limit else 0
  {
    if limit >= |s| then s
    else if limit >= 0 then s[..limit]
    else if |s| + limit > 0 then s[..|s| + limit]
    else []
  }

  // ---- searching ----

  predicate At(x: seq<byte>, d: seq<byte>, i: int) {
    0 <= i && i + |d| <= |x| && x[i..i + |d|] == d
  }

  /** Offset of the first occurrence of `d` in `x` met from the left, or -1. */
  function Find(x: seq<byte>, d: seq<byte>): (r: int)
    ensures r == -1 || 0 <= r <= |x| - |d|
    decreases |x|
  {
    if |x| < |d| then -1
    else if x[..|d|] == d then 0
    else if x == [] then -1
    else
      var r := Find(x[1..], d);
      if r < 0 then -1 else r + 1
  }

  /** An offset found is an occurrence. */
  lemma {:induction false} FoundIsOccurrence(x: seq<byte>, d: seq<byte>)
    requires Find(x, d) >= 0
    ensures At(x, d, Find(x, d))
    decreases |x|
  {
    if x[..|d|] != d {
      FoundIsOccurrence(x[1..], d);
      var r := Find(x[1..], d);
      assert x[r + 1..r + 1 + |d|] == x[1..][r..r + |d|];
    }
  }

  /** No occurrence is passed over. */
  lemma {:induction false} FoundIsLeftmost(x: seq<byte>, d: seq<byte>, i: nat)
    requires At(x, d, i)
    ensures 0 <= Find(x, d) <= i
    decreases |x|
  {
    if x[..|d|] != d {
      assert i > 0;
      assert x[1..][i - 1..i - 1 + |d|] == x[i..i + |d|];
      FoundIsLeftmost(x[1..], d, i - 1);
    }
  }
}

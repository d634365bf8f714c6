/** The compiler reads ranges, groups and counts in their written forms and in no other. */
module PatternReads {
  import opened NumberForms
  import opened Options
  import opened PatternForms
  import opened PatternRegex
  import opened PatternTokens
  import opened Text

  // ---- texts that are read come from written forms ----

  lemma {:induction false} DigitsAreDecimal(s: string)
    requires AllDigits(s)
    ensures DecimalOf(s, Decimal(s))
    decreases |s|
  {
    if s == [] {
      var ds: seq<nat>, caps: seq<bool> := [], [];
      assert |caps| == |ds| && AllBelow(ds, 10) && s == Spelled(ds, caps) && 0 == PlaceValue(ds, 10);
    } else {
      var n := |s| - 1;
      DigitsAreDecimal(s[..n]);
      var ds, caps :|
        |caps| == |ds| && AllBelow(ds, 10) && s[..n] == Spelled(ds, caps) && Decimal(s[..n]) == PlaceValue(ds, 10);
      var d: nat := s[n] as int - '0' as int;
      LastWritten(s, ds, caps, d);
      assert DecimalOf(s, Decimal(s)) by {
        assert (ds + [d])[..|ds|] == ds && AllBelow(ds + [d], 10);
      }
    }
  }

  lemma {:induction false} LastWritten(s: string, ds: seq<nat>, caps: seq<bool>, d: nat)
    requires s != [] && |caps| == |ds| && AllBelow(ds, 10) && d < 10 && s[..|s| - 1] == Spelled(ds, caps)
    requires IsDigit(s[|s| - 1]) && s[|s| - 1] as int == d + '0' as int
    ensures s == Spelled(ds + [d], caps + [false])
  {
    DigitPlace(d);
    hide Written;
    var t := Spelled(ds + [d], caps + [false]);
    assert s == s[..|s| - 1] + [s[|s| - 1]];
    assert t == Spelled(ds, caps) + [Written(d, false)];
  }

  lemma {:induction false} DigitPlace(d: nat)
    requires d < 10
    ensures Written(d, false) as int == d + '0' as int
  {
  }

  lemma {:induction false} PairIsPairOf(t: string)
    requires IsHexPair(t)
    ensures PairOf(t, PairValue(t))
  {
    PairIs(t, PairValue(t));
  }

  lemma {:induction false} PartIsWritten(part: string)
    requires IsHexPair(Strip(part))
    ensures exists a, t, b ::
              part == a + t + b && AllSpace(a) && AllSpace(b) && t == Strip(part) && PairOf(t, PairValue(Strip(part)))
  {
    hide Strip, AllSpace, PairOf, PairValue;
    StripSplits(part);
    PairIsPairOf(Strip(part));
  }

  lemma {:induction false} CountIsWritten(inner: string, least: nat, most: Option<nat>)
    requires Counts(inner) == Some((least, most))
    ensures CountText(inner, least, most)
  {
    hide DecimalOf, Decimal, AllDigits, IndexOf;
    var c := IndexOf(inner, ',');
    DigitsAreDecimal(inner[..c]);
    if c == |inner| {
      assert inner[..c] == inner;
    } else {
      SplitAt(inner, ',');
      DigitsAreDecimal(inner[c + 1..]);
    }
  }

  lemma {:induction false} SplitAt(s: string, c: char)
    requires IndexOf(s, c) < |s|
    ensures s == s[..IndexOf(s, c)] + ([c] + s[IndexOf(s, c) + 1..])
  {
    hide IndexOf;
  }

  lemma {:induction false} LastBar(s: string, v: nat)
    requires IsHexPair(Strip(s)) && v == PairValue(Strip(s))
    ensures BarsText(s, [v])
  {
    hide Strip, AllSpace, PairOf, PairValue, IsHexPair;
    PartIsWritten(s);
  }

  lemma {:induction false} FirstBar(s: string, part: string, rest: string, v: nat, vs: seq<nat>)
    requires IsHexPair(Strip(part)) && v == PairValue(Strip(part))
    requires s == part + (['|'] + rest) && vs != [] && BarsText(rest, vs)
    ensures BarsText(s, [v] + vs)
  {
    hide Strip, AllSpace, PairOf, PairValue, IsHexPair;
    PartIsWritten(part);
    var a, t, b :| part == a + t + b && AllSpace(a) && AllSpace(b) && t == Strip(part) && PairOf(t, v);
    assert BarsFirst(s, v, a, t, b, rest);
    assert ([v] + vs)[0] == v && ([v] + vs)[1..] == vs;
  }

  lemma {:induction false} GroupIsWritten(s: string, vs: seq<nat>)
    requires Choices(s) == Some(vs)
    ensures BarsText(s, vs)
    decreases |s|
  {
    hide Strip, PairValue, IsHexPair, IndexOf, BarsText;
    var d := IndexOf(s, '|');
    if d == |s| {
      assert s[..d] == s;
      LastBar(s, vs[0]);
      assert vs == [vs[0]];
    } else {
      var rest := s[d + 1..];
      SplitAt(s, '|');
      GroupIsWritten(rest, Choices(rest).value);
      FirstBar(s, s[..d], rest, PairValue(Strip(s[..d])), Choices(rest).value);
    }
  }

  lemma {:induction false} RangeIsWritten(inner: string, lo: nat, hi: nat)
    requires RangeOf(inner) == Some(Span(lo, hi))
    ensures SpanText(inner, lo, hi)
  {
    hide Strip, AllSpace, PairOf, PairValue, IsHexPair, IndexOf;
    var d := IndexOf(inner, '-');
    var x, y := inner[..d], inner[d + 1..];
    SplitAt(inner, '-');
    PartIsWritten(x);
    PartIsWritten(y);
    assert PairValue(Strip(x)) == lo && PairValue(Strip(y)) == hi;
    hide RangeOf;
    var a, t, b :| x == a + t + b && AllSpace(a) && AllSpace(b) && t == Strip(x) && PairOf(t, lo);
    var c, u, e :| y == c + u + e && AllSpace(c) && AllSpace(e) && u == Strip(y) && PairOf(u, hi);
    assert RangeParts(inner, lo, hi, a, t, b, c, u, e);
  }

  // ---- exactly these forms ----

  /** A count is read exactly when it is written, and as what is written. */
  lemma {:induction false} CountsExactly(inner: string, least: nat, most: Option<nat>)
    ensures Counts(inner) == Some((least, most)) <==> CountText(inner, least, most)
  {
    hide Counts, CountText;
    if CountText(inner, least, most) {
      CountReads(inner, least, most);
    }
    if Counts(inner) == Some((least, most)) {
      CountIsWritten(inner, least, most);
    }
  }

  /** A group is read exactly when its parts are pairs of hex digits with bars between them. */
  lemma {:induction false} GroupsExactly(s: string, vs: seq<nat>)
    ensures Choices(s) == Some(vs) <==> BarsText(s, vs)
  {
    hide Choices, BarsText;
    if BarsText(s, vs) {
      BarsAreRead(s, vs);
    }
    if Choices(s) == Some(vs) {
      GroupIsWritten(s, vs);
    }
  }

  /** A range is read exactly when it is two pairs of hex digits with a hyphen between them. */
  lemma {:induction false} RangesExactly(inner: string, lo: nat, hi: nat)
    ensures RangeOf(inner) == Some(Span(lo, hi)) <==> SpanText(inner, lo, hi)
  {
    hide RangeOf, SpanText;
    if SpanText(inner, lo, hi) {
      SpanIsRead(inner, lo, hi);
    }
    if RangeOf(inner) == Some(Span(lo, hi)) {
      RangeIsWritten(inner, lo, hi);
    }
  }

  // ---- limits and escapes ----

  /** Python's limit on repetitions, which no bound may reach; and the bounds must not run backwards. */
  lemma {:induction false} RepeatLimit(least: nat, most: Option<nat>)
    ensures Good(Item(Any, least, most)) <==>
              least <= 4294967294 && match most { case None => true case Some(n) => least <= n <= 4294967294 }
  {
  }

  /** Of the bytes an escape may name, those with a meaning of their own, and blanks, are written behind a backslash. */
  lemma {:induction false} EscapedBytes(v: nat)
    requires v < 256
    ensures EscapeByte(v) ==
              if v in {9, 10, 11, 12, 13, 32, 35, 36, 38, 40, 41, 42, 43, 45, 46, 63, 91, 92, 93, 94,
                       123, 124, 125, 126}
              then ['\\', v as char] else [v as char]
  {
  }

  /** A count is passed on as it stands, and refused when it is not ASCII. */
  lemma {:induction false} BracePassesOn(t: string)
    requires IsBraceToken(t)
    ensures TokenToRegex(t) == (if forall c :: c in t ==> c as int <= 127 then Some(t) else None)
  {
    forall k | 0 <= k < |t|
      ensures t[k] in t
    {
    }
  }
}

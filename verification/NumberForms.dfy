/** Which texts Python reads as integers, and as which: place value, prefixes, signs, underscores and spaces. */
module NumberForms {
  import opened Options
  import opened PyNumbers
  import opened Text

  const LOWER_DIGITS: string := "0123456789abcdef"
  const UPPER_DIGITS: string := "0123456789ABCDEF"

  // ---- digits and place value ----

  /** A digit is worth its place in the table, in either case; nothing else is a digit of base 16. */
  lemma {:induction false} DigitIsItsPlace(c: char)
    ensures forall v :: 0 <= v < 16 ==> Digit(LOWER_DIGITS[v]) == v && Digit(UPPER_DIGITS[v]) == v
    ensures Digit(c) < 16 ==> c == LOWER_DIGITS[Digit(c)] || c == UPPER_DIGITS[Digit(c)]
  {
  }

  function Written(v: nat, upper: bool): char
    requires v < 16
  {
    if upper then UPPER_DIGITS[v] else LOWER_DIGITS[v]
  }

  /** Digit values spelled out, each in the case chosen for it. */
  function Spelled(ds: seq<nat>, caps: seq<bool>): (s: string)
    requires |caps| == |ds| && forall k :: 0 <= k < |ds| ==> ds[k] < 16
    ensures |s| == |ds|
  {
    seq(|ds|, k requires 0 <= k < |ds| => Written(ds[k], caps[k]))
  }

  ghost predicate AllBelow(ds: seq<nat>, base: nat) {
    forall k :: 0 <= k < |ds| ==> ds[k] < base
  }

  /** Each place is worth `base` times the next. */
  function PlaceValue(ds: seq<nat>, base: nat): nat {
    if ds == [] then 0 else PlaceValue(ds[..|ds| - 1], base) * base + ds[|ds| - 1]
  }

  lemma {:induction false} DigitWritten(v: nat, upper: bool)
    requires v < 16
    ensures var c := Written(v, upper);
            Digit(c) == v && c != '_' && !IsSpace(c) && c != '-' && c != '+' && (c == '0' <==> v == 0)
            && (v < 10 ==> '0' <= c <= '9')
  {
  }

  lemma {:induction false} SpelledEnds(ds: seq<nat>, caps: seq<bool>)
    requires ds != [] && |caps| == |ds| && AllBelow(ds, 16)
    ensures var s := Spelled(ds, caps);
            && !IsSpace(s[0]) && !IsSpace(s[|s| - 1]) && s[|s| - 1] != '_' && s[0] != '_' && s[0] != '-' && s[0] != '+'
            && (s[0] == '0' <==> ds[0] == 0)
  {
    hide IsSpace, Written, Digit;
    DigitWritten(ds[0], caps[0]);
    DigitWritten(ds[|ds| - 1], caps[|ds| - 1]);
  }

  /** Digits of a base are read as their place value, whatever their case. */
  lemma {:induction false} SpelledReads(ds: seq<nat>, caps: seq<bool>, base: nat)
    requires ds != [] && |caps| == |ds| && AllBelow(ds, base) && base <= 16
    ensures Digits(Spelled(ds, caps), base) == Some(PlaceValue(ds, base))
    decreases |ds|
  {
    hide Digit, IsSpace, Digits, Written;
    var n := |ds| - 1;
    DigitWritten(ds[n], caps[n]);
    var d := Written(ds[n], caps[n]);
    if n == 0 {
      assert Spelled(ds, caps) == [d] && ds[..0] == [];
      OneDigit(d, base);
    } else {
      assert Spelled(ds, caps) == Spelled(ds[..n], caps[..n]) + [d];
      SpelledReads(ds[..n], caps[..n], base);
      SpelledEnds(ds[..n], caps[..n]);
      LastDigit(Spelled(ds[..n], caps[..n]), d, base);
    }
  }

  lemma {:induction false} OneDigit(d: char, base: nat)
    requires Digit(d) < base
    ensures Digits([d], base) == Some(Digit(d))
  {
    hide Digit;
  }

  lemma {:induction false} LastDigit(front: string, d: char, base: nat)
    requires front != [] && front[|front| - 1] != '_' && Digit(d) < base
    ensures Digits(front + [d], base) ==
              match Digits(front, base) { case None => None case Some(v) => Some(v * base + Digit(d)) }
  {
    hide Digit;
    assert (front + [d])[..|front|] == front;
  }

  // ---- named bases ----

  /** The three prefixes, in both cases. */
  function Prefix(base: nat, upper: bool): string {
    if base == 16 then if upper then "0X" else "0x"
    else if base == 8 then if upper then "0O" else "0o"
    else if upper then "0B" else "0b"
  }

  lemma {:induction false} PrefixReads(ds: seq<nat>, caps: seq<bool>, base: nat, capital: bool)
    requires base == 16 || base == 8 || base == 2
    requires ds != [] && |caps| == |ds| && AllBelow(ds, base)
    ensures PrefixedDigits(Prefix(base, capital) + Spelled(ds, caps)) == Some(PlaceValue(ds, base))
  {
    var s := Spelled(ds, caps);
    SpelledReads(ds, caps, base);
    SpelledEnds(ds, caps);
    hide Digits, Spelled, IsSpace;
    assert (Prefix(base, capital) + s)[2..] == s;
  }

  /** One underscore may stand behind the prefix. */
  lemma {:induction false} PrefixUnderscore(ds: seq<nat>, caps: seq<bool>, base: nat, capital: bool)
    requires base == 16 || base == 8 || base == 2
    requires ds != [] && |caps| == |ds| && AllBelow(ds, base)
    ensures PrefixedDigits(Prefix(base, capital) + ['_'] + Spelled(ds, caps)) == Some(PlaceValue(ds, base))
  {
    hide Digits, Spelled, PlaceValue, Digit;
    var s := Spelled(ds, caps);
    SpelledReads(ds, caps, base);
    assert (Prefix(base, capital) + ['_'] + s)[2..] == ['_'] + s && (['_'] + s)[1..] == s;
  }

  /** Spaces around a number and one sign before it do not hide it. */
  lemma {:induction false} SignedReads(u: string, v: nat, named: bool)
    requires u != [] && !IsSpace(u[0]) && !IsSpace(u[|u| - 1]) && u[0] != '-' && u[0] != '+'
    requires (if named then PrefixedDigits(u) else Digits(u, 10)) == Some(v)
    ensures ParseInt(u, named) == Some(v)
    ensures ParseInt(['+'] + u, named) == Some(v)
    ensures ParseInt(['-'] + u, named).Some? && ParseInt(['-'] + u, named).value + v == 0
  {
    SignsAreNoSpaces();
    hide IsSpace, PrefixedDigits, Digits, Strip;
    StripId(u);
    StripId(['+'] + u);
    StripId(['-'] + u);
    assert (['+'] + u)[1..] == u && (['-'] + u)[1..] == u;
  }

  lemma SignsAreNoSpaces()
    ensures !IsSpace('-') && !IsSpace('+')
  {
  }

  lemma {:induction false} SpacesAround(a: string, t: string, b: string, named: bool)
    requires AllSpace(a) && AllSpace(b) && t != [] && !IsSpace(t[0]) && !IsSpace(t[|t| - 1])
    ensures ParseInt(a + t + b, named) == ParseInt(t, named)
  {
    hide *;
    StripsSpaces(a, t, b);
    StripId(t);
    SameStripped(a + t + b, t, named);
  }

  lemma {:induction false} SameStripped(s: string, t: string, named: bool)
    requires Strip(s) == Strip(t)
    ensures ParseInt(s, named) == ParseInt(t, named)
  {
    hide Strip, PrefixedDigits, Digits;
  }

  /**
   With the base named by the text: digits of base 16, 8 or 2 behind their prefix, in either case and with
   either sign, are read as their place value.
   */
  lemma {:induction false} NamedBaseReads(ds: seq<nat>, caps: seq<bool>, base: nat, capital: bool)
    requires base == 16 || base == 8 || base == 2
    requires ds != [] && |caps| == |ds| && AllBelow(ds, base)
    ensures var u, v := Prefix(base, capital) + Spelled(ds, caps), PlaceValue(ds, base);
            && ParseInt(u, true) == Some(v) && ParseInt(['+'] + u, true) == Some(v)
            && ParseInt(['-'] + u, true).Some? && ParseInt(['-'] + u, true).value + v == 0
  {
    PrefixReads(ds, caps, base, capital);
    SpelledEnds(ds, caps);
    ZeroIsNoSpace();
    hide PrefixedDigits, Spelled, IsSpace;
    SignedReads(Prefix(base, capital) + Spelled(ds, caps), PlaceValue(ds, base), true);
  }

  lemma ZeroIsNoSpace()
    ensures !IsSpace('0')
  {
  }

  /**
   Decimal digits are read as their place value with either sign; only where the text may name its base is a
   zero in front of another number refused.
   */
  lemma {:induction false} DecimalReads(ds: seq<nat>, caps: seq<bool>, named: bool)
    requires ds != [] && |caps| == |ds| && AllBelow(ds, 10)
    ensures var u, v := Spelled(ds, caps), PlaceValue(ds, 10);
            if named && ds[0] == 0 && v != 0 then
              ParseInt(u, named) == None && ParseInt(['+'] + u, named) == None && ParseInt(['-'] + u, named) == None
            else
              && ParseInt(u, named) == Some(v) && ParseInt(['+'] + u, named) == Some(v)
              && ParseInt(['-'] + u, named).Some? && ParseInt(['-'] + u, named).value + v == 0
  {
    var u := Spelled(ds, caps);
    SpelledReads(ds, caps, 10);
    SpelledEnds(ds, caps);
    DecimalsOnly(ds, caps);
    hide Digits, Spelled, IsSpace, Digit;
    if named && ds[0] == 0 && PlaceValue(ds, 10) != 0 {
      SignedFails(u, named);
    } else {
      SignedReads(u, PlaceValue(ds, 10), named);
    }
  }

  lemma {:induction false} SignedFails(u: string, named: bool)
    requires u != [] && !IsSpace(u[0]) && !IsSpace(u[|u| - 1]) && u[0] != '-' && u[0] != '+'
    requires (if named then PrefixedDigits(u) else Digits(u, 10)) == None
    ensures ParseInt(u, named) == None && ParseInt(['+'] + u, named) == None && ParseInt(['-'] + u, named) == None
  {
    SignsAreNoSpaces();
    hide IsSpace, PrefixedDigits, Digits, Strip;
    StripId(u);
    StripId(['+'] + u);
    StripId(['-'] + u);
    assert (['+'] + u)[1..] == u && (['-'] + u)[1..] == u;
  }

  lemma {:induction false} DecimalsOnly(ds: seq<nat>, caps: seq<bool>)
    requires |caps| == |ds| && AllBelow(ds, 10)
    ensures forall k :: 0 <= k < |ds| ==> '0' <= Spelled(ds, caps)[k] <= '9'
  {
    hide Written, Digit, IsSpace;
    forall k | 0 <= k < |ds|
      ensures '0' <= Spelled(ds, caps)[k] <= '9'
    {
      DigitWritten(ds[k], caps[k]);
    }
  }

  // ---- underscores, and what is refused ----

  /** The digits of a base, with single underscores between digits and nowhere else. */
  predicate IsDigitRun(s: string, base: nat) {
    && s != [] && s[0] != '_'
    && forall k :: 0 <= k < |s| ==> RunAt(s, k, base)
  }

  predicate RunAt(s: string, k: nat, base: nat)
    requires k < |s|
  {
    (s[k] == '_' && k + 1 < |s| && s[k + 1] != '_') || Digit(s[k]) < base
  }

  /** Just these texts are read; everything else is refused. */
  lemma {:induction false} DigitsExactly(s: string, base: nat)
    requires base <= 36
    ensures Digits(s, base).Some? <==> IsDigitRun(s, base)
    decreases |s|
  {
    UnderscoreIsNoDigit();
    hide Digit;
    if s == [] || Digit(s[|s| - 1]) >= base {
      assert IsDigitRun(s, base) ==> RunAt(s, |s| - 1, base);
    } else if |s| > 1 {
      var front := s[..|s| - 1];
      var more := if front[|front| - 1] == '_' then front[..|front| - 1] else front;
      DigitsExactly(more, base);
      hide IsDigitRun;
      RunGrows(s, more, base);
    }
  }

  lemma UnderscoreIsNoDigit()
    ensures Digit('_') == 36
  {
  }

  lemma {:induction false} RunGrows(s: string, more: string, base: nat)
    requires |s| > 1 && base <= 36 && Digit('_') == 36 && Digit(s[|s| - 1]) < base
    requires more == if s[|s| - 2] == '_' then s[..|s| - 2] else s[..|s| - 1]
    ensures IsDigitRun(s, base) <==> IsDigitRun(more, base)
  {
    hide Digit;
    var n := |s|;
    if IsDigitRun(more, base) {
      forall k | 0 <= k < n
        ensures RunAt(s, k, base)
      {
        if k < |more| {
          assert more[k] == s[k] && RunAt(more, k, base);
          assert k + 1 < |more| ==> more[k + 1] == s[k + 1];
        }
      }
      assert s[0] == more[0];
    }
    if IsDigitRun(s, base) {
      assert RunAt(s, n - 2, base) && (n > 2 ==> RunAt(s, n - 3, base));
      forall k | 0 <= k < |more|
        ensures RunAt(more, k, base)
      {
        assert more[k] == s[k] && RunAt(s, k, base);
        assert k + 1 < |more| ==> more[k + 1] == s[k + 1];
      }
    }
  }

  /** An underscore between two digits is skipped. */
  lemma {:induction false} UnderscoreSkipped(x: string, y: string, base: nat)
    requires 2 <= base <= 36 && Digits(x, base).Some? && y != [] && forall k :: 0 <= k < |y| ==> Digit(y[k]) < base
    ensures Digits(x + ['_'] + y, base) == Digits(x + y, base)
    decreases |y|
  {
    hide Digit, Digits;
    NoUnderscoreAtEnd(x, base);
    UnderscoreIsNoDigit();
    var y', d := y[..|y| - 1], y[|y| - 1];
    LastApart(x, y);
    LastApart(x + ['_'], y);
    if |y| == 1 {
      LastDigit(x, d, base);
      AfterUnderscore(x, d, base);
    } else {
      UnderscoreSkipped(x, y', base);
      LastDigit(x + y', d, base);
      LastDigit(x + ['_'] + y', d, base);
    }
  }

  lemma {:induction false} LastApart(x: string, y: string)
    requires y != []
    ensures x + y == (x + y[..|y| - 1]) + [y[|y| - 1]]
    ensures |y| == 1 ==> x + y[..|y| - 1] == x
    ensures |y| > 1 ==> (x + y[..|y| - 1])[|x| + |y| - 2] == y[|y| - 2]
  {
  }

  lemma {:induction false} NoUnderscoreAtEnd(x: string, base: nat)
    requires base <= 36 && Digits(x, base).Some?
    ensures x != [] && x[|x| - 1] != '_'
  {
    UnderscoreIsNoDigit();
    hide Digit;
  }

  lemma {:induction false} AfterUnderscore(x: string, d: char, base: nat)
    requires x != [] && Digit(d) < base
    ensures Digits((x + ['_']) + [d], base) ==
              match Digits(x, base) { case None => None case Some(v) => Some(v * base + Digit(d)) }
  {
    hide Digit;
    var s := (x + ['_']) + [d];
    assert s[..|s| - 1] == x + ['_'] && (x + ['_'])[..|x|] == x;
  }

  /** A prefix of another base is no digit, so the form without named bases refuses it. */
  lemma {:induction false} PrefixNeedsNaming(ds: seq<nat>, caps: seq<bool>, base: nat, capital: bool)
    requires base == 16 || base == 8 || base == 2
    requires ds != [] && |caps| == |ds| && AllBelow(ds, base)
    ensures ParseInt(Prefix(base, capital) + Spelled(ds, caps), false) == None
  {
    var u := Prefix(base, capital) + Spelled(ds, caps);
    ZeroIsNoSpace();
    SpelledEnds(ds, caps);
    LettersAreNoDecimals();
    DigitsExactly(u, 10);
    assert u[0] == '0' && u[1] == Prefix(base, capital)[1] && !RunAt(u, 1, 10);
    hide Spelled, IsSpace, Digits, Digit, Strip;
    StripId(u);
  }

  lemma LettersAreNoDecimals()
    ensures forall c :: c in {'x', 'X', 'o', 'O', 'b', 'B'} ==> Digit(c) >= 10
  {
  }
}

/** What each written form of a pattern matches, from its text to the bytes. */
module PatternForms {
  import opened Bytes
  import opened NumberForms
  import opened Options
  import opened PatternRegex
  import opened PatternText
  import opened PatternTokens
  import opened Text

  // ---- pairs of hex digits ----

  /** Two hex digits, in either case, writing the byte `v`. */
  ghost predicate PairOf(t: string, v: nat) {
    |t| == 2 && exists h: nat, l: nat :: DigitIs(t[0], h) && DigitIs(t[1], l) && v == 16 * h + l
  }

  predicate DigitIs(c: char, v: nat) {
    v < 16 && (c == LOWER_DIGITS[v] || c == UPPER_DIGITS[v])
  }

  lemma {:induction false} DigitIsRead(c: char, v: nat)
    requires DigitIs(c, v)
    ensures IsHex(c) && DigitValue(c) == v && IsHex(Upper(c)) && DigitValue(Upper(c)) == v && DigitIs(Upper(c), v)
    ensures !IsSpace(c) && c !in {'-', '|', ']', ')', '}', '^', '$', '\\', '[', '(', '.', '?', '+', '*'}
    ensures Upper(c) !in {'+', '*', '\\', '.', '[', '(', '^', '$', '?'} && Upper(Upper(c)) == Upper(c)
  {
  }

  lemma {:induction false} PairOfRead(t: string, v: nat)
    requires PairOf(t, v)
    ensures IsHexPair(t) && PairValue(t) == v < 256
    ensures t != [] && !IsSpace(t[0]) && !IsSpace(t[|t| - 1])
    ensures '-' !in t && '|' !in t
  {
    var h: nat, l: nat :| DigitIs(t[0], h) && DigitIs(t[1], l) && v == 16 * h + l;
    DigitIsRead(t[0], h);
    DigitIsRead(t[1], l);
    hide DigitIs, IsSpace, IsHex, DigitValue;
  }

  lemma {:induction false} ShownPair(base: string, shown: string, v: nat)
    requires PairOf(base, v) && PairShown(base, shown)
    ensures PairOf(shown, v) && IsByteToken(shown) && !EndsRepeated(shown)
            && shown[0] !in {'^', '$', '?', '\\', '.', '[', '('}
  {
    var h: nat, l: nat :| DigitIs(base[0], h) && DigitIs(base[1], l) && v == 16 * h + l;
    var x :| SameDigit(base[0], shown[0], x);
    var y :| SameDigit(base[1], shown[1], y);
    SameIsUpper(base[0], shown[0], x);
    SameIsUpper(base[1], shown[1], y);
    DigitIsRead(base[0], h);
    DigitIsRead(base[1], l);
    hide DigitIs, SameDigit, Upper, IsSpace, IsHex, DigitValue;
    assert DigitIs(shown[0], h) && DigitIs(shown[1], l);
  }

  // ---- the forms ----

  /** `lo-hi`, with white space around either byte. */
  ghost predicate SpanText(inner: string, lo: nat, hi: nat) {
    exists a, t, b, c, u, e :: RangeParts(inner, lo, hi, a, t, b, c, u, e)
  }

  ghost predicate RangeParts(inner: string, lo: nat, hi: nat, a: string, t: string, b: string, c: string, u: string,
                             e: string) {
    && inner == (a + t + b) + (['-'] + (c + u + e))
    && AllSpace(a) && AllSpace(b) && AllSpace(c) && AllSpace(e) && PairOf(t, lo) && PairOf(u, hi)
  }

  /** Bytes one after another, with white space before, between and behind them. */
  ghost predicate BytesText(s: string, vs: seq<nat>)
    decreases |vs|
  {
    if vs == [] then AllSpace(s)
    else exists gap, t, rest :: BytesFirst(s, vs[0], gap, t, rest) && BytesText(rest, vs[1..])
  }

  ghost predicate BytesFirst(s: string, v: nat, gap: string, t: string, rest: string) {
    s == gap + (t + rest) && AllSpace(gap) && PairOf(t, v)
  }

  /** Bytes with bars between them and white space around each. */
  ghost predicate BarsText(s: string, vs: seq<nat>)
    decreases |vs|
  {
    if vs == [] then false
    else if |vs| == 1 then exists a, t, b :: s == a + t + b && AllSpace(a) && AllSpace(b) && PairOf(t, vs[0])
    else exists a, t, b, rest :: BarsFirst(s, vs[0], a, t, b, rest) && BarsText(rest, vs[1..])
  }

  ghost predicate BarsFirst(s: string, v: nat, a: string, t: string, b: string, rest: string) {
    s == (a + t + b) + (['|'] + rest) && AllSpace(a) && AllSpace(b) && PairOf(t, v)
  }

  /** Decimal digits, most significant first. */
  ghost predicate DecimalOf(s: string, n: nat) {
    exists ds, caps :: |caps| == |ds| && AllBelow(ds, 10) && s == Spelled(ds, caps) && n == PlaceValue(ds, 10)
  }

  /** `n`, or `n,m` with either side left out: no lower bound is 0, no upper bound is none. */
  ghost predicate CountText(inner: string, least: nat, most: Option<nat>) {
    || (inner != [] && DecimalOf(inner, least) && most == Some(least))
    || (exists x, y ::
          inner == x + ([','] + y) && DecimalOf(x, least)
          && if y == [] then most == None else most.Some? && DecimalOf(y, most.value))
  }

  /** `base` is written for `item`. */
  ghost predicate Writes(base: string, item: Item) {
    match item
    case Item(Start, 1, Some(1)) => base == "^"
    case Item(End, 1, Some(1)) => base == "$"
    case Item(Single(v), 1, Some(1)) =>
      PairOf(base, v) || (|base| == 4 && base[0] == '\\' && (base[1] == 'x' || base[1] == 'X') && PairOf(base[2..], v))
    case Item(Class(spans), 1, Some(1)) =>
      |base| >= 2 && base[0] == '[' && base[|base| - 1] == ']' && ClassWritten(base[1..|base| - 1], spans)
    case Item(Group(vs), 1, Some(1)) =>
      |base| >= 2 && base[0] == '(' && base[|base| - 1] == ')' && BarsText(base[1..|base| - 1], vs)
    case Item(Any, least, most) =>
      || (base == "??" && item == Once(Any))
      || (|base| >= 3 && base[0] == '.' && base[1] == '{' && base[|base| - 1] == '}'
          && CountText(base[2..|base| - 1], least, most))
    case _ => false
  }

  ghost predicate ClassWritten(inner: string, spans: seq<Span>) {
    || (|spans| == 1 && SpanText(inner, spans[0].low, spans[0].high))
    || (exists vs :: BytesText(inner, vs) && spans == Points(vs) && |spans| == |vs|)
  }

  // ---- each form means what it writes ----

  lemma {:induction false} NoneIn(s: string, c: char, x: string)
    requires c !in s
    ensures IndexOf(s + ([c] + x), c) == |s| && (s + ([c] + x))[..|s|] == s && (s + ([c] + x))[|s| + 1..] == x
  {
    IndexIs(s + ([c] + x), c, |s|);
  }

  lemma {:induction false} SpaceHasNoMark(s: string)
    requires AllSpace(s)
    ensures '-' !in s && '|' !in s
  {
    MarksAreNoSpaces();
    hide IsSpace;
  }

  lemma MarksAreNoSpaces()
    ensures !IsSpace('-') && !IsSpace('|') && !IsSpace('^') && !IsSpace('$')
  {
  }

  lemma {:induction false} SpanIsRead(inner: string, lo: nat, hi: nat)
    requires SpanText(inner, lo, hi)
    ensures RangeOf(inner) == Some(Span(lo, hi))
  {
    hide RangeParts, RangeOf;
    var a, t, b, c, u, e :| RangeParts(inner, lo, hi, a, t, b, c, u, e);
    RangePartsRead(inner, lo, hi, a, t, b, c, u, e);
  }

  lemma {:induction false} RangePartsRead(inner: string, lo: nat, hi: nat, a: string, t: string, b: string, c: string,
                                          u: string, e: string)
    requires RangeParts(inner, lo, hi, a, t, b, c, u, e)
    ensures RangeOf(inner) == Some(Span(lo, hi))
  {
    hide PairOf, IsHexPair, PairValue, Strip, IsSpace, IndexOf;
    PairOfRead(t, lo);
    PairOfRead(u, hi);
    SpaceHasNoMark(a);
    SpaceHasNoMark(b);
    StripsSpaces(a, t, b);
    StripsSpaces(c, u, e);
    hide AllSpace;
    NoneIn(a + t + b, '-', c + u + e);
  }

  lemma {:induction false} PairsRead(s: string, vs: seq<nat>)
    requires BytesText(s, vs)
    ensures HexPairs(s) == vs && '-' !in s
    decreases |vs|
  {
    hide PairOf, PairValue, IsSpace;
    if vs == [] {
      SpacesHoldNoPair(s, []);
      SpaceHasNoMark(s);
      assert s + [] == s;
    } else {
      var gap, t, rest :| BytesFirst(s, vs[0], gap, t, rest) && BytesText(rest, vs[1..]);
      PairsRead(rest, vs[1..]);
      PairOfRead(t, vs[0]);
      SpaceHasNoMark(gap);
      SpacesHoldNoPair(gap, t + rest);
      FirstPair(t, rest);
      assert vs == [vs[0]] + vs[1..];
    }
  }

  lemma {:induction false} FirstPair(t: string, rest: string)
    requires IsHexPair(t)
    ensures HexPairs(t + rest) == [PairValue(t)] + HexPairs(rest)
  {
    assert (t + rest)[..2] == t && (t + rest)[2..] == rest && (t + rest)[0] == t[0] && (t + rest)[1] == t[1];
    hide IsHex, PairValue;
  }

  lemma {:induction false} SpacesHoldNoPair(gap: string, r: string)
    requires AllSpace(gap)
    ensures HexPairs(gap + r) == HexPairs(r)
  {
    hide PairValue;
    if gap == [] {
      assert gap + r == r;
    } else {
      SpaceIsNoHex(gap[0]);
      hide IsSpace;
      assert (gap + r)[0] == gap[0] && (gap + r)[1..] == gap[1..] + r;
      SpacesHoldNoPair(gap[1..], r);
      ShortHasNoPair(gap[1..] + r);
    }
  }

  lemma {:induction false} ShortHasNoPair(s: string)
    ensures |s| < 2 ==> HexPairs(s) == []
  {
  }

  lemma {:induction false} SpaceIsNoHex(c: char)
    requires IsSpace(c)
    ensures !IsHex(c)
  {
  }

  lemma {:induction false} NoRange(inner: string)
    requires '-' !in inner
    ensures RangeOf(inner) == None
  {
    hide IndexOf;
    IndexOfNone(inner, '-');
  }

  lemma {:induction false} ClassIsRead(inner: string, spans: seq<Span>)
    requires ClassWritten(inner, spans)
    ensures ClassOf(inner) == spans
  {
    hide SpanText, BytesText, RangeOf, HexPairs, Points;
    if |spans| == 1 && SpanText(inner, spans[0].low, spans[0].high) {
      SpanIsRead(inner, spans[0].low, spans[0].high);
    } else {
      var vs :| BytesText(inner, vs) && spans == Points(vs) && |spans| == |vs|;
      PairsRead(inner, vs);
      NoRange(inner);
    }
  }

  lemma {:induction false} BarsAreRead(inner: string, vs: seq<nat>)
    requires BarsText(inner, vs)
    ensures Choices(inner) == Some(vs)
    decreases |vs|
  {
    hide PairOf, PairValue, IsHexPair, IsSpace, Strip, IndexOf;
    if |vs| == 1 {
      var a, t, b :| inner == a + t + b && AllSpace(a) && AllSpace(b) && PairOf(t, vs[0]);
      PairOfRead(t, vs[0]);
      SpaceHasNoMark(a);
      SpaceHasNoMark(b);
      StripsSpaces(a, t, b);
      LastChoice(inner, t);
      assert vs == [vs[0]];
    } else {
      var a, t, b, rest :| BarsFirst(inner, vs[0], a, t, b, rest) && BarsText(rest, vs[1..]);
      BarsAreRead(rest, vs[1..]);
      assert vs == [vs[0]] + vs[1..];
      hide BarsText, Choices;
      FirstChoice(inner, vs[0], a, t, b, rest);
    }
  }

  lemma {:induction false} FirstChoice(s: string, v: nat, a: string, t: string, b: string, rest: string)
    requires BarsFirst(s, v, a, t, b, rest)
    ensures Choices(s) == match Choices(rest) { case None => None case Some(vs) => Some([v] + vs) }
  {
    hide PairOf, PairValue, IsHexPair, IsSpace, Strip, IndexOf;
    PairOfRead(t, v);
    SpaceHasNoMark(a);
    SpaceHasNoMark(b);
    StripsSpaces(a, t, b);
    hide AllSpace;
    NoneIn(a + t + b, '|', rest);
  }

  lemma {:induction false} LastChoice(inner: string, t: string)
    requires '|' !in inner && Strip(inner) == t && IsHexPair(t)
    ensures Choices(inner) == Some([PairValue(t)])
  {
    hide IndexOf, Strip, IsHexPair, PairValue;
    IndexOfNone(inner, '|');
    assert inner[..|inner|] == inner;
  }

  lemma {:induction false} DecimalIsRead(s: string, n: nat)
    requires DecimalOf(s, n)
    ensures AllDigits(s) && Decimal(s) == n && ',' !in s
  {
    var ds, caps :| |caps| == |ds| && AllBelow(ds, 10) && s == Spelled(ds, caps) && n == PlaceValue(ds, 10);
    DecimalPlaces(ds, caps);
  }

  lemma {:induction false} DecimalPlaces(ds: seq<nat>, caps: seq<bool>)
    requires |caps| == |ds| && AllBelow(ds, 10)
    ensures AllDigits(Spelled(ds, caps)) && Decimal(Spelled(ds, caps)) == PlaceValue(ds, 10)
    ensures ',' !in Spelled(ds, caps)
    decreases |ds|
  {
    DecimalsOnly(ds, caps);
    hide Written;
    if ds != [] {
      var n := |ds| - 1;
      DecimalPlaces(ds[..n], caps[..n]);
      assert Spelled(ds, caps)[..n] == Spelled(ds[..n], caps[..n]);
      DecimalDigit(ds[n], caps[n]);
    }
  }

  lemma {:induction false} DecimalDigit(v: nat, upper: bool)
    requires v < 10
    ensures Written(v, upper) as int - '0' as int == v
  {
  }

  lemma {:induction false} CountReads(inner: string, least: nat, most: Option<nat>)
    requires CountText(inner, least, most)
    ensures Counts(inner) == Some((least, most))
  {
    hide DecimalOf, Decimal, AllDigits, IndexOf;
    if inner != [] && DecimalOf(inner, least) && most == Some(least) {
      DecimalIsRead(inner, least);
      IndexOfNone(inner, ',');
      assert inner[..|inner|] == inner;
    } else {
      var x, y :| inner == x + ([','] + y) && DecimalOf(x, least)
                  && if y == [] then most == None else most.Some? && DecimalOf(y, most.value);
      DecimalIsRead(x, least);
      NoneIn(x, ',', y);
      if y == [] {
        NothingIsDigits();
      } else {
        DecimalIsRead(y, most.value);
      }
    }
  }

  lemma NothingIsDigits()
    ensures AllDigits([])
  {
  }

  /** Every written form means what it is written for. */
  lemma {:induction false} FormMeans(base: string, shown: string, item: Item)
    requires Writes(base, item) && (if PairShown(base, shown) then true else shown == base)
    requires PairOf(base, match item.atom { case Single(v) => v case _ => 256 }) ==> PairShown(base, shown)
    ensures BaseMeaning(shown) == Some(item)
  {
    hide PairOf, ClassWritten, BarsText, CountText, ClassOf, Choices, Counts, ReadByte, PairValue, PairShown;
    match item.atom {
      case Start => assert !PairShown(base, shown) by { MarkIsNoPair(base, shown); }
      case End => assert !PairShown(base, shown) by { MarkIsNoPair(base, shown); }
      case Any => assert !PairShown(base, shown) by { MarkIsNoPair(base, shown); } AnyMeans(base, item);
      case Single(v) =>
        if PairOf(base, v) {
          ShownPair(base, shown, v);
          PairOfRead(shown, v);
        } else {
          assert !PairShown(base, shown) by { MarkIsNoPair(base, shown); }
          EscapeMeans(base, v);
        }
      case Class(spans) =>
        assert !PairShown(base, shown) by { MarkIsNoPair(base, shown); }
        ClassIsRead(base[1..|base| - 1], spans);
      case Group(vs) =>
        assert !PairShown(base, shown) by { MarkIsNoPair(base, shown); }
        BarsAreRead(base[1..|base| - 1], vs);
    }
  }

  lemma {:induction false} MarkIsNoPair(base: string, shown: string)
    requires base != [] && base[0] in {'^', '$', '?', '\\', '.', '[', '('}
    ensures !PairShown(base, shown)
  {
    if PairShown(base, shown) {
      var v :| SameDigit(base[0], shown[0], v);
      SameIsUpper(base[0], shown[0], v);
    }
  }

  lemma {:induction false} AnyMeans(base: string, item: Item)
    requires item.atom.Any? && Writes(base, item)
    ensures BaseMeaning(base) == Some(item)
  {
    hide CountText, Counts;
    if base != "??" {
      CountReads(base[2..|base| - 1], item.least, item.most);
    }
  }

  lemma {:induction false} EscapeMeans(base: string, v: nat)
    requires |base| == 4 && base[0] == '\\' && (base[1] == 'x' || base[1] == 'X') && PairOf(base[2..], v)
    ensures BaseMeaning(base) == Some(Once(Single(v)))
  {
    PairOfRead(base[2..], v);
    PairIsByte(base[2..]);
    hide ReadByte, PairOf, PairValue, IsHexPair;
  }

  /** The two characters after `\x`: a pair, or one digit beside white space or a sign; of the negative only zero. */
  ghost predicate EscapedByte(t: string, v: nat)
    requires |t| == 2
  {
    || PairOf(t, v)
    || (DigitIs(t[1], v) && (IsSpace(t[0]) || t[0] == '+' || (t[0] == '-' && v == 0)))
    || (DigitIs(t[0], v) && IsSpace(t[1]))
  }

  /** An escape says a byte in just these forms, and is refused in every other. */
  lemma {:induction false} EscapeReadsIff(t: string, v: nat)
    requires |t| == 2
    ensures ReadByte(t) == Some(v) <==> EscapedByte(t, v)
  {
    hide IsSpace, IsHex, PairOf, DigitIs, DigitValue, PairValue;
    StripOfTwo(t);
    HexIsDigit(t[0]);
    HexIsDigit(t[1]);
    SignsAreNoDigits();
    PairIs(t, v);
    assert t == [t[0], t[1]];
  }

  lemma {:induction false} StripOfTwo(t: string)
    requires |t| == 2
    ensures Strip(t) == (if IsSpace(t[0]) then (if IsSpace(t[1]) then [] else [t[1]])
                         else if IsSpace(t[1]) then [t[0]] else t)
  {
    hide IsSpace;
    assert t[1..] == [t[1]] && [t[1]][1..] == [] && t[..1] == [t[0]];
    assert SkipSpaces([t[1]]) == if IsSpace(t[1]) then [] else [t[1]];
    if !IsSpace(t[0]) && IsSpace(t[1]) {
      assert DropTrailing(t) == DropTrailing([t[0]]);
    }
  }

  lemma {:induction false} HexIsDigit(c: char)
    ensures forall v: nat :: DigitIs(c, v) <==> IsHex(c) && DigitValue(c) == v
    ensures IsHex(c) ==> !IsSpace(c)
  {
  }

  lemma SignsAreNoDigits()
    ensures !IsHex('+') && !IsHex('-') && !IsSpace('+') && !IsSpace('-')
  {
  }

  lemma {:induction false} PairIs(t: string, v: nat)
    requires |t| == 2
    ensures PairOf(t, v) <==> IsHexPair(t) && PairValue(t) == v
  {
    hide IsHex, DigitValue, DigitIs;
    HexIsDigit(t[0]);
    HexIsDigit(t[1]);
    if IsHexPair(t) {
      var h: nat, l: nat := DigitValue(t[0]), DigitValue(t[1]);
      assert DigitIs(t[0], h) && DigitIs(t[1], l);
    }
  }

  lemma {:induction false} PairIsByte(t: string)
    requires IsHexPair(t) && !IsSpace(t[0]) && !IsSpace(t[1])
    ensures ReadByte(t) == Some(PairValue(t))
  {
    StripId(t);
    hide Strip, PairValue, IsSpace;
  }

  // ---- whole patterns ----

  function Quantified(plain: Item, q: string): Item {
    if q == "" then plain else Item(plain.atom, if q == "+" then 1 else 0, None)
  }

  /** One item's part of the text: white space, a written form, and perhaps white space and a quantifier. */
  ghost predicate ItemPiece(s: string, item: Item, plain: Item, gap: string, base: string, shown: string, mid: string,
                            q: string, rest: string)
  {
    && Piece(s, shown + q, gap, base, shown, mid, q, rest)
    && Writes(base, plain) && item == Quantified(plain, q)
    && (plain.atom.Single? && PairOf(base, plain.atom.value) ==> PairShown(base, shown))
  }

  /** The text is the items' written forms, in order, with nothing but white space besides. */
  ghost predicate PatternWrites(s: string, items: seq<Item>)
    decreases |items|
  {
    if items == [] then AllSpace(s)
    else
      exists plain, gap, base, shown, mid, q, rest ::
        ItemPiece(s, items[0], plain, gap, base, shown, mid, q, rest) && PatternWrites(rest, items[1..])
  }

  lemma {:induction false} FormEnds(base: string, shown: string)
    requires Repeating(base, shown) || PatternText.Single(base, shown)
    ensures shown != [] && ((|shown| == 4 && shown[0] == '\\') || !EndsRepeated(shown))
    ensures Repeating(base, shown) ==> !EndsRepeated(shown) && !IsBraceToken(shown)
  {
    if PairShown(base, shown) {
      var v :| SameDigit(base[0], shown[0], v);
      var w :| SameDigit(base[1], shown[1], w);
      DigitsAreNoMarks(v);
      DigitsAreNoMarks(w);
    }
  }

  lemma {:induction false} DigitsAreNoMarks(v: nat)
    requires v < 16
    ensures UPPER_DIGITS[v] != '+' && UPPER_DIGITS[v] != '*' && UPPER_DIGITS[v] != '.'
  {
  }

  /** An escaped byte is never taken for a repeated one. */
  lemma {:induction false} EscapeIsWhole(base: string, plain: Item)
    requires Writes(base, plain) && |base| == 4 && base[0] == '\\'
    ensures !EndsRepeated(base)
  {
    hide CountText, ClassWritten, BarsText;
    if plain.atom.Single? {
      if PairOf(base[2..], plain.atom.value) {
        var h: nat, l: nat :| DigitIs(base[2..][0], h) && DigitIs(base[2..][1], l) && plain.atom.value == 16 * h + l;
        DigitIsRead(base[2..][1], l);
      }
    }
  }

  lemma {:induction false} PieceMeans(s: string, item: Item, plain: Item, gap: string, base: string, shown: string,
                                      mid: string, q: string, rest: string)
    requires ItemPiece(s, item, plain, gap, base, shown, mid, q, rest)
    ensures Meaning(shown + q) == Some(item)
  {
    FormEnds(base, shown);
    ShownIsForm(base, shown);
    if q != "" {
      RepeatingIsOnce(base, shown, plain);
    }
    if |shown| == 4 && shown[0] == '\\' {
      if shown == base {
        EscapeIsWhole(base, plain);
      }
    }
    hide Writes, BaseMeaning, Repeating, PatternText.Single, PairOf, PairShown, Enclosed, IsBraceToken, AllSpace;
    FormMeans(base, shown, plain);
    if q == "" {
      assert shown + q == shown;
    } else {
      assert (shown + q)[..|shown + q| - 1] == shown && (shown + q)[|shown|] == q[0];
    }
  }

  lemma {:induction false} RepeatingIsOnce(base: string, shown: string, plain: Item)
    requires Repeating(base, shown) && Writes(base, plain)
    ensures Repeatable(plain)
  {
    hide CountText, ClassWritten, BarsText, PairOf;
    if PairShown(base, shown) {
      var v :| SameDigit(base[0], shown[0], v);
      SameIsUpper(base[0], shown[0], v);
    } else if Enclosed(base, "[", ']') {
      assert base[..1][0] == '[';
    } else if Enclosed(base, "(", ')') {
      assert base[..1][0] == '(';
    }
  }

  lemma {:induction false} ShownIsForm(base: string, shown: string)
    requires Repeating(base, shown) || PatternText.Single(base, shown)
    ensures PairShown(base, shown) || shown == base
    ensures PairShown(base, shown) ==> |shown| == 2
  {
  }

  lemma {:induction false} PatternSpells(s: string, items: seq<Item>) returns (ts: seq<string>)
    requires PatternWrites(s, items)
    ensures SpelledOut(s, ts) && Meanings(ts) == Some(items)
    decreases |items|
  {
    hide Piece, ItemPiece, Meaning;
    if items == [] {
      ts := [];
    } else {
      var plain, gap, base, shown, mid, q, rest :|
        ItemPiece(s, items[0], plain, gap, base, shown, mid, q, rest) && PatternWrites(rest, items[1..]);
      var more := PatternSpells(rest, items[1..]);
      PieceMeans(s, items[0], plain, gap, base, shown, mid, q, rest);
      ItemPieceIs(s, items[0], plain, gap, base, shown, mid, q, rest);
      ts := [shown + q] + more;
      hide PatternWrites;
      assert ts[0] == shown + q && ts[1..] == more;
      assert items == [items[0]] + items[1..];
    }
  }

  lemma {:induction false} ItemPieceIs(s: string, item: Item, plain: Item, gap: string, base: string, shown: string,
                                       mid: string, q: string, rest: string)
    requires ItemPiece(s, item, plain, gap, base, shown, mid, q, rest)
    ensures Piece(s, shown + q, gap, base, shown, mid, q, rest)
  {
    hide Piece, Writes, PairOf;
  }

  /** A pattern that is written for certain items has those meanings, whatever its case and spacing. */
  lemma {:induction false} WrittenPatternMeans(pattern: string, items: seq<Item>)
    requires PatternWrites(Strip(pattern), items)
    ensures Tokenized(pattern).Some? && Meanings(Tokenized(pattern).value) == Some(items)
  {
    hide PatternWrites, SpelledOut, Tokens, Strip, Meanings;
    var ts := PatternSpells(Strip(pattern), items);
    TokensSpell(Strip(pattern), ts);
  }

  // ---- what has a meaning compiles ----

  lemma {:induction false} EscapeEnds(t: string)
    requires t != [] && ReadByte(t).Some?
    ensures !IsQuantifier(t[|t| - 1])
  {
    hide IsSpace, DigitValue, PairValue;
    if IsQuantifier(t[|t| - 1]) {
      QuantifierIsNoSpace(t[|t| - 1]);
      SkipSpacesReaches(t);
      KeepsEnd(SkipSpaces(t));
    }
  }

  lemma {:induction false} BaseEnds(t: string)
    requires BaseMeaning(t).Some?
    ensures !EndsRepeated(t)
  {
    hide ReadByte, Counts, ClassOf, Choices;
    if IsEscapeToken(t) && |t| > 2 {
      EscapeEnds(t[2..]);
    }
  }

  lemma {:induction false} CountsAreAscii(t: string)
    requires IsBraceToken(t) && Counts(t[2..|t| - 1]).Some?
    ensures Ascii(t)
  {
    hide IndexOf, Decimal;
    var inner := t[2..|t| - 1];
    var c := IndexOf(inner, ',');
    assert forall k :: 0 <= k < c ==> inner[..c][k] == inner[k];
    assert c < |inner| ==> inner[c] == ',' && forall k :: c < k < |inner| ==> inner[c + 1..][k - c - 1] == inner[k];
    assert forall k :: 2 <= k < |t| - 1 ==> t[k] == inner[k - 2];
  }

  lemma {:induction false} BaseCompiles(t: string)
    requires BaseMeaning(t).Some?
    ensures TokenToRegex(t).Some?
  {
    BaseEnds(t);
    if IsBraceToken(t) {
      if Counts(t[2..|t| - 1]).Some? {
        CountsAreAscii(t);
      }
    }
    hide ReadByte, Counts, ClassOf, ClassText, Choices, Bars, HexEscape, PairValue, Ascii;
  }

  lemma {:induction false} MeaningCompiles(t: string)
    requires Meaning(t).Some?
    ensures TokenToRegex(t).Some?
  {
    if EndsRepeated(t) {
      BaseCompiles(t[..|t| - 1]);
    } else {
      BaseCompiles(t);
    }
    hide BaseMeaning;
  }

  lemma {:induction false} MeaningsCompile(ts: seq<string>)
    requires Meanings(ts).Some?
    ensures Build(ts).Some?
  {
    hide Meaning, TokenToRegex;
    if ts != [] {
      MeaningCompiles(ts[0]);
      MeaningsCompile(ts[1..]);
    }
  }

  /**
   From text to regular expression: a pattern written for items that a regular expression can say is accepted, and
   the compiled text reads as exactly those items.
   */
  lemma {:induction false} WrittenPatternReads(pattern: string, items: seq<Item>)
    requires PatternWrites(Strip(pattern), items) && AllGood(items)
    ensures BuildRegex(pattern).Some? && ParseRegex(BuildRegex(pattern).value) == Some(items)
  {
    WrittenPatternMeans(pattern, items);
    MeaningsCompile(Tokenized(pattern).value);
    SayableIs(Tokenized(pattern).value);
    assert BuildRegex(pattern).Some?;
    hide *;
    CompiledMeansTokens(pattern);
  }

  lemma {:induction false} SayableIs(ts: seq<string>)
    requires Meanings(ts).Some? && AllGood(Meanings(ts).value)
    ensures AllSayable(ts)
  {
    hide Meanings, AllGood;
  }

  // ---- byte sequences printed as hex ----

  /** The bytes in order, each as two hex digits of either case, with any white space between them. */
  ghost predicate HexText(s: string, vs: seq<nat>)
    decreases |vs|
  {
    if vs == [] then AllSpace(s)
    else exists gap, t, rest :: HexFirst(s, vs[0], gap, t, rest) && HexText(rest, vs[1..])
  }

  ghost predicate HexFirst(s: string, v: nat, gap: string, t: string, rest: string) {
    s == gap + (t + rest) && AllSpace(gap) && PairOf(t, v)
  }

  function Singles(vs: seq<nat>): seq<Item> {
    if vs == [] then [] else [Once(Atom.Single(vs[0]))] + Singles(vs[1..])
  }

  /** The pair in upper case. */
  lemma {:induction false} ShownFor(t: string, v: nat) returns (shown: string)
    requires PairOf(t, v)
    ensures PairShown(t, shown)
  {
    var h: nat, l: nat :| DigitIs(t[0], h) && DigitIs(t[1], l) && v == 16 * h + l;
    shown := [UPPER_DIGITS[h], UPPER_DIGITS[l]];
    assert SameDigit(t[0], shown[0], h) && SameDigit(t[1], shown[1], l);
  }

  lemma {:induction false} HexIsPiece(s: string, v: nat, gap: string, t: string, rest: string)
    requires HexFirst(s, v, gap, t, rest)
    ensures exists shown :: ItemPiece(s, Once(Atom.Single(v)), Once(Atom.Single(v)), gap, t, shown, "", "", rest)
  {
    var shown := ShownFor(t, v);
    hide PairOf, PairShown, AllSpace;
    assert AllSpace("") by {
      NothingIsSpace();
    }
    assert s == gap + (t + ("" + ("" + rest))) && shown + "" == shown;
    assert ItemPiece(s, Once(Atom.Single(v)), Once(Atom.Single(v)), gap, t, shown, "", "", rest);
  }

  lemma NothingIsSpace()
    ensures AllSpace("")
  {
  }

  lemma {:induction false} HexWrites(s: string, vs: seq<nat>)
    requires HexText(s, vs)
    ensures PatternWrites(s, Singles(vs))
    decreases |vs|
  {
    hide HexFirst, ItemPiece;
    if vs != [] {
      var gap, t, rest :| HexFirst(s, vs[0], gap, t, rest) && HexText(rest, vs[1..]);
      HexIsPiece(s, vs[0], gap, t, rest);
      HexWrites(rest, vs[1..]);
      var shown :| ItemPiece(s, Once(Atom.Single(vs[0])), Once(Atom.Single(vs[0])), gap, t, shown, "", "", rest);
      assert Singles(vs)[0] == Once(Atom.Single(vs[0])) && Singles(vs)[1..] == Singles(vs[1..]);
    }
  }

  lemma {:induction false} SinglesAreGood(vs: seq<nat>)
    ensures AllGood(Singles(vs))
  {
    if vs != [] {
      SinglesAreGood(vs[1..]);
    }
  }

  ghost predicate Stands(vs: seq<nat>, d: seq<byte>, i: nat) {
    i + |vs| <= |d| && forall k :: 0 <= k < |vs| ==> d[i + k] as nat == vs[k]
  }

  lemma {:induction false} StandsFirst(vs: seq<nat>, d: seq<byte>, i: nat)
    requires vs != []
    ensures Stands(vs, d, i) <==> i < |d| && d[i] as nat == vs[0] && Stands(vs[1..], d, i + 1)
  {
    if Stands(vs, d, i) {
      assert d[i + 0] as nat == vs[0];
      forall k | 0 <= k < |vs| - 1
        ensures d[(i + 1) + k] as nat == vs[1..][k]
      {
        assert d[i + (k + 1)] as nat == vs[k + 1];
      }
    }
    if i < |d| && d[i] as nat == vs[0] && Stands(vs[1..], d, i + 1) {
      forall k | 0 <= k < |vs|
        ensures d[i + k] as nat == vs[k]
      {
        assert k > 0 ==> d[(i + 1) + (k - 1)] as nat == vs[1..][k - 1];
      }
    }
  }

  /** One byte after another, each the one named. */
  lemma {:induction false} SinglesMatch(vs: seq<nat>, d: seq<byte>, i: nat, j: nat)
    ensures Matches(Singles(vs), d, i, j) <==> j == i + |vs| && Stands(vs, d, i)
    decreases |vs|
  {
    hide ItemMatches, Stands;
    if vs == [] {
      NothingStands(d, i);
    } else {
      assert Singles(vs)[0] == Once(Atom.Single(vs[0])) && Singles(vs)[1..] == Singles(vs[1..]);
      SingleMatches(vs[0], d, i);
      SinglesMatch(vs[1..], d, i + 1, j);
      StandsFirst(vs, d, i);
    }
  }

  lemma {:induction false} NothingStands(d: seq<byte>, i: nat)
    ensures Stands([], d, i) <==> i <= |d|
  {
  }

  lemma {:induction false} SingleMatches(v: nat, d: seq<byte>, i: nat)
    ensures forall k: nat :: ItemMatches(Once(Atom.Single(v)), d, i, k) <==> k == i + 1 <= |d| && d[i] as nat == v
  {
    hide ItemMatches;
    forall k: nat
      ensures ItemMatches(Once(Atom.Single(v)), d, i, k) <==> k == i + 1 <= |d| && d[i] as nat == v
    {
      OnceMatches(Atom.Single(v), d, i, k);
    }
  }

  lemma {:induction false} OnceMatches(a: Atom, d: seq<byte>, i: nat, j: nat)
    ensures ItemMatches(Once(a), d, i, j) <==> AtomMatches(a, d, i, j)
  {
    hide AtomMatches;
    if AtomMatches(a, d, i, j) {
      AtomWithin(a, d, i, j);
      assert Times(a, 0, d, j, j);
      assert Times(a, 1, d, i, j);
    }
    if ItemMatches(Once(a), d, i, j) {
      assert Times(a, 1, d, i, j);
      var k: nat :| AtomMatches(a, d, i, k) && Times(a, 0, d, k, j);
    }
  }

  lemma {:induction false} AtomWithin(a: Atom, d: seq<byte>, i: nat, j: nat)
    requires AtomMatches(a, d, i, j)
    ensures j <= |d|
  {
  }

  function Numbers(bytes: seq<byte>): (vs: seq<nat>)
    ensures |vs| == |bytes|
  {
    seq(|bytes|, k requires 0 <= k < |bytes| => bytes[k] as nat)
  }

  lemma {:induction false} SameBytes(bytes: seq<byte>, d: seq<byte>, i: nat)
    ensures Stands(Numbers(bytes), d, i) <==> i + |bytes| <= |d| && d[i..i + |bytes|] == bytes
  {
    if i + |bytes| <= |d| {
      var x := d[i..i + |bytes|];
      assert forall k :: 0 <= k < |bytes| ==> x[k] == d[i + k];
      if Stands(Numbers(bytes), d, i) {
        forall k | 0 <= k < |bytes|
          ensures x[k] == bytes[k]
        {
          assert d[i + k] as nat == Numbers(bytes)[k];
        }
      }
    }
  }

  /**
   Any byte sequence printed as pairs of hex digits, in either case and however spaced, compiles to a regular
   expression that matches exactly that sequence.
   */
  lemma {:induction false} HexPatternMatches(pattern: string, bytes: seq<byte>, d: seq<byte>, i: nat, j: nat)
    requires HexText(Strip(pattern), Numbers(bytes))
    ensures BuildRegex(pattern).Some? && ParseRegex(BuildRegex(pattern).value).Some?
    ensures Matches(ParseRegex(BuildRegex(pattern).value).value, d, i, j)
            <==> j == i + |bytes| <= |d| && d[i..j] == bytes
  {
    hide *;
    HexCompiles(pattern, Numbers(bytes));
    SinglesMatch(Numbers(bytes), d, i, j);
    SameBytes(bytes, d, i);
  }

  lemma {:induction false} HexCompiles(pattern: string, vs: seq<nat>)
    requires HexText(Strip(pattern), vs)
    ensures BuildRegex(pattern).Some? && ParseRegex(BuildRegex(pattern).value) == Some(Singles(vs))
  {
    HexWrites(Strip(pattern), vs);
    SinglesAreGood(vs);
    hide *;
    WrittenPatternReads(pattern, Singles(vs));
  }

  // ---- what the other forms match ----

  /** A range matches any one byte from its first to its last, a list or a group any one of its bytes. */
  lemma {:induction false} ClassesMatch(lo: nat, hi: nat, vs: seq<nat>, d: seq<byte>, i: nat, j: nat)
    ensures ItemMatches(Once(Class([Span(lo, hi)])), d, i, j) <==> j == i + 1 <= |d| && lo <= d[i] as nat <= hi
    ensures ItemMatches(Once(Class(Points(vs))), d, i, j) <==> j == i + 1 <= |d| && d[i] as nat in vs
    ensures ItemMatches(Once(Group(vs)), d, i, j) <==> j == i + 1 <= |d| && d[i] as nat in vs
  {
    OnceMatches(Class([Span(lo, hi)]), d, i, j);
    OnceMatches(Class(Points(vs)), d, i, j);
    OnceMatches(Group(vs), d, i, j);
    hide ItemMatches;
    assert [Span(lo, hi)][0] == Span(lo, hi);
    PointsHold(vs, if i < |d| then d[i] as nat else 0);
  }

  lemma {:induction false} PointsHold(vs: seq<nat>, v: nat)
    ensures (exists k :: 0 <= k < |Points(vs)| && Points(vs)[k].low <= v <= Points(vs)[k].high) <==> v in vs
  {
    if vs != [] {
      PointsHold(vs[1..], v);
      var p := Points(vs);
      assert p[0] == Span(vs[0], vs[0]) && p[1..] == Points(vs[1..]);
      assert forall k :: 1 <= k < |p| ==> p[k] == Points(vs[1..])[k - 1];
      if v in vs[1..] {
        var k :| 0 <= k < |Points(vs[1..])| && Points(vs[1..])[k].low <= v <= Points(vs[1..])[k].high;
        assert p[k + 1].low <= v <= p[k + 1].high;
      }
    }
  }

  /** Anchors match nothing but their place, and the wildcard any one byte. */
  lemma {:induction false} MarksMatch(d: seq<byte>, i: nat, j: nat)
    ensures ItemMatches(Once(Start), d, i, j) <==> i == j == 0
    ensures ItemMatches(Once(End), d, i, j) <==> i == j == |d|
    ensures ItemMatches(Once(Any), d, i, j) <==> j == i + 1 <= |d|
  {
    OnceMatches(Start, d, i, j);
    OnceMatches(End, d, i, j);
    OnceMatches(Any, d, i, j);
    hide ItemMatches;
  }
}

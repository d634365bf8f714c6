/** What a pattern's text has to do with its tokens, written out without the tokeniser. */
module PatternText {
  import opened NumberForms
  import opened Options
  import opened PatternTokens
  import opened Text

  // ---- the grammar of pattern text ----

  /** `c` is the hex digit of value `v` in either case, and `d` the same digit in upper case. */
  predicate SameDigit(c: char, d: char, v: nat) {
    v < 16 && (c == LOWER_DIGITS[v] || c == UPPER_DIGITS[v]) && d == UPPER_DIGITS[v]
  }

  ghost predicate PairShown(base: string, shown: string) {
    |base| == |shown| == 2 && (exists v :: SameDigit(base[0], shown[0], v))
    && (exists v :: SameDigit(base[1], shown[1], v))
  }

  /** An opening text, then anything up to the first closing mark. */
  predicate Enclosed(t: string, open: string, close: char) {
    && |open| < |t| && t[..|open|] == open && t[|t| - 1] == close
    && forall k :: 0 <= k < |t| - 1 ==> t[k] != close
  }

  /** What may take a quantifier: a pair of hex digits, shown in upper case, a wildcard, a class or a group. */
  ghost predicate Repeating(base: string, shown: string) {
    PairShown(base, shown) || (shown == base && (base == "??" || Enclosed(base, "[", ']') || Enclosed(base, "(", ')')))
  }

  /** What may not: an anchor, an escaped byte or a counted wildcard. */
  ghost predicate Single(base: string, shown: string) {
    && shown == base
    && (|| base == "^" || base == "$"
        || (|base| == 4 && base[0] == '\\' && (base[1] == 'x' || base[1] == 'X'))
        || Enclosed(base, ".{", '}'))
  }

  /** One token's part of the text: white space, the token's base, and perhaps white space and a quantifier. */
  ghost predicate Piece(s: string, t: string, gap: string, base: string, shown: string, mid: string, q: string,
                        rest: string)
  {
    && s == gap + (base + (mid + (q + rest))) && t == shown + q
    && AllSpace(gap) && AllSpace(mid)
    && (q == "" || q == "+" || q == "*") && (q == "" ==> mid == "")
    && (Repeating(base, shown) || (q == "" && Single(base, shown)))
  }

  /** The text is the tokens, in order and each at its place, with nothing but white space besides. */
  ghost predicate SpelledOut(s: string, ts: seq<string>)
    decreases |ts|
  {
    if ts == [] then AllSpace(s)
    else exists gap, base, shown, mid, q, rest ::
           Piece(s, ts[0], gap, base, shown, mid, q, rest) && SpelledOut(rest, ts[1..])
  }

  // ---- bases ----

  lemma {:induction false} UpperIsSame(c: char)
    requires IsHex(c)
    ensures exists v :: SameDigit(c, Upper(c), v)
  {
    var v: nat := if '0' <= c <= '9' then c as int - '0' as int
                  else if 'a' <= c <= 'f' then c as int - 'a' as int + 10 else c as int - 'A' as int + 10;
    assert SameDigit(c, Upper(c), v);
  }

  lemma {:induction false} SameIsUpper(c: char, d: char, v: nat)
    requires SameDigit(c, d, v)
    ensures IsHex(c) && d == Upper(c) && !IsSpace(c) && c !in {'^', '$', '\\', '[', '(', '.', '?', '+', '*'}
  {
  }

  lemma {:induction false} BracketIsEnclosed(s: string, open: string, close: char)
    requires |open| <= IndexOf(s, close) < |s| && s[..|open|] == open
    ensures Enclosed(s[..IndexOf(s, close) + 1], open, close)
  {
    hide IndexOf;
    var t := s[..IndexOf(s, close) + 1];
    assert t[..|open|] == s[..|open|];
    assert forall k :: 0 <= k < |t| ==> t[k] == s[k];
  }

  /** Which texts are bases, how they are shown and whether they repeat. */
  lemma {:induction false} BaseIsForm(s: string)
    requires s != [] && BaseAt(s).Some?
    ensures var b := BaseAt(s).value;
            if b.quantifiable then Repeating(s[..b.length], b.text) else Single(s[..b.length], b.text)
  {
    hide IndexOf, Upper, Enclosed;
    if s[0] == '[' && IndexOf(s, ']') < |s| {
      assert s[..1] == "[";
      BracketIsEnclosed(s, "[", ']');
    } else if s[0] == '(' && IndexOf(s, ')') < |s| {
      assert s[..1] == "(";
      BracketIsEnclosed(s, "(", ')');
    } else if |s| >= 2 && s[0] == '.' && s[1] == '{' && IndexOf(s, '}') < |s| {
      assert s[..2] == ".{";
      BracketIsEnclosed(s, ".{", '}');
    } else if |s| >= 2 && IsHex(s[0]) && IsHex(s[1]) {
      HexIsForm(s);
    } else {
      MarkIsForm(s);
    }
  }

  lemma {:induction false} HexIsForm(s: string)
    requires |s| >= 2 && IsHex(s[0]) && IsHex(s[1])
    ensures BaseAt(s) == Some(Base([Upper(s[0]), Upper(s[1])], 2, true))
    ensures Repeating(s[..2], [Upper(s[0]), Upper(s[1])])
  {
    HexDigitsStart(s[0]);
    hide BaseAt, Upper;
    HexIsCanonical(s, []);
    PairIsShown(s[..2], [Upper(s[0]), Upper(s[1])]);
  }

  lemma {:induction false} HexDigitsStart(c: char)
    requires IsHex(c)
    ensures !IsSpace(c)
  {
  }

  lemma {:induction false} PairIsShown(base: string, shown: string)
    requires |base| == 2 && IsHex(base[0]) && IsHex(base[1]) && shown == [Upper(base[0]), Upper(base[1])]
    ensures PairShown(base, shown)
  {
    UpperIsSame(base[0]);
    UpperIsSame(base[1]);
    var v :| SameDigit(base[0], Upper(base[0]), v);
    var w :| SameDigit(base[1], Upper(base[1]), w);
    hide Upper, SameDigit, IsHex;
    assert SameDigit(base[0], shown[0], v) && SameDigit(base[1], shown[1], w);
  }

  lemma {:induction false} MarkIsForm(s: string)
    requires s != [] && BaseAt(s).Some?
    requires s[0] == '^' || s[0] == '$' || s[0] == '\\' || s[0] == '?'
    ensures var b := BaseAt(s).value;
            if b.quantifiable then Repeating(s[..b.length], b.text) else Single(s[..b.length], b.text)
  {
    hide IndexOf, Upper, Enclosed;
    if s[0] == '^' {
      assert s[..1] == "^";
    } else if s[0] == '$' {
      assert s[..1] == "$";
    } else if s[0] == '?' {
      assert s[..2] == "??";
    }
  }

  lemma {:induction false} PairIsBase(base: string, shown: string, r: string)
    requires PairShown(base, shown)
    ensures base + r != [] && BaseAt(base + r) == Some(Base(shown, 2, true))
    ensures !IsSpace(base[0]) && !IsQuantifier(base[0])
  {
    var v :| SameDigit(base[0], shown[0], v);
    var w :| SameDigit(base[1], shown[1], w);
    SameIsUpper(base[0], shown[0], v);
    SameIsUpper(base[1], shown[1], w);
    hide SameDigit, IsSpace, Upper;
    var s := base + r;
    assert s[0] == base[0] && s[1] == base[1] && shown == [shown[0], shown[1]];
  }

  lemma {:induction false} EnclosedIsBracket(base: string, open: string, close: char, r: string)
    requires Enclosed(base, open, close)
    ensures IndexOf(base + r, close) == |base| - 1
    ensures (base + r)[..|base|] == base
  {
    assert forall k :: 0 <= k < |base| ==> (base + r)[k] == base[k];
    IndexIs(base + r, close, |base| - 1);
  }

  lemma {:induction false} RepeatingIsBase(base: string, shown: string, r: string)
    requires Repeating(base, shown)
    ensures base + r != [] && BaseAt(base + r) == Some(Base(shown, |base|, true))
    ensures base != [] && !IsSpace(base[0]) && !IsQuantifier(base[0])
  {
    if PairShown(base, shown) {
      PairIsBase(base, shown, r);
    } else {
      var s := base + r;
      assert s[0] == base[0];
      if base == "??" {
        assert s[..2] == base && s[1] == '?';
      } else if Enclosed(base, "[", ']') {
        EnclosedIsBracket(base, "[", ']', r);
        assert base[..1][0] == '[';
      } else {
        EnclosedIsBracket(base, "(", ')', r);
        assert base[..1][0] == '(';
      }
      hide IndexOf, Enclosed, PairShown;
    }
  }

  lemma {:induction false} SingleIsBase(base: string, shown: string, r: string)
    requires Single(base, shown)
    ensures base + r != [] && BaseAt(base + r) == Some(Base(shown, |base|, false))
    ensures base != [] && !IsSpace(base[0]) && !IsQuantifier(base[0])
  {
    var s := base + r;
    assert s[0] == base[0] && s[..|base|] == base;
    if Enclosed(base, ".{", '}') {
      EnclosedIsBracket(base, ".{", '}', r);
      assert base[..2][0] == '.' && base[..2][1] == '{' && s[1] == '{';
    } else if |base| == 4 {
      assert s[1] == base[1];
    }
    hide IndexOf, Enclosed;
  }

  // ---- white space ----

  lemma {:induction false} TokensSkip(a: string, t: string)
    requires AllSpace(a)
    ensures Tokens(a + t) == Tokens(t)
  {
    hide IsSpace, TokenAt;
    if a == [] {
      assert a + t == t;
    } else {
      assert (a + t)[0] == a[0] && (a + t)[1..] == a[1..] + t;
      TokensSkip(a[1..], t);
    }
  }

  // ---- from tokens to text ----

  lemma {:induction false} QuantifiedPiece(s: string, base: string, shown: string, rest: string)
    requires s == base + rest && Repeating(base, shown) && QuantifierAt(rest).Some?
    ensures exists mid, q ::
              Piece(s, shown + [QuantifierAt(rest).value], "", base, shown, mid, q, AfterQuantifier(rest))
  {
    hide Repeating, Single, IsSpace;
    SkippedIs(rest);
    var r := SkipSpaces(rest);
    var mid :| AllSpace(mid) && rest == mid + r;
    var q := [r[0]];
    assert q == "+" || q == "*";
    assert r == q + r[1..] && s == "" + (base + (mid + (q + r[1..])));
    assert QuantifierAt(rest) == Some(r[0]) && AfterQuantifier(rest) == r[1..];
    hide QuantifierAt, AfterQuantifier, SkipSpaces;
    assert Piece(s, shown + q, "", base, shown, mid, q, r[1..]);
  }

  lemma {:induction false} BarePiece(s: string, base: string, shown: string, rest: string)
    requires s == base + rest && (Repeating(base, shown) || Single(base, shown))
    ensures Piece(s, shown, "", base, shown, "", "", rest)
  {
    hide Repeating, Single, IsSpace;
    assert s == "" + (base + ("" + ("" + rest))) && shown == shown + "";
  }

  lemma {:induction false} TokenIsPiece(s: string)
    requires s != [] && TokenAt(s).Some?
    ensures exists base, shown, mid, q ::
              Piece(s, TokenAt(s).value.0, "", base, shown, mid, q, TokenAt(s).value.1)
  {
    var b := BaseAt(s).value;
    BaseIsForm(s);
    var base, rest := s[..b.length], s[b.length..];
    assert s == base + rest;
    hide BaseAt, Repeating, Single, IsSpace, Piece, QuantifierAt, AfterQuantifier;
    if b.quantifiable && QuantifierAt(rest).Some? {
      QuantifiedPiece(s, base, b.text, rest);
      var mid, q :| Piece(s, b.text + [QuantifierAt(rest).value], "", base, b.text, mid, q, AfterQuantifier(rest));
      assert Piece(s, TokenAt(s).value.0, "", base, b.text, mid, q, TokenAt(s).value.1);
    } else {
      BarePiece(s, base, b.text, rest);
      assert Piece(s, TokenAt(s).value.0, "", base, b.text, "", "", TokenAt(s).value.1);
    }
  }

  lemma {:induction false} SpaceBefore(c: char, s: string, ts: seq<string>)
    requires IsSpace(c) && SpelledOut(s, ts)
    ensures SpelledOut([c] + s, ts)
  {
    hide IsSpace, Repeating, Single;
    if ts != [] {
      var gap, base, shown, mid, q, rest :|
        Piece(s, ts[0], gap, base, shown, mid, q, rest) && SpelledOut(rest, ts[1..]);
      assert [c] + (gap + (base + (mid + (q + rest)))) == ([c] + gap) + (base + (mid + (q + rest)));
      assert Piece([c] + s, ts[0], [c] + gap, base, shown, mid, q, rest);
    }
  }

  lemma {:induction false} TokensAreSpelled(s: string)
    requires Tokens(s).Some?
    ensures SpelledOut(s, Tokens(s).value)
    decreases |s|
  {
    hide IsSpace, Piece, TokenAt;
    if s != [] {
      if IsSpace(s[0]) {
        TokensAreSpelled(s[1..]);
        SpaceBefore(s[0], s[1..], Tokens(s[1..]).value);
        assert s == [s[0]] + s[1..];
      } else {
        var t, rest := TokenAt(s).value.0, TokenAt(s).value.1;
        TokenIsPiece(s);
        TokensAreSpelled(rest);
        var base, shown, mid, q :| Piece(s, t, "", base, shown, mid, q, rest);
        assert Tokens(s).value[0] == t && Tokens(s).value[1..] == Tokens(rest).value;
      }
    } else {
      assert AllSpace(s);
    }
  }

  // ---- from text to tokens ----

  /** The rest of a spelled-out text starts with no quantifier. */
  lemma {:induction false} NoQuantifierNext(s: string, ts: seq<string>)
    requires SpelledOut(s, ts)
    ensures QuantifierAt(s) == None
  {
    hide IsSpace, Repeating, Single;
    if ts == [] {
      SpacesSkipped(s, []);
      assert s + [] == s;
    } else {
      var gap, base, shown, mid, q, rest :|
        Piece(s, ts[0], gap, base, shown, mid, q, rest) && SpelledOut(rest, ts[1..]);
      if Repeating(base, shown) {
        RepeatingIsBase(base, shown, []);
      } else {
        SingleIsBase(base, shown, []);
      }
      var t := base + (mid + (q + rest));
      assert t[0] == base[0];
      SpacesSkipped(gap, t);
    }
  }

  lemma {:induction false} PieceIsToken(s: string, t: string, base: string, shown: string, mid: string, q: string,
                                        rest: string)
    requires Piece(s, t, "", base, shown, mid, q, rest) && (q == "" ==> QuantifierAt(rest) == None)
    ensures s != [] && !IsSpace(s[0]) && TokenAt(s) == Some((t, rest))
  {
    hide IsSpace;
    var after := mid + (q + rest);
    assert s == base + after;
    if Repeating(base, shown) {
      RepeatingIsBase(base, shown, after);
      assert s[|base|..] == after && s[0] == base[0];
      hide Repeating, Single, BaseAt;
      if q == "" {
        assert after == rest && t == shown;
      } else {
        QuantifierIsNoSpace(q[0]);
        SpacesSkipped(mid, q + rest);
        assert (q + rest)[0] == q[0] && (q + rest)[1..] == rest && [q[0]] == q;
      }
    } else {
      SingleIsBase(base, shown, after);
      assert after == rest && s[|base|..] == rest && t == shown && s[0] == base[0];
      hide Repeating, Single, BaseAt;
    }
  }

  lemma {:induction false} QuantifierIsNoSpace(c: char)
    requires c == '+' || c == '*'
    ensures !IsSpace(c)
  {
  }

  lemma {:induction false} SpelledTokenises(s: string, ts: seq<string>)
    requires SpelledOut(s, ts)
    ensures Tokens(s) == Some(ts)
    decreases |ts|
  {
    hide IsSpace, TokenAt, Repeating, Single, QuantifierAt;
    if ts == [] {
      TokensSkip(s, []);
      assert s + [] == s;
    } else {
      var gap, base, shown, mid, q, rest :|
        Piece(s, ts[0], gap, base, shown, mid, q, rest) && SpelledOut(rest, ts[1..]);
      var t := base + (mid + (q + rest));
      NoQuantifierNext(rest, ts[1..]);
      assert t == "" + t && AllSpace("");
      PieceIsToken(t, ts[0], base, shown, mid, q, rest);
      SpelledTokenises(rest, ts[1..]);
      TokensSkip(gap, t);
      assert ts == [ts[0]] + ts[1..];
    }
  }

  /**
   A text is accepted with certain tokens exactly when it spells them out: hex digits shown in upper case with
   their values kept, every other character of a token kept as it is, and only white space left out.
   */
  lemma {:induction false} TokensSpell(s: string, ts: seq<string>)
    ensures Tokens(s) == Some(ts) <==> SpelledOut(s, ts)
  {
    if Tokens(s) == Some(ts) {
      TokensAreSpelled(s);
    }
    hide Tokens;
    if SpelledOut(s, ts) {
      SpelledTokenises(s, ts);
    }
  }
}

/** Splitting a binary pattern into tokens, and printing the tokens back. */
module PatternTokens {
  import opened Options
  import opened Text

  predicate IsHex(c: char) {
    '0' <= c <= '9' || 'a' <= c <= 'f' || 'A' <= c <= 'F'
  }

  function Upper(c: char): char
    requires IsHex(c)
  {
    if 'a' <= c <= 'f' then (c as int - 32) as char else c
  }

  predicate IsHexPair(s: string) {
    |s| == 2 && IsHex(s[0]) && IsHex(s[1])
  }

  predicate IsQuantifier(c: char) {
    c == '+' || c == '*'
  }

  /** Offset of the first `c`, or the length when there is none. */
  function IndexOf(s: string, c: char): (i: nat)
    ensures i <= |s| && (i < |s| ==> s[i] == c)
    ensures forall j :: 0 <= j < i ==> s[j] != c
  {
    if s == [] || s[0] == c then 0 else 1 + IndexOf(s[1..], c)
  }

  /** A token without its quantifier, how much text it took, and whether a quantifier may follow. */
  datatype Base = Base(text: string, length: nat, quantifiable: bool)

  function Bracketed(s: string, close: char, quantifiable: bool): Option<Base> {
    var end := IndexOf(s, close);
    if end == |s| then None else Some(Base(s[..end + 1], end + 1, quantifiable))
  }

  function BaseAt(s: string): (b: Option<Base>)
    requires s != []
    ensures b.Some? ==> 0 < b.value.length <= |s| && |b.value.text| == b.value.length
  {
    if s[0] == '^' || s[0] == '$' then Some(Base(s[..1], 1, false))
    else if |s| >= 2 && s[0] == '\\' && (s[1] == 'x' || s[1] == 'X') then
      if |s| < 4 then None else Some(Base(s[..4], 4, false))
    else if s[0] == '[' then Bracketed(s, ']', true)
    else if s[0] == '(' then Bracketed(s, ')', true)
    else if s[0] == '.' && |s| >= 2 && s[1] == '{' then Bracketed(s, '}', false)
    else if |s| >= 2 && s[0] == '?' && s[1] == '?' then Some(Base(s[..2], 2, true))
    else if |s| >= 2 && IsHex(s[0]) && IsHex(s[1]) then Some(Base([Upper(s[0]), Upper(s[1])], 2, true))
    else None
  }

  /** A quantifier that is the next character that is not a space. */
  function QuantifierAt(s: string): (q: Option<char>) {
    var r := SkipSpaces(s);
    if r != [] && IsQuantifier(r[0]) then Some(r[0]) else None
  }

  /** What is left once a quantifier, if there is one, is taken. */
  function AfterQuantifier(s: string): (r: string)
    ensures |r| <= |s|
    ensures r != [] ==> r[|r| - 1] == s[|s| - 1]
  {
    if QuantifierAt(s).Some? then SkipSpaces(s)[1..] else s
  }

  /** The first token, with its quantifier folded in, and the text after it. */
  function TokenAt(s: string): (t: Option<(string, string)>)
    requires s != []
    ensures t.Some? ==> |t.value.1| < |s| && (t.value.1 != [] ==> t.value.1[|t.value.1| - 1] == s[|s| - 1])
  {
    match BaseAt(s)
    case None => None
    case Some(b) =>
      var rest := s[b.length..];
      if b.quantifiable && QuantifierAt(rest).Some?
        then Some((b.text + [QuantifierAt(rest).value], AfterQuantifier(rest)))
      else Some((b.text, rest))
  }

  /** All tokens of a text, or nothing when some part of it is no token. */
  function Tokens(s: string): Option<seq<string>>
    decreases |s|
  {
    if s == [] then Some([])
    else if IsSpace(s[0]) then Tokens(s[1..])
    else match TokenAt(s)
      case None => None
      case Some((t, rest)) => Onto([t], Tokens(rest))
  }

  function Tokenized(pattern: string): Option<seq<string>> {
    Tokens(Strip(pattern))
  }

  function Join(ts: seq<string>): string {
    if ts == [] then [] else if |ts| == 1 then ts[0] else ts[0] + [' '] + Join(ts[1..])
  }

  /** The display form; a text that is no pattern is shown as it is. */
  function Display(pattern: string): string {
    match Tokenized(Strip(pattern))
    case None => pattern
    case Some(ts) => Join(ts)
  }

  // ---- a token read again is the same token ----

  /** A base that reads as itself. */
  ghost predicate CanonicalBase(b: Base) {
    b.text != [] && !IsSpace(b.text[0]) && !IsQuantifier(b.text[0]) && BaseAt(b.text) == Some(b)
  }

  ghost predicate Canonical(t: string) {
    exists b, q :: CanonicalBase(b) && SplitsAs(t, b, q)
  }

  ghost predicate SplitsAs(t: string, b: Base, q: string) {
    t == b.text + q && (q == [] || (|q| == 1 && IsQuantifier(q[0]) && b.quantifiable))
  }

  lemma {:induction false} IndexIs(s: string, c: char, i: nat)
    requires i < |s| && s[i] == c && forall k :: 0 <= k < i ==> s[k] != c
    ensures IndexOf(s, c) == i
  {
    hide IndexOf;
  }

  lemma {:induction false} IndexOfNone(s: string, c: char)
    requires c !in s
    ensures IndexOf(s, c) == |s|
  {
    hide IndexOf;
  }

  lemma {:induction false} IndexOfPrefix(s: string, c: char, x: string)
    requires IndexOf(s, c) < |s|
    ensures IndexOf(s[..IndexOf(s, c) + 1] + x, c) == IndexOf(s, c)
  {
    var i, j := IndexOf(s, c), IndexOf(s[..IndexOf(s, c) + 1] + x, c);
    var y := s[..i + 1] + x;
    assert y[i] == c;
    assert forall k :: 0 <= k < i ==> y[k] == s[k] && y[k] != c;
  }

  lemma {:induction false} BracketedAgain(s: string, close: char, quantifiable: bool, x: string)
    requires s != [] && s[0] != close && Bracketed(s, close, quantifiable).Some?
    ensures var b := Bracketed(s, close, quantifiable).value;
            && b.text != [] && b.text[0] == s[0] && (|s| >= 2 ==> |b.text| >= 2 && b.text[1] == s[1])
            && |b.text| == b.length && Bracketed(b.text + x, close, quantifiable) == Some(b)
  {
    IndexOfPrefix(s, close, x);
    var b := Bracketed(s, close, quantifiable).value;
    assert (b.text + x)[..|b.text|] == b.text;
  }

  lemma {:induction false} UpperIsHex(c: char)
    requires IsHex(c)
    ensures IsHex(Upper(c)) && Upper(Upper(c)) == Upper(c) && !IsSpace(Upper(c)) && !IsQuantifier(Upper(c))
    ensures Upper(c) !in {'^', '$', '\\', '[', '(', '.', '?'}
  {
  }

  /** The base found at the start of a text is the base found at its own start, whatever follows it. */
  lemma {:induction false} BaseIsCanonical(s: string, x: string)
    requires s != [] && !IsSpace(s[0]) && BaseAt(s).Some?
    ensures var b := BaseAt(s).value;
            BaseAt(b.text + x) == Some(b) && !IsSpace(b.text[0]) && !IsQuantifier(b.text[0])
  {
    if s[0] == '[' || s[0] == '(' || s[0] == '.' {
      BracketIsCanonical(s, x);
    } else if |s| >= 2 && IsHex(s[0]) && IsHex(s[1]) {
      HexIsCanonical(s, x);
    } else {
      MarkIsCanonical(s, x);
    }
  }

  lemma {:induction false} BracketIsCanonical(s: string, x: string)
    requires s != [] && !IsSpace(s[0]) && BaseAt(s).Some?
    requires s[0] == '[' || s[0] == '(' || s[0] == '.'
    ensures var b := BaseAt(s).value;
            BaseAt(b.text + x) == Some(b) && !IsSpace(b.text[0]) && !IsQuantifier(b.text[0])
  {
    hide Bracketed, IsSpace;
    if s[0] == '[' {
      BracketedAgain(s, ']', true, x);
    } else if s[0] == '(' {
      BracketedAgain(s, ')', true, x);
    } else {
      BracketedAgain(s, '}', false, x);
    }
  }

  lemma {:induction false} HexIsCanonical(s: string, x: string)
    requires |s| >= 2 && IsHex(s[0]) && IsHex(s[1])
    ensures BaseAt(s) == Some(Base([Upper(s[0]), Upper(s[1])], 2, true))
    ensures var b := BaseAt(s).value;
            BaseAt(b.text + x) == Some(b) && !IsSpace(b.text[0]) && !IsQuantifier(b.text[0])
  {
    hide Bracketed, IsSpace;
    UpperIsHex(s[0]);
    UpperIsHex(s[1]);
  }

  lemma {:induction false} MarkIsCanonical(s: string, x: string)
    requires s != [] && !IsSpace(s[0]) && BaseAt(s).Some?
    requires s[0] == '^' || s[0] == '$' || s[0] == '\\' || s[0] == '?'
    ensures var b := BaseAt(s).value;
            BaseAt(b.text + x) == Some(b) && !IsSpace(b.text[0]) && !IsQuantifier(b.text[0])
  {
    hide Bracketed, IsSpace;
    var b := BaseAt(s).value;
    var y := b.text + x;
    assert y[..|b.text|] == b.text && y[0] == s[0];
    if |b.text| >= 2 {
      assert y[1] == s[1];
    }
  }

  lemma {:induction false} CanonicalReads(b: Base, x: string)
    requires CanonicalBase(b)
    ensures BaseAt(b.text + x) == Some(b) && b.length == |b.text|
  {
    BaseIsCanonical(b.text, x);
  }

  lemma {:induction false} TokenIsCanonical(s: string)
    requires s != [] && !IsSpace(s[0]) && TokenAt(s).Some?
    ensures Canonical(TokenAt(s).value.0)
  {
    var b := BaseAt(s).value;
    BaseIsCanonical(s, []);
    assert b.text + [] == b.text;
    var rest := s[b.length..];
    var q := if b.quantifiable && QuantifierAt(rest).Some? then [QuantifierAt(rest).value] else [];
    assert CanonicalBase(b) && SplitsAs(TokenAt(s).value.0, b, q);
  }

  lemma {:induction false} TokensAreCanonical(s: string)
    requires Tokens(s).Some?
    ensures forall t :: t in Tokens(s).value ==> Canonical(t)
    decreases |s|
  {
    if s != [] {
      if IsSpace(s[0]) {
        TokensAreCanonical(s[1..]);
      } else {
        TokenIsCanonical(s);
        TokensAreCanonical(TokenAt(s).value.1);
      }
    }
  }

  /** Text that can follow a token without changing it: the end, or a space and the next token. */
  ghost predicate Separated(r: string) {
    r == [] || (|r| >= 2 && r[0] == ' ' && !IsSpace(r[1]) && !IsQuantifier(r[1]))
  }

  lemma {:induction false} NoQuantifier(r: string)
    requires Separated(r)
    ensures QuantifierAt(r) == None
  {
    if r != [] {
      var tail := r[1..];
      assert tail[0] == r[1];
      assert SkipSpaces(tail) == tail;
      assert SkipSpaces(r) == SkipSpaces(tail);
    }
  }

  lemma {:induction false} QuantifierFirst(c: char, r: string)
    requires IsQuantifier(c)
    ensures QuantifierAt([c] + r) == Some(c) && AfterQuantifier([c] + r) == r
  {
    assert SkipSpaces([c] + r) == [c] + r;
  }

  lemma {:induction false} CanonicalStart(t: string)
    requires Canonical(t)
    ensures t != [] && !IsSpace(t[0]) && !IsQuantifier(t[0])
  {
  }

  lemma {:induction false} TokenReread(t: string, r: string)
    requires Canonical(t) && Separated(r)
    ensures t != [] && TokenAt(t + r) == Some((t, r))
  {
    var b, q :| CanonicalBase(b) && SplitsAs(t, b, q);
    CanonicalReads(b, q + r);
    hide *;
    SplitReads(t, b, q, r);
    assert q == [] || (|q| == 1 && IsQuantifier(q[0])) by {
      SplitShape(t, b, q);
    }
    if q == [] {
      assert q + r == r;
      NoQuantifier(r);
    } else {
      assert q + r == [q[0]] + r;
      QuantifierFirst(q[0], r);
    }
    CanonicalStart(t);
    SplitToken(t, b, q, r);
  }

  lemma {:induction false} SplitShape(t: string, b: Base, q: string)
    requires SplitsAs(t, b, q)
    ensures t == b.text + q && (q == [] || (|q| == 1 && IsQuantifier(q[0])))
  {
  }

  lemma {:induction false} SplitReads(t: string, b: Base, q: string, r: string)
    requires CanonicalBase(b) && SplitsAs(t, b, q)
    ensures BaseAt(b.text + (q + r)) == Some(b) && t + r == b.text + (q + r) && (t + r)[|b.text|..] == q + r
            && b.length == |b.text|
  {
    hide *;
    SplitShape(t, b, q);
    CanonicalReads(b, q + r);
    assert t + r == b.text + (q + r);
  }

  lemma {:induction false} SplitToken(t: string, b: Base, q: string, r: string)
    requires t != [] && SplitsAs(t, b, q) && BaseAt(t + r) == Some(b) && b.length == |b.text|
             && (t + r)[|b.text|..] == q + r
    requires q == [] ==> QuantifierAt(q + r) == None && q + r == r
    requires q != [] ==> QuantifierAt(q + r) == Some(q[0]) && AfterQuantifier(q + r) == r
    ensures TokenAt(t + r) == Some((t, r))
  {
    hide BaseAt, QuantifierAt, AfterQuantifier;
    if q == [] {
      assert t == b.text;
    } else {
      assert q == [q[0]];
    }
  }

  lemma {:induction false} JoinReread(ts: seq<string>)
    requires forall t :: t in ts ==> Canonical(t)
    ensures Tokens(Join(ts)) == Some(ts)
    ensures ts != [] ==> Join(ts) != [] && !IsSpace(Join(ts)[0]) && !IsQuantifier(Join(ts)[0])
    decreases |ts|
  {
    hide TokenAt, Canonical, Tokens, IsSpace, IsQuantifier;
    if ts == [] {
      NoTokensInNothing();
    } else {
      CanonicalStart(ts[0]);
      var r := if |ts| == 1 then [] else [' '] + Join(ts[1..]);
      assert Join(ts) == ts[0] + r;
      if |ts| > 1 {
        JoinReread(ts[1..]);
        SpaceSkipped(Join(ts[1..]));
      } else {
        NoTokensInNothing();
      }
      TokenReread(ts[0], r);
      TokenThenRest(ts[0], r);
      assert ts == [ts[0]] + ts[1..];
    }
  }

  lemma {:induction false} SpaceSkipped(s: string)
    ensures Tokens([' '] + s) == Tokens(s)
  {
    assert ([' '] + s)[1..] == s;
  }

  lemma {:induction false} TokenThenRest(t: string, r: string)
    requires t != [] && !IsSpace(t[0]) && TokenAt(t + r) == Some((t, r))
    ensures Tokens(t + r) == Onto([t], Tokens(r))
  {
    hide TokenAt;
  }

  // ---- stripping does not touch a printed pattern ----

  lemma {:induction false} LastCharacter(s: string)
    requires Tokens(s).Some? && s != [] && !IsSpace(s[|s| - 1])
    ensures var ts := Tokens(s).value;
            ts != [] && ts[|ts| - 1] != [] && !IsSpace(ts[|ts| - 1][|ts[|ts| - 1]| - 1])
    decreases |s|
  {
    if IsSpace(s[0]) {
      LastCharacter(s[1..]);
    } else {
      var (t, rest) := TokenAt(s).value;
      if rest != [] {
        LastCharacter(rest);
      } else {
        TokenEnd(s);
      }
    }
  }

  lemma {:induction false} TokenEnd(s: string)
    requires s != [] && !IsSpace(s[0]) && !IsSpace(s[|s| - 1])
    requires TokenAt(s).Some? && TokenAt(s).value.1 == []
    ensures var t := TokenAt(s).value.0; t != [] && !IsSpace(t[|t| - 1])
  {
    var b := BaseAt(s).value;
    if b.length == |s| {
      if |s| >= 2 && IsHex(s[0]) && IsHex(s[1]) {
        UpperIsHex(s[1]);
      }
      assert s[b.length..] == [];
    }
  }

  lemma {:induction false} JoinEnd(ts: seq<string>)
    requires ts != [] && ts[|ts| - 1] != []
    ensures Join(ts) != [] && Join(ts)[|Join(ts)| - 1] == ts[|ts| - 1][|ts[|ts| - 1]| - 1]
    decreases |ts|
  {
    if |ts| > 1 {
      JoinEnd(ts[1..]);
    }
  }

  /** Tokens joined with single spaces read back as the same tokens, for every accepted pattern. */
  lemma {:induction false} TokensRoundTrip(pattern: string)
    requires Tokenized(pattern).Some?
    ensures Tokenized(Join(Tokenized(pattern).value)) == Tokenized(pattern)
  {
    hide Tokens, Join, Canonical, Strip;
    var s := Strip(pattern);
    StripTwice(pattern);
    TokensAreCanonical(s);
    var ts := Tokens(s).value;
    JoinReread(ts);
    NoTokensInNothing();
    if s != [] {
      LastCharacter(s);
      JoinEnd(ts);
    }
    StripId(Join(ts));
  }

  lemma NoTokensInNothing()
    ensures Tokens([]) == Some([]) && Join([]) == []
  {
  }

  /** Displaying is idempotent on every string, pattern or not, and keeps the tokens. */
  lemma {:induction false} DisplayIdempotent(pattern: string)
    ensures Display(Display(pattern)) == Display(pattern)
    ensures Tokenized(Display(pattern)) == Tokenized(pattern)
  {
    StripTwice(pattern);
    if Tokenized(pattern).Some? {
      TokensRoundTrip(pattern);
      StripTwice(Display(pattern));
    }
  }

  // ---- the loops ----

  method ConsumeQuantifierSuffix(s: string, i: nat, tokens: seq<string>) returns (j: nat, tokens': seq<string>)
    requires i <= |s| && tokens != []
    ensures i <= j <= |s| && s[j..] == AfterQuantifier(s[i..])
    ensures tokens' ==
              tokens[..|tokens| - 1]
              + [tokens[|tokens| - 1] + if QuantifierAt(s[i..]).Some? then [QuantifierAt(s[i..]).value] else []]
  {
    var k := i;
    while k < |s| && IsSpace(s[k])
      invariant i <= k <= |s| && SkipSpaces(s[i..]) == SkipSpaces(s[k..])
    {
      SkipOne(s, k);
      k := k + 1;
    }
    SkipNone(s, k);
    QuantifierFound(s, i, k);
    hide *;
    if k < |s| && (s[k] == '+' || s[k] == '*') {
      return k + 1, tokens[..|tokens| - 1] + [tokens[|tokens| - 1] + [s[k]]];
    }
    assert tokens[|tokens| - 1] + [] == tokens[|tokens| - 1];
    return i, tokens;
  }

  lemma {:induction false} QuantifierFound(s: string, i: nat, k: nat)
    requires i <= k <= |s| && SkipSpaces(s[i..]) == s[k..]
    ensures if k < |s| && (s[k] == '+' || s[k] == '*')
              then QuantifierAt(s[i..]) == Some(s[k]) && AfterQuantifier(s[i..]) == s[k + 1..]
            else QuantifierAt(s[i..]) == None && AfterQuantifier(s[i..]) == s[i..]
  {
    if k < |s| {
      assert s[k..][0] == s[k] && s[k..][1..] == s[k + 1..];
    }
  }

  lemma {:induction false} SkipOne(s: string, k: nat)
    requires k < |s| && IsSpace(s[k])
    ensures SkipSpaces(s[k..]) == SkipSpaces(s[k + 1..])
  {
    assert s[k..][0] == s[k] && s[k..][1..] == s[k + 1..];
  }

  lemma {:induction false} SkipNone(s: string, k: nat)
    requires k <= |s| && (k < |s| ==> !IsSpace(s[k]))
    ensures SkipSpaces(s[k..]) == s[k..]
  {
    assert k < |s| ==> s[k..][0] == s[k];
  }

  method FindChar(s: string, c: char, i: nat) returns (end: Option<nat>)
    requires i <= |s|
    ensures end == if IndexOf(s[i..], c) == |s| - i then None else Some(i + IndexOf(s[i..], c))
  {
    var k := i;
    while k < |s|
      invariant i <= k <= |s| && IndexOf(s[i..], c) == k - i + IndexOf(s[k..], c)
    {
      if s[k] == c {
        return Some(k);
      }
      assert s[k..][1..] == s[k + 1..];
      k := k + 1;
    }
    return None;
  }

  /** The token that starts at `i`, without its quantifier. */
  method ReadBase(s: string, i: nat) returns (b: Option<Base>)
    requires i < |s|
    ensures b == BaseAt(s[i..])
  {
    hide IndexOf, IsHex, Upper;
    var c := s[i];
    assert s[i..][0] == c && (i + 1 < |s| ==> s[i..][1] == s[i + 1]);
    assert i + 2 <= |s| ==> s[i..i + 2] == [c, s[i + 1]];
    if c == '^' || c == '$' {
      assert s[i..i + 1] == s[i..][..1];
      return Some(Base(s[i..i + 1], 1, false));
    }
    if i + 2 <= |s| && (s[i..i + 2] == "\\x" || s[i..i + 2] == "\\X") {
      if i + 4 > |s| {
        return None;
      }
      assert s[i..i + 4] == s[i..][..4];
      return Some(Base(s[i..i + 4], 4, false));
    }
    if c == '[' || c == '(' || (c == '.' && i + 1 < |s| && s[i + 1] == '{') {
      var end := FindChar(s, if c == '[' then ']' else if c == '(' then ')' else '}', i);
      if end.None? {
        return None;
      }
      assert s[i..end.value + 1] == s[i..][..end.value + 1 - i];
      return Some(Base(s[i..end.value + 1], end.value + 1 - i, c != '.'));
    }
    if i + 2 <= |s| && s[i..i + 2] == "??" {
      assert s[i..i + 2] == s[i..][..2];
      return Some(Base("??", 2, true));
    }
    if i + 2 <= |s| && IsHex(s[i]) && IsHex(s[i + 1]) {
      return Some(Base([Upper(s[i]), Upper(s[i + 1])], 2, true));
    }
    return None;
  }

  method Tokenize(pattern: string) returns (tokens: Option<seq<string>>)
    ensures tokens == Tokenized(pattern)
  {
    hide *;
    var s := Strip(pattern);
    var found: seq<string> := [];
    var i: nat := 0;
    assert s[0..] == s;
    OntoNothing(Tokens(s));
    while i < |s|
      invariant i <= |s|
      invariant Tokens(s) == Onto(found, Tokens(s[i..]))
      decreases |s| - i
    {
      TokensUnfold(s, i, found);
      if IsSpace(s[i]) {
        i := i + 1;
      } else {
        var b := ReadBase(s, i);
        if b.None? {
          NoTokens(pattern, s);
          return None;
        }
        i, found := i + b.value.length, found + [b.value.text];
        if b.value.quantifiable {
          i, found := ConsumeQuantifierSuffix(s, i, found);
        }
      }
    }
    AllTokens(pattern, s, found);
    return Some(found);
  }

  /** What one turn of the loop does to what is still to be read. */
  lemma {:induction false} TokensUnfold(s: string, i: nat, found: seq<string>)
    requires i < |s|
    ensures IsSpace(s[i]) ==> Tokens(s[i..]) == Tokens(s[i + 1..])
    ensures !IsSpace(s[i]) && BaseAt(s[i..]).None? ==> Onto(found, Tokens(s[i..])) == None
    ensures !IsSpace(s[i]) && BaseAt(s[i..]).Some? ==>
              var b := BaseAt(s[i..]).value;
              var rest := s[i + b.length..];
              var q := if QuantifierAt(rest).Some? then [QuantifierAt(rest).value] else [];
              && (!b.quantifiable ==> Onto(found, Tokens(s[i..])) == Onto(found + [b.text], Tokens(rest)))
              && (b.quantifiable ==>
                  Onto(found, Tokens(s[i..])) == Onto(found + [b.text + q], Tokens(AfterQuantifier(rest))))
  {
    assert s[i..][1..] == s[i + 1..];
    if !IsSpace(s[i]) && BaseAt(s[i..]).Some? {
      var b := BaseAt(s[i..]).value;
      hide BaseAt, QuantifierAt;
      assert s[i..][b.length..] == s[i + b.length..];
      assert b.text + [] == b.text;
      OntoMore(found, [TokenAt(s[i..]).value.0], Tokens(TokenAt(s[i..]).value.1));
    }
  }

  lemma {:induction false} NoTokens(pattern: string, s: string)
    requires s == Strip(pattern) && Tokens(s) == None
    ensures Tokenized(pattern) == None
  {
  }

  lemma {:induction false} AllTokens(pattern: string, s: string, found: seq<string>)
    requires s == Strip(pattern) && Tokens(s) == Onto(found, Tokens(s[|s|..]))
    ensures Some(found) == Tokenized(pattern)
  {
    assert found + [] == found;
  }
}

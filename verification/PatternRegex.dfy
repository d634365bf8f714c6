/** Compiling a binary pattern to regular-expression text, and what that text means when it is read. */
module PatternRegex {
  import opened Bytes
  import opened Options
  import opened PatternTokens
  import opened Text

  // ---- meanings ----

  datatype Span = Span(low: nat, high: nat)

  datatype Atom = Start | End | Any | Single(value: nat) | Class(spans: seq<Span>) | Group(choices: seq<nat>)

  /** An atom repeated between `least` and `most` times; no `most` is no bound. */
  datatype Item = Item(atom: Atom, least: nat, most: Option<nat>)

  function Once(a: Atom): Item {
    Item(a, 1, Some(1))
  }

  /** Python's regular expressions refuse a bound this large. */
  const MAX_REPEAT: nat := 4294967295

  predicate GoodAtom(a: Atom) {
    a.Class? ==> a.spans != [] && forall k :: 0 <= k < |a.spans| ==> a.spans[k].low <= a.spans[k].high
  }

  predicate GoodBounds(least: nat, most: Option<nat>) {
    least < MAX_REPEAT && (most.Some? ==> least <= most.value < MAX_REPEAT)
  }

  /** Items that a regular expression can say: no empty class, no descending range or bounds. */
  predicate Good(i: Item) {
    GoodAtom(i.atom) && GoodBounds(i.least, i.most)
  }

  // ---- reading hex and decimal ----

  function HexDigit(v: nat): (c: char)
    requires v < 16
    ensures IsHex(c) && DigitValue(c) == v
  {
    if v < 10 then ('0' as int + v) as char else ('A' as int + v - 10) as char
  }

  function DigitValue(c: char): (v: nat)
    requires IsHex(c)
    ensures v < 16
  {
    if c <= '9' then c as int - '0' as int
    else if c <= 'F' then c as int - 'A' as int + 10
    else c as int - 'a' as int + 10
  }

  function PairValue(s: string): (v: nat)
    requires IsHexPair(s)
    ensures v < 256
  {
    16 * DigitValue(s[0]) + DigitValue(s[1])
  }

  /** `\xHH` with upper-case digits. */
  function HexEscape(v: nat): (s: string)
    requires v < 256
    ensures |s| == 4 && s[0] == '\\' && s[1] == 'x' && IsHexPair(s[2..]) && PairValue(s[2..]) == v
  {
    ['\\', 'x', HexDigit(v / 16), HexDigit(v % 16)]
  }

  /** Python's reading of at most two characters as a base-16 number that fits a byte. */
  function ReadByte(s: string): (v: Option<nat>)
    ensures v.Some? ==> v.value < 256
    ensures Strip(s) == [] ==> v == None
  {
    var t := Strip(s);
    var signed := t != [] && (t[0] == '+' || t[0] == '-');
    var u := if signed then t[1..] else t;
    if |u| == 1 && IsHex(u[0]) then
      if signed && t[0] == '-' && DigitValue(u[0]) != 0 then None else Some(DigitValue(u[0]))
    else if !signed && IsHexPair(u) then Some(PairValue(u))
    else None
  }

  predicate IsDigit(c: char) {
    '0' <= c <= '9'
  }

  predicate AllDigits(s: string) {
    forall k :: 0 <= k < |s| ==> IsDigit(s[k])
  }

  function Decimal(s: string): nat
    requires AllDigits(s)
  {
    if s == [] then 0 else 10 * Decimal(s[..|s| - 1]) + (s[|s| - 1] as int - '0' as int)
  }

  // ---- what each token says ----

  function RangeOf(inner: string): (r: Option<Span>)
    ensures r.Some? ==> r.value.low < 256 && r.value.high < 256
  {
    var d := IndexOf(inner, '-');
    if d == |inner| then None
    else
      var lo, hi := Strip(inner[..d]), Strip(inner[d + 1..]);
      if IsHexPair(lo) && IsHexPair(hi) then Some(Span(PairValue(lo), PairValue(hi))) else None
  }

  ghost predicate AllBytes(vs: seq<nat>) {
    forall k :: 0 <= k < |vs| ==> vs[k] < 256
  }

  /** The hex pairs of a class, left to right; every other character is skipped. */
  function HexPairs(s: string): (vs: seq<nat>)
    ensures AllBytes(vs)
  {
    if |s| < 2 then []
    else if IsHex(s[0]) && IsHex(s[1]) then [PairValue(s[..2])] + HexPairs(s[2..])
    else HexPairs(s[1..])
  }

  /** The bytes between bars, or nothing when some part is not one hex pair. */
  function Choices(s: string): (vs: Option<seq<nat>>)
    ensures vs.Some? ==> vs.value != [] && AllBytes(vs.value)
  {
    var d := IndexOf(s, '|');
    var part := Strip(s[..d]);
    if !IsHexPair(part) then None
    else if d == |s| then Some([PairValue(part)])
    else match Choices(s[d + 1..])
      case None => None
      case Some(vs) => Some([PairValue(part)] + vs)
  }

  function Points(vs: seq<nat>): seq<Span> {
    if vs == [] then [] else [Span(vs[0], vs[0])] + Points(vs[1..])
  }

  /** A class is one range, or the list of its hex pairs. */
  function ClassOf(inner: string): seq<Span> {
    if RangeOf(inner).Some? then [RangeOf(inner).value] else Points(HexPairs(inner))
  }

  /** `N` or `N,M`; either side of a comma may be left out. */
  function Counts(inner: string): Option<(nat, Option<nat>)> {
    var c := IndexOf(inner, ',');
    if inner == [] || !AllDigits(inner[..c]) then None
    else if c == |inner| then Some((Decimal(inner), Some(Decimal(inner))))
    else if !AllDigits(inner[c + 1..]) then None
    else Some((Decimal(inner[..c]), if inner[c + 1..] == [] then None else Some(Decimal(inner[c + 1..]))))
  }

  predicate IsEscapeToken(t: string) {
    |t| >= 2 && t[0] == '\\' && (t[1] == 'x' || t[1] == 'X')
  }

  predicate IsBraceToken(t: string) {
    |t| >= 3 && t[0] == '.' && t[1] == '{' && t[|t| - 1] == '}'
  }

  predicate IsClassToken(t: string) {
    |t| >= 2 && t[0] == '[' && t[|t| - 1] == ']'
  }

  predicate IsGroupToken(t: string) {
    |t| >= 2 && t[0] == '(' && t[|t| - 1] == ')'
  }

  predicate IsByteToken(t: string) {
    IsHexPair(t) && Upper(t[0]) == t[0] && Upper(t[1]) == t[1]
  }

  /** What a token without a quantifier stands for. */
  function BaseMeaning(t: string): Option<Item> {
    if t == "^" then Some(Once(Start))
    else if t == "$" then Some(Once(End))
    else if t == "??" then Some(Once(Any))
    else if IsEscapeToken(t) then
      match ReadByte(t[2..]) { case None => None case Some(v) => Some(Once(Single(v))) }
    else if IsBraceToken(t) then
      match Counts(t[2..|t| - 1]) { case None => None case Some((least, most)) => Some(Item(Any, least, most)) }
    else if IsClassToken(t) then
      Some(Once(Class(ClassOf(t[1..|t| - 1]))))
    else if IsGroupToken(t) then
      match Choices(t[1..|t| - 1]) { case None => None case Some(vs) => Some(Once(Group(vs))) }
    else if IsByteToken(t) then Some(Once(Single(PairValue(t))))
    else None
  }

  predicate Repeatable(i: Item) {
    i == Once(i.atom) && !i.atom.Start? && !i.atom.End?
  }

  predicate EndsRepeated(t: string) {
    t != [] && IsQuantifier(t[|t| - 1])
  }

  /** What a token stands for: its base, repeated as its last character says. */
  function Meaning(t: string): Option<Item> {
    if EndsRepeated(t) then
      match BaseMeaning(t[..|t| - 1])
      case None => None
      case Some(i) =>
        if Repeatable(i) && !IsBraceToken(t[..|t| - 1])
        then Some(Item(i.atom, if t[|t| - 1] == '+' then 1 else 0, None))
        else None
    else BaseMeaning(t)
  }

  function Meanings(ts: seq<string>): Option<seq<Item>> {
    if ts == [] then Some([])
    else if Meaning(ts[0]).None? || Meanings(ts[1..]).None? then None
    else Some([Meaning(ts[0]).value] + Meanings(ts[1..]).value)
  }

  // ---- compiling ----

  /** The bytes Python's `re.escape` puts a backslash in front of. */
  predicate IsSpecial(c: char) {
    c in {'(', ')', '[', ']', '{', '}', '?', '*', '+', '-', '|', '^', '$', '\\', '.', '&', '~', '#', ' '}
    || 9 <= c as int <= 13
  }

  function EscapeByte(v: nat): string
    requires v < 256
  {
    if IsSpecial(v as char) then ['\\', v as char] else [v as char]
  }

  function Escapes(vs: seq<nat>): string
    requires AllBytes(vs)
  {
    if vs == [] then [] else HexEscape(vs[0]) + Escapes(vs[1..])
  }

  function Bars(vs: seq<nat>): string
    requires AllBytes(vs)
  {
    if vs == [] then [] else if |vs| == 1 then HexEscape(vs[0]) else HexEscape(vs[0]) + ['|'] + Bars(vs[1..])
  }

  predicate Ascii(s: string) {
    forall k :: 0 <= k < |s| ==> s[k] as int < 128
  }

  function ClassText(inner: string): string {
    match RangeOf(inner)
    case Some(Span(lo, hi)) => ['['] + HexEscape(lo) + ['-'] + HexEscape(hi) + [']']
    case None => ['['] + Escapes(HexPairs(inner)) + [']']
  }

  function TokenToRegex(t: string): Option<string> {
    if t == "^" then Some("\\A")
    else if t == "$" then Some("\\Z")
    else if EndsRepeated(t) then
      match TokenToRegex(t[..|t| - 1]) { case None => None case Some(x) => Some(x + [t[|t| - 1]]) }
    else if t == "??" then Some(".")
    else if IsEscapeToken(t) then
      match ReadByte(t[2..]) { case None => None case Some(v) => Some(EscapeByte(v)) }
    else if IsBraceToken(t) then if Ascii(t) then Some(t) else None
    else if IsClassToken(t) then Some(ClassText(t[1..|t| - 1]))
    else if IsGroupToken(t) then
      match Choices(t[1..|t| - 1]) { case None => None case Some(vs) => Some(['('] + Bars(vs) + [')']) }
    else if IsByteToken(t) then Some(HexEscape(PairValue(t)))
    else None
  }

  function Build(ts: seq<string>): Option<string> {
    if ts == [] then Some([])
    else if TokenToRegex(ts[0]).None? || Build(ts[1..]).None? then None
    else Some(TokenToRegex(ts[0]).value + Build(ts[1..]).value)
  }

  /** The regular-expression text of a pattern, or nothing when it is refused. */
  function BuildRegex(pattern: string): Option<string> {
    match Tokenized(pattern)
    case None => None
    case Some(ts) => Build(ts)
  }

  // ---- the grammar of regular-expression text ----

  function Code(c: char): nat {
    c as int
  }

  predicate IsLetterOrDigit(c: char) {
    IsDigit(c) || 'a' <= c <= 'z' || 'A' <= c <= 'Z'
  }

  /** A byte inside a class: `\xHH`, an escaped mark, or any other character as it stands. */
  function ReadMember(s: string): (r: Option<(nat, string)>)
    ensures r.Some? ==> |r.value.1| < |s|
  {
    if s == [] then None
    else if s[0] != '\\' then Some((Code(s[0]), s[1..]))
    else if |s| >= 4 && s[1] == 'x' && IsHexPair(s[2..4]) then Some((PairValue(s[2..4]), s[4..]))
    else if |s| >= 2 && !IsLetterOrDigit(s[1]) then
      Some((Code(s[1]), s[2..]))
    else None
  }

  /** The rest of a class. A `]` in the first place is a member, not the end. */
  function ReadClass(s: string, first: bool): (r: Option<(seq<Span>, string)>)
    ensures r.Some? ==> |r.value.1| < |s|
    decreases |s|
  {
    if s == [] || (first && s[0] == '^') then None
    else if s[0] == ']' && !first then Some(([], s[1..]))
    else match ReadMember(s)
      case None => None
      case Some((low, rest)) =>
        if |rest| >= 2 && rest[0] == '-' && rest[1] == ']'
          then Some(([Span(low, low), Span(Code('-'), Code('-'))], rest[2..]))
        else if rest != [] && rest[0] == '-' then
          match ReadMember(rest[1..])
          case None => None
          case Some((high, rest')) => if high < low then None else MoreSpans(Span(low, high), ReadClass(rest', false))
        else MoreSpans(Span(low, low), ReadClass(rest, false))
  }

  function MoreSpans(c: Span, r: Option<(seq<Span>, string)>): Option<(seq<Span>, string)> {
    if r.None? then None else Some(([c] + r.value.0, r.value.1))
  }

  /** The rest of a group of bytes written `\xHH|\xHH|...)`. */
  function ReadGroup(s: string): (r: Option<(seq<nat>, string)>)
    ensures r.Some? ==> |r.value.1| < |s|
  {
    if |s| < 5 || s[0] != '\\' || s[1] != 'x' || !IsHexPair(s[2..4]) then None
    else if s[4] == ')' then Some(([PairValue(s[2..4])], s[5..]))
    else if s[4] != '|' then None
    else match ReadGroup(s[5..])
      case None => None
      case Some((vs, rest)) => Some(([PairValue(s[2..4])] + vs, rest))
  }

  function DigitRun(s: string): (n: nat)
    ensures n <= |s| && AllDigits(s[..n]) && (n < |s| ==> !IsDigit(s[n]))
  {
    if s == [] || !IsDigit(s[0]) then 0 else 1 + DigitRun(s[1..])
  }

  /** The bounds after an opening brace; nothing when the brace is only a character. */
  function ReadCounts(s: string): (r: Option<(nat, Option<nat>, string)>)
    ensures r.Some? ==> |r.value.2| < |s|
  {
    var a := DigitRun(s);
    var s1 := s[a..];
    if s == [] || s[0] == '}' || s1 == [] then None
    else if s1[0] == '}' then Some((Decimal(s[..a]), Some(Decimal(s[..a])), s1[1..]))
    else if s1[0] != ',' then None
    else
      var b := DigitRun(s1[1..]);
      var s2 := s1[1..][b..];
      if s2 == [] || s2[0] != '}' then None
      else Some((Decimal(s[..a]), if b == 0 then None else Some(Decimal(s1[1..][..b])), s2[1..]))
  }

  /** A repetition at the start of the text. */
  function ReadBounds(s: string): (r: Option<(nat, Option<nat>, string)>)
    ensures r.Some? ==> |r.value.2| < |s|
  {
    if s == [] then None
    else if s[0] == '+' then Some((1, None, s[1..]))
    else if s[0] == '*' then Some((0, None, s[1..]))
    else if s[0] == '?' then Some((0, Some(1), s[1..]))
    else if s[0] == '{' then ReadCounts(s[1..])
    else None
  }

  function ReadAtom(s: string): (r: Option<(Atom, string)>)
    requires s != []
    ensures r.Some? ==> |r.value.1| < |s|
  {
    if s[0] == '\\' then
      if |s| < 2 then None
      else if s[1] == 'A' then Some((Start, s[2..]))
      else if s[1] == 'Z' then Some((End, s[2..]))
      else match ReadMember(s) { case None => None case Some((v, rest)) => Some((Single(v), rest)) }
    else if s[0] == '.' then Some((Any, s[1..]))
    else if s[0] == '[' then
      match ReadClass(s[1..], true) { case None => None case Some((spans, rest)) => Some((Class(spans), rest)) }
    else if s[0] == '(' then
      match ReadGroup(s[1..]) { case None => None case Some((vs, rest)) => Some((Group(vs), rest)) }
    else if s[0] in {')', '|', '^', '$'} || ReadBounds(s).Some? then None
    else Some((Single(Code(s[0])), s[1..]))
  }

  /** One item. Repeating an anchor, or a repetition, is refused, as are lazy and possessive forms. */
  function ReadItem(s: string): (r: Option<(Item, string)>)
    requires s != []
    ensures r.Some? ==> |r.value.1| < |s|
  {
    match ReadAtom(s)
    case None => None
    case Some((a, rest)) =>
      match ReadBounds(rest)
      case None => Some((Once(a), rest))
      case Some((least, most, rest')) =>
        if a.Start? || a.End? || !GoodBounds(least, most) || ReadBounds(rest').Some? then None
        else Some((Item(a, least, most), rest'))
  }

  /** The items of a regular-expression text, by Python's grammar. */
  function ParseRegex(s: string): Option<seq<Item>>
    decreases |s|
  {
    if s == [] then Some([])
    else match ReadItem(s)
      case None => None
      case Some((i, rest)) => match ParseRegex(rest) { case None => None case Some(more) => Some([i] + more) }
  }

  // ---- the grammar only ever yields good items ----

  lemma {:induction false} ClassIsGood(s: string, first: bool)
    requires ReadClass(s, first).Some?
    ensures first ==> ReadClass(s, first).value.0 != []
    ensures forall c :: c in ReadClass(s, first).value.0 ==> c.low <= c.high
    decreases |s|
  {
    if s[0] != ']' || first {
      var (low, rest) := ReadMember(s).value;
      if rest != [] && rest[0] == '-' {
        if |rest| < 2 || rest[1] != ']' {
          ClassIsGood(ReadMember(rest[1..]).value.1, false);
        }
      } else {
        ClassIsGood(rest, false);
      }
    }
  }

  lemma {:induction false} AtomIsGood(s: string)
    requires s != [] && ReadAtom(s).Some?
    ensures GoodAtom(ReadAtom(s).value.0)
  {
    hide ReadClass, ReadGroup, ReadMember, ReadBounds;
    if s[0] == '[' {
      ClassIsGood(s[1..], true);
    }
  }

  lemma {:induction false} ItemIsGood(s: string)
    requires s != [] && ReadItem(s).Some?
    ensures Good(ReadItem(s).value.0)
  {
    AtomIsGood(s);
    hide ReadAtom, ReadBounds, GoodAtom;
  }

  lemma {:induction false} ItemsAreGood(s: string)
    requires ParseRegex(s).Some?
    ensures forall i :: i in ParseRegex(s).value ==> Good(i)
    decreases |s|
  {
    if s != [] {
      ItemIsGood(s);
      ItemsAreGood(ReadItem(s).value.1);
    }
  }

  // ---- each atom's text reads back, whatever follows ----

  lemma {:induction false} EscapeReads(v: nat, r: string)
    requires v < 256
    ensures ReadMember(HexEscape(v) + r) == Some((v, r))
    ensures ReadAtom(HexEscape(v) + r) == Some((Single(v), r))
  {
    hide HexDigit, DigitValue;
    var s := HexEscape(v) + r;
    assert s[2..4] == HexEscape(v)[2..];
    assert s[4..] == r;
  }

  lemma {:induction false} ByteReads(v: nat, r: string)
    requires v < 256
    ensures ReadAtom(EscapeByte(v) + r) == Some((Single(v), r))
  {
    var s := EscapeByte(v) + r;
    if IsSpecial(v as char) {
      assert s[2..] == r;
    } else {
      assert s[1..] == r;
    }
  }

  lemma {:induction false} ClassReads(vs: seq<nat>, first: bool, r: string)
    requires AllBytes(vs) && (first ==> vs != [])
    ensures ReadClass(Escapes(vs) + [']'] + r, first) == Some((Points(vs), r))
    decreases |vs|
  {
    var s := Escapes(vs) + [']'] + r;
    if vs == [] {
      assert s[1..] == r;
    } else {
      var rest := Escapes(vs[1..]) + [']'] + r;
      assert s == HexEscape(vs[0]) + rest;
      EscapeReads(vs[0], rest);
      hide HexEscape, ReadMember;
      ClassReads(vs[1..], false, r);
      assert rest[0] != '-' by {
        EscapesStart(vs[1..], r);
      }
    }
  }

  lemma {:induction false} EscapesStart(vs: seq<nat>, r: string)
    requires AllBytes(vs)
    ensures (Escapes(vs) + [']'] + r)[0] != '-'
  {
  }

  lemma {:induction false} RangeReads(lo: nat, hi: nat, r: string)
    requires lo <= hi < 256
    ensures ReadClass(HexEscape(lo) + ['-'] + HexEscape(hi) + [']'] + r, true) == Some(([Span(lo, hi)], r))
  {
    var end := [']'] + r;
    var rest := ['-'] + (HexEscape(hi) + end);
    var s := HexEscape(lo) + ['-'] + HexEscape(hi) + [']'] + r;
    assert s == HexEscape(lo) + rest;
    EscapeReads(lo, rest);
    EscapeReads(hi, end);
    assert rest[1..] == HexEscape(hi) + end && rest[1] == '\\';
    hide ReadMember, HexEscape;
    assert end[1..] == r;
    assert [Span(lo, hi)] + [] == [Span(lo, hi)];
  }

  lemma {:induction false} GroupReads(vs: seq<nat>, r: string)
    requires AllBytes(vs) && vs != []
    ensures ReadGroup(Bars(vs) + [')'] + r) == Some((vs, r))
    decreases |vs|
  {
    hide HexEscape, ReadGroup;
    if |vs| == 1 {
      GroupEnds(vs[0], r);
      assert vs == [vs[0]];
      assert Bars(vs) + [')'] + r == HexEscape(vs[0]) + ([')'] + r);
    } else {
      var rest := Bars(vs[1..]) + [')'] + r;
      GroupReads(vs[1..], r);
      GroupGoesOn(vs[0], rest);
      assert Bars(vs) + [')'] + r == HexEscape(vs[0]) + (['|'] + rest);
      assert [vs[0]] + vs[1..] == vs;
    }
  }

  lemma {:induction false} GroupEnds(v: nat, r: string)
    requires v < 256
    ensures ReadGroup(HexEscape(v) + ([')'] + r)) == Some(([v], r))
  {
    hide HexDigit, DigitValue, PairValue, IsHexPair;
    var s := HexEscape(v) + ([')'] + r);
    assert s[2..4] == HexEscape(v)[2..] && s[5..] == r;
  }

  lemma {:induction false} GroupGoesOn(v: nat, rest: string)
    requires v < 256 && ReadGroup(rest).Some?
    ensures ReadGroup(HexEscape(v) + (['|'] + rest)) == Some(([v] + ReadGroup(rest).value.0, ReadGroup(rest).value.1))
  {
    hide HexDigit, DigitValue, PairValue, IsHexPair;
    var s := HexEscape(v) + (['|'] + rest);
    assert s[2..4] == HexEscape(v)[2..] && s[5..] == rest;
  }

  lemma {:induction false} DigitRunIs(a: string, r: string)
    requires AllDigits(a) && r != [] && !IsDigit(r[0])
    ensures DigitRun(a + r) == |a|
  {
    if a == [] {
      assert a + r == r;
    } else {
      DigitRunIs(a[1..], r);
      assert (a + r)[1..] == a[1..] + r && IsDigit(a[0]);
    }
  }

  lemma {:induction false} CountsRead(inner: string, r: string)
    requires Counts(inner).Some?
    ensures ReadCounts(inner + ['}'] + r) == Some((Counts(inner).value.0, Counts(inner).value.1, r))
  {
    hide Decimal, DigitRun;
    var c := IndexOf(inner, ',');
    if c == |inner| {
      assert inner[..c] == inner;
      OneCountReads(inner, r);
    } else {
      TwoCountsRead(inner[..c], inner[c + 1..], r);
      assert inner[..c] + [','] + inner[c + 1..] == inner;
    }
  }

  lemma {:induction false} OneCountReads(a: string, r: string)
    requires a != [] && AllDigits(a)
    ensures ReadCounts(a + ['}'] + r) == Some((Decimal(a), Some(Decimal(a)), r))
  {
    hide Decimal, DigitRun;
    var s1 := ['}'] + r;
    var s := a + ['}'] + r;
    assert s == a + s1;
    DigitRunIs(a, s1);
    assert s[0] == a[0] && s[..|a|] == a && s[|a|..] == s1 && s1[1..] == r;
  }

  lemma {:induction false} TwoCountsRead(a: string, b: string, r: string)
    requires AllDigits(a) && AllDigits(b)
    ensures ReadCounts(a + [','] + b + ['}'] + r) == Some((Decimal(a), if b == [] then None else Some(Decimal(b)), r))
  {
    hide *;
    var s2 := ['}'] + r;
    var s1 := [','] + (b + s2);
    var s := a + [','] + b + ['}'] + r;
    assert s == a + s1;
    MarksAreNoDigits();
    DigitRunIs(a, s1);
    DigitRunIs(b, s2);
    assert s[0] == (if a == [] then ',' else a[0]);
    if a != [] {
      DigitIsNoMark(a);
    }
    assert s[..|a|] == a && s[|a|..] == s1 && s1[1..] == b + s2;
    assert (b + s2)[..|b|] == b && (b + s2)[|b|..] == s2 && s2[1..] == r;
    CountsAt(s, a, s1, b, s2);
  }

  lemma MarksAreNoDigits()
    ensures !IsDigit(',') && !IsDigit('}')
  {
  }

  lemma {:induction false} DigitIsNoMark(a: string)
    requires a != [] && AllDigits(a)
    ensures a[0] != '}'
  {
  }

  lemma {:induction false} CountsAt(s: string, a: string, s1: string, b: string, s2: string)
    requires AllDigits(a) && AllDigits(b) && s != [] && s[0] != '}'
    requires DigitRun(s) == |a| && |a| <= |s| && s[..|a|] == a && s[|a|..] == s1
    requires s1 != [] && s1[0] == ',' && DigitRun(s1[1..]) == |b| && |b| < |s1| && s1[1..][..|b|] == b
             && s1[1..][|b|..] == s2
    requires s2 != [] && s2[0] == '}'
    ensures ReadCounts(s) == Some((Decimal(a), if b == [] then None else Some(Decimal(b)), s2[1..]))
  {
    hide Decimal, DigitRun, AllDigits;
  }

  // ---- each token's text reads back ----

  /** Text that does not go on repeating what stands before it. */
  predicate Fresh(r: string) {
    r != [] ==> r[0] !in {'+', '*', '?', '{'}
  }

  predicate WellBraced(t: string) {
    IsBraceToken(t) ==> Counts(t[2..|t| - 1]).Some?
  }

  lemma {:induction false} ClassTokenReads(inner: string, r: string)
    requires GoodAtom(Class(ClassOf(inner)))
    ensures ReadAtom(ClassText(inner) + r) == Some((Class(ClassOf(inner)), r))
  {
    if RangeOf(inner).Some? {
      var c := RangeOf(inner).value;
      assert c.low <= c.high by {
        assert ClassOf(inner)[0] == c;
      }
      hide *;
      RangeReads(c.low, c.high, r);
      ClassStarts(HexEscape(c.low) + ['-'] + HexEscape(c.high) + [']'], r);
      RangeText(inner);
    } else {
      assert HexPairs(inner) != [];
      hide *;
      ClassReads(HexPairs(inner), true, r);
      ClassStarts(Escapes(HexPairs(inner)) + [']'], r);
      ListText(inner);
    }
  }

  lemma {:induction false} ClassStarts(x: string, r: string)
    requires ReadClass(x + r, true).Some?
    ensures ReadAtom(['['] + x + r) == Some((Class(ReadClass(x + r, true).value.0), ReadClass(x + r, true).value.1))
  {
    hide ReadClass;
    assert (['['] + x + r)[1..] == x + r;
  }

  lemma {:induction false} RangeText(inner: string)
    requires RangeOf(inner).Some?
    ensures var c := RangeOf(inner).value;
            ClassText(inner) == ['['] + (HexEscape(c.low) + ['-'] + HexEscape(c.high) + [']']) && ClassOf(inner) == [c]
  {
    hide RangeOf, HexEscape;
  }

  lemma {:induction false} ListText(inner: string)
    requires RangeOf(inner).None?
    ensures ClassText(inner) == ['['] + (Escapes(HexPairs(inner)) + [']']) && ClassOf(inner) == Points(HexPairs(inner))
  {
    hide RangeOf, HexPairs, Escapes;
  }

  lemma {:induction false} GroupTokenReads(vs: seq<nat>, r: string)
    requires AllBytes(vs) && vs != []
    ensures ReadAtom(['('] + Bars(vs) + [')'] + r) == Some((Group(vs), r))
  {
    GroupReads(vs, r);
    hide ReadGroup, Bars, ReadBounds, ReadMember;
    assert (['('] + Bars(vs) + [')'] + r)[1..] == Bars(vs) + [')'] + r;
  }

  /** A token with no quantifier and no braces: its text is one atom. */
  lemma {:induction false} AtomReads(t: string, r: string)
    requires BaseMeaning(t).Some? && Good(BaseMeaning(t).value) && !IsBraceToken(t)
    requires !EndsRepeated(t)
    ensures TokenToRegex(t).Some? && ReadAtom(TokenToRegex(t).value + r) == Some((BaseMeaning(t).value.atom, r))
    ensures BaseMeaning(t).value == Once(BaseMeaning(t).value.atom)
  {
    hide ReadByte, ClassOf, Choices, EscapeByte, ClassText, HexEscape, Bars, ReadMember, ReadClass, ReadGroup,
      ReadBounds;
    if t == "^" || t == "$" {
      assert (TokenToRegex(t).value + r)[2..] == r;
    } else if t == "??" {
      assert ("." + r)[1..] == r;
    } else if IsEscapeToken(t) {
      ByteReads(ReadByte(t[2..]).value, r);
    } else if IsClassToken(t) {
      ClassTokenReads(t[1..|t| - 1], r);
    } else if IsGroupToken(t) {
      GroupTokenReads(Choices(t[1..|t| - 1]).value, r);
    } else {
      EscapeReads(PairValue(t), r);
    }
  }

  lemma {:induction false} BraceReads(t: string, r: string)
    requires IsBraceToken(t) && WellBraced(t) && BaseMeaning(t).Some? && Good(BaseMeaning(t).value) && Fresh(r)
    ensures t + r != [] && ReadItem(t + r) == Some((BaseMeaning(t).value, r))
  {
    hide BaseMeaning, Counts, ReadItem;
    var inner := t[2..|t| - 1];
    BraceMeaning(t);
    assert GoodBounds(Counts(inner).value.0, Counts(inner).value.1);
    hide *;
    BraceItemReads(inner, r);
    assert t + r == ['.'] + (['{'] + (inner + ['}'] + r));
  }

  lemma {:induction false} BraceKnown(t: string)
    requires IsBraceToken(t) && BaseMeaning(t).Some?
    ensures WellBraced(t) && (TokenToRegex(t).Some? ==> TokenToRegex(t) == Some(t))
  {
    hide Counts;
  }

  lemma {:induction false} BraceMeaning(t: string)
    requires IsBraceToken(t) && WellBraced(t)
    ensures t == ['.', '{'] + t[2..|t| - 1] + ['}']
    ensures Counts(t[2..|t| - 1]).Some?
    ensures BaseMeaning(t) == Some(Item(Any, Counts(t[2..|t| - 1]).value.0, Counts(t[2..|t| - 1]).value.1))
  {
    hide Counts;
  }

  lemma {:induction false} BraceItemReads(inner: string, r: string)
    requires Counts(inner).Some? && Fresh(r) && GoodBounds(Counts(inner).value.0, Counts(inner).value.1)
    ensures ReadItem(['.'] + (['{'] + (inner + ['}'] + r))) ==
              Some((Item(Any, Counts(inner).value.0, Counts(inner).value.1), r))
  {
    hide *;
    var rest := inner + ['}'] + r;
    CountsRead(inner, r);
    NoBounds(r);
    DotReads(['{'] + rest);
    BraceBounds(rest);
    BoundedItem(['.'] + (['{'] + rest), Any, ['{'] + rest, Counts(inner).value.0, Counts(inner).value.1, r);
  }

  lemma {:induction false} DotReads(rest: string)
    ensures ReadAtom(['.'] + rest) == Some((Any, rest))
  {
    assert (['.'] + rest)[1..] == rest;
  }

  lemma {:induction false} BraceBounds(rest: string)
    ensures ReadBounds(['{'] + rest) == ReadCounts(rest)
  {
    hide ReadCounts;
    assert (['{'] + rest)[1..] == rest;
  }

  lemma {:induction false} BoundedItem(s: string, a: Atom, rest: string, least: nat, most: Option<nat>, r: string)
    requires s != [] && ReadAtom(s) == Some((a, rest)) && !a.Start? && !a.End?
    requires ReadBounds(rest) == Some((least, most, r)) && GoodBounds(least, most) && ReadBounds(r).None?
    ensures ReadItem(s) == Some((Item(a, least, most), r))
  {
    hide ReadAtom, ReadBounds, GoodBounds;
  }

  lemma {:induction false} NoBounds(r: string)
    requires Fresh(r)
    ensures ReadBounds(r).None?
  {
  }

  lemma {:induction false} RepeatReads(x: string, a: Atom, q: string, r: string)
    requires x != [] && ReadAtom(x + (q + r)) == Some((a, q + r)) && Fresh(r)
    requires q == [] || (|q| == 1 && IsQuantifier(q[0]) && !a.Start? && !a.End?)
    ensures ReadItem(x + (q + r)) == Some((if q == [] then Once(a) else Item(a, if q[0] == '+' then 1 else 0, None), r))
  {
    hide ReadAtom;
    NoBounds(r);
    if q == [] {
      assert q + r == r;
    } else {
      assert (q + r)[1..] == r;
    }
  }

  lemma {:induction false} FragmentStart(t: string)
    requires TokenToRegex(t).Some?
    ensures TokenToRegex(t).value != [] && Fresh(TokenToRegex(t).value)
  {
    hide ReadByte, RangeOf, HexPairs, Choices, HexDigit;
    if t != "^" && t != "$" && EndsRepeated(t) {
      FragmentStart(t[..|t| - 1]);
    }
  }

  /** The text of a token is read as that token's meaning and nothing of what follows it. */
  lemma {:induction false} FragmentReads(t: string, r: string)
    requires TokenToRegex(t).Some? && Meaning(t).Some? && Good(Meaning(t).value) && Fresh(r)
    ensures TokenToRegex(t).value + r != [] && ReadItem(TokenToRegex(t).value + r) == Some((Meaning(t).value, r))
  {
    FragmentStart(t);
    if EndsRepeated(t) {
      QuantifiedReads(t, r);
    } else if IsBraceToken(t) {
      BraceKnown(t);
      BraceReads(t, r);
    } else {
      AtomReads(t, [] + r);
      var x := TokenToRegex(t).value;
      RepeatReads(x, Meaning(t).value.atom, [], r);
      assert [] + r == r;
    }
  }

  lemma {:induction false} QuantifiedReads(t: string, r: string)
    requires EndsRepeated(t)
    requires TokenToRegex(t).Some? && Meaning(t).Some? && Good(Meaning(t).value) && Fresh(r)
    ensures TokenToRegex(t).value + r != [] && ReadItem(TokenToRegex(t).value + r) == Some((Meaning(t).value, r))
  {
    var base, q := t[..|t| - 1], [t[|t| - 1]];
    QuantifiedParts(t);
    hide *;
    RepeatedBaseReads(base, q, r);
  }

  lemma {:induction false} RepeatedBaseReads(base: string, q: string, r: string)
    requires BaseMeaning(base).Some? && Good(BaseMeaning(base).value) && !IsBraceToken(base) && !EndsRepeated(base)
    requires !BaseMeaning(base).value.atom.Start? && !BaseMeaning(base).value.atom.End?
    requires TokenToRegex(base).Some? && |q| == 1 && IsQuantifier(q[0]) && Fresh(r)
    ensures TokenToRegex(base).value + q + r != []
    ensures ReadItem(TokenToRegex(base).value + q + r) ==
            Some((Item(BaseMeaning(base).value.atom, if q[0] == '+' then 1 else 0, None), r))
  {
    hide *;
    AtomReads(base, q + r);
    var x := TokenToRegex(base).value;
    FragmentStart(base);
    RepeatReads(x, BaseMeaning(base).value.atom, q, r);
    assert x + (q + r) == x + q + r;
  }

  lemma {:induction false} QuantifiedParts(t: string)
    requires EndsRepeated(t) && TokenToRegex(t).Some? && Meaning(t).Some? && Good(Meaning(t).value)
    ensures var base := t[..|t| - 1];
            var q := t[|t| - 1];
            && IsQuantifier(q) && TokenToRegex(base).Some? && TokenToRegex(t).value == TokenToRegex(base).value + [q]
            && BaseMeaning(base).Some? && Good(BaseMeaning(base).value) && !IsBraceToken(base) && !EndsRepeated(base)
            && !BaseMeaning(base).value.atom.Start? && !BaseMeaning(base).value.atom.End?
            && Meaning(t).value == Item(BaseMeaning(base).value.atom, if q == '+' then 1 else 0, None)
  {
    var base := t[..|t| - 1];
    BaseEnd(base);
    assert TokenToRegex(t) == Some(TokenToRegex(base).value + [t[|t| - 1]]);
    hide TokenToRegex, BaseMeaning, IsBraceToken;
  }

  lemma {:induction false} NoByteEndsRepeated(s: string)
    requires EndsRepeated(s)
    ensures ReadByte(s) == None
  {
    SkipSpacesReaches(s);
    hide SkipSpaces, DropTrailing, PairValue, DigitValue;
    var t := SkipSpaces(s);
    assert DropTrailing(t) == t by {
      KeepsEnd(t);
    }
    assert Strip(s) == t;
    assert !IsHex(t[|t| - 1]);
  }

  lemma {:induction false} BaseEnd(t: string)
    requires BaseMeaning(t).Some? && Repeatable(BaseMeaning(t).value)
    ensures !EndsRepeated(t)
  {
    hide ReadByte, RangeOf, HexPairs, Choices, PairValue, Counts;
    if IsEscapeToken(t) && |t| > 2 && EndsRepeated(t[2..]) {
      NoByteEndsRepeated(t[2..]);
    }
  }

  // ---- the compiled text means what the tokens say ----

  ghost predicate AllGood(items: seq<Item>) {
    forall i :: i in items ==> Good(i)
  }

  /** Every brace token is `.{N}` or `.{N,M}`, with either count of the second form optional. */
  predicate AllBraced(ts: seq<string>) {
    forall k :: 0 <= k < |ts| ==> WellBraced(ts[k])
  }

  lemma {:induction false} BaseHasMeaning(b: Base)
    requires CanonicalBase(b) && TokenToRegex(b.text).Some? && WellBraced(b.text) && !EndsRepeated(b.text)
    ensures BaseMeaning(b.text).Some?
    ensures b.quantifiable ==> Repeatable(BaseMeaning(b.text).value) && !IsBraceToken(b.text)
  {
    hide ReadByte, RangeOf, HexPairs, Choices, Counts, PairValue, ClassText, EscapeByte;
  }

  lemma {:induction false} EscapeHasMeaning(t: string)
    requires |t| == 4 && IsEscapeToken(t) && EndsRepeated(t) && TokenToRegex(t).Some?
    ensures Meaning(t).Some?
  {
    var base := t[..3];
    assert TokenToRegex(base).Some?;
    NothingRepeated(base);
    hide ReadByte, EscapeByte, TokenToRegex;
    EscapeBase(base);
  }

  lemma {:induction false} NothingToEscape(t: string)
    requires |t| == 2 && IsEscapeToken(t)
    ensures TokenToRegex(t) == None
  {
    assert t[2..] == [];
  }

  lemma {:induction false} NothingRepeated(t: string)
    requires |t| == 3 && IsEscapeToken(t)
    ensures EndsRepeated(t) ==> TokenToRegex(t) == None
  {
    NothingToEscape(t[..2]);
    hide ReadByte;
  }

  lemma {:induction false} EscapeBase(t: string)
    requires IsEscapeToken(t) && !EndsRepeated(t) && TokenToRegex(t).Some?
    ensures BaseMeaning(t).Some? && Repeatable(BaseMeaning(t).value) && !IsBraceToken(t)
  {
    hide ReadByte, EscapeByte;
  }

  lemma {:induction false} TokenHasMeaning(t: string)
    requires Canonical(t) && TokenToRegex(t).Some? && WellBraced(t)
    ensures Meaning(t).Some?
  {
    var b, q :| CanonicalBase(b) && SplitsAs(t, b, q);
    if q != [] {
      RepeatedHasMeaning(t, b);
    } else {
      assert t == b.text;
      PlainHasMeaning(t, b);
    }
  }

  lemma {:induction false} RepeatedHasMeaning(t: string, b: Base)
    requires CanonicalBase(b) && b.quantifiable && EndsRepeated(t) && t[..|t| - 1] == b.text
    requires TokenToRegex(t).Some? && WellBraced(t)
    ensures Meaning(t).Some?
  {
    QuantifiableEnd(b);
    assert TokenToRegex(b.text).Some?;
    hide TokenToRegex, BaseAt;
    BaseHasMeaning(b);
    hide BaseMeaning, CanonicalBase, IsBraceToken;
  }

  lemma {:induction false} QuantifiableEnd(b: Base)
    requires CanonicalBase(b) && b.quantifiable
    ensures !EndsRepeated(b.text) && !IsBraceToken(b.text)
  {
    hide IsSpace;
  }

  lemma {:induction false} PlainHasMeaning(t: string, b: Base)
    requires CanonicalBase(b) && b.text == t && TokenToRegex(t).Some? && WellBraced(t)
    ensures Meaning(t).Some?
  {
    if EndsRepeated(t) {
      RepeatedEscape(t, b);
      EscapeHasMeaning(t);
    } else {
      BaseHasMeaning(b);
      hide BaseMeaning, TokenToRegex, CanonicalBase;
    }
  }

  lemma {:induction false} RepeatedEscape(t: string, b: Base)
    requires CanonicalBase(b) && b.text == t && EndsRepeated(t)
    ensures |t| == 4 && IsEscapeToken(t)
  {
    hide IsSpace;
  }

  lemma {:induction false} TokensHaveMeanings(ts: seq<string>)
    requires (forall t :: t in ts ==> Canonical(t)) && Build(ts).Some? && AllBraced(ts)
    ensures Meanings(ts).Some?
  {
    hide Canonical, TokenToRegex, Meaning, WellBraced;
    if ts != [] {
      TokenHasMeaning(ts[0]);
      TokensHaveMeanings(ts[1..]);
    }
  }

  lemma {:induction false} FreshStart(x: string, r: string)
    requires x != [] && Fresh(x)
    ensures Fresh(x + r)
  {
  }

  lemma {:induction false} ParseStep(s: string, i: Item, rest: string)
    requires s != [] && ReadItem(s) == Some((i, rest)) && ParseRegex(rest).Some?
    ensures ParseRegex(s) == Some([i] + ParseRegex(rest).value)
  {
    hide ReadItem;
  }

  /** Fragments put end to end read back as one item each: none takes part of its neighbour. */
  lemma {:induction false} FragmentsReadBack(ts: seq<string>)
    requires Build(ts).Some? && Meanings(ts).Some? && AllGood(Meanings(ts).value)
    ensures ParseRegex(Build(ts).value) == Meanings(ts) && Fresh(Build(ts).value)
  {
    hide TokenToRegex, Meaning, ReadItem, Good;
    if ts != [] {
      var x, r := TokenToRegex(ts[0]).value, Build(ts[1..]).value;
      assert Meanings(ts).value[0] == Meaning(ts[0]).value && Meanings(ts).value[1..] == Meanings(ts[1..]).value;
      FragmentsReadBack(ts[1..]);
      FragmentReads(ts[0], r);
      FragmentStart(ts[0]);
      FreshStart(x, r);
      ParseStep(x + r, Meaning(ts[0]).value, r);
    }
  }

  lemma {:induction false} MeaningIsBraced(t: string)
    requires Meaning(t).Some?
    ensures WellBraced(t)
  {
    hide Counts, ReadByte, ClassOf, Choices, PairValue;
  }

  lemma {:induction false} MeaningsAreBraced(ts: seq<string>)
    requires Meanings(ts).Some?
    ensures AllBraced(ts)
  {
    hide Meaning, WellBraced;
    if ts != [] {
      MeaningIsBraced(ts[0]);
      MeaningsAreBraced(ts[1..]);
    }
  }

  /** Every token says something, and a regular expression can say it. */
  ghost predicate AllSayable(ts: seq<string>) {
    Meanings(ts).Some? && AllGood(Meanings(ts).value)
  }

  /**
   The compiler preserves meaning exactly when every brace holds a count, no class is empty, no range or
   count runs backwards, and every count is below 4294967295: then, and only then, the whole text is read
   as one item for each token, saying what the token says.
   */
  lemma {:induction false} CompiledMeansTokens(pattern: string)
    requires BuildRegex(pattern).Some?
    ensures var ts := Tokenized(pattern).value;
            && (Meanings(ts).Some? <==> AllBraced(ts))
            && (Meanings(ts).Some? && ParseRegex(BuildRegex(pattern).value) == Meanings(ts) <==> AllSayable(ts))
  {
    var ts := Tokenized(pattern).value;
    hide Tokens, Strip, Build, ParseRegex, Good, Canonical, Meanings, WellBraced;
    TokensAreCanonical(Strip(pattern));
    if AllBraced(ts) {
      TokensHaveMeanings(ts);
    }
    if Meanings(ts).Some? {
      MeaningsAreBraced(ts);
      if AllGood(Meanings(ts).value) {
        FragmentsReadBack(ts);
      } else if ParseRegex(Build(ts).value).Some? {
        ItemsAreGood(Build(ts).value);
      }
    }
  }

  lemma {:induction false} DigitRunFits(a: string, r: string)
    requires a != [] && r != [] && !IsDigit(r[0])
    ensures DigitRun(a + r) <= |a|
    ensures AllDigits(a[..DigitRun(a + r)])
    decreases |a|
  {
    var n := DigitRun(a + r);
    assert (a + r)[|a|] == r[0];
    assert n <= |a|;
    assert (a + r)[..n] == a[..n];
  }

  lemma {:induction false} NoCounts(inner: string, r: string)
    requires '}' !in inner && Counts(inner).None?
    ensures ReadCounts(inner + ['}'] + r).None?
  {
    hide DigitRun, Decimal;
    var s := inner + ['}'] + r;
    if inner == [] {
      assert s[0] == '}';
    } else {
      var rest := ['}'] + r;
      assert s == inner + rest;
      DigitRunFits(inner, rest);
      var a := DigitRun(s);
      assert inner[..|inner|] == inner;
      if a == |inner| {
        DigitsHoldNoComma(inner);
      } else if inner[a] == ',' {
        DigitsHoldNoComma(inner[..a]);
        assert forall j :: 0 <= j < a ==> inner[j] == inner[..a][j];
        CommaAt(inner, a);
        SecondFails(inner[a + 1..], r);
        assert s[a..][1..] == inner[a + 1..] + ['}'] + r;
      } else {
        assert s[a..][0] == inner[a];
      }
    }
  }

  lemma {:induction false} CommaAt(inner: string, a: nat)
    requires a < |inner| && inner[a] == ',' && forall j :: 0 <= j < a ==> inner[j] != ','
    ensures IndexOf(inner, ',') == a
  {
    hide IndexOf;
  }

  lemma {:induction false} DigitsHoldNoComma(a: string)
    requires AllDigits(a)
    ensures forall j :: 0 <= j < |a| ==> a[j] != ','
    ensures IndexOf(a, ',') == |a|
  {
    hide IndexOf;
    assert forall j :: 0 <= j < |a| ==> IsDigit(a[j]);
  }

  /** Where the digits after the comma stop, there is no closing brace. */
  lemma {:induction false} SecondFails(b: string, r: string)
    requires '}' !in b && !AllDigits(b)
    ensures var s := b + ['}'] + r;
            s[DigitRun(s)..] == [] || s[DigitRun(s)..][0] != '}'
  {
    hide DigitRun;
    var s := b + ['}'] + r;
    assert s == b + (['}'] + r);
    DigitRunFits(b, ['}'] + r);
    assert b[..|b|] == b;
    assert s[DigitRun(s)..][0] == b[DigitRun(s)];
  }

  lemma {:induction false} CanonicalBrace(t: string)
    requires Canonical(t) && IsBraceToken(t)
    ensures '}' !in t[2..|t| - 1]
  {
    hide IsSpace;
    var b, q :| CanonicalBase(b) && SplitsAs(t, b, q);
    assert q == [] && t == b.text;
    assert IndexOf(t, '}') == |t| - 1;
  }

  /** A brace that holds no count is no repetition: the wildcard stands alone and the brace is left as text. */
  lemma {:induction false} MalformedBraceIsText(t: string, r: string)
    requires Canonical(t) && IsBraceToken(t) && TokenToRegex(t).Some? && Meaning(t).None?
    ensures t + r != [] && ReadItem(TokenToRegex(t).value + r) == Some((Once(Any), t[1..] + r))
  {
    var inner := t[2..|t| - 1];
    BraceCompiles(t);
    CanonicalBrace(t);
    hide *;
    NoCounts(inner, r);
    DotReads(['{'] + (inner + ['}'] + r));
    BraceBounds(inner + ['}'] + r);
    BraceSplits(t, inner, r);
    UnboundedItem(t + r, t[1..] + r);
  }

  lemma {:induction false} BraceSplits(t: string, inner: string, r: string)
    requires t == ['.', '{'] + inner + ['}']
    ensures t[1..] + r == ['{'] + (inner + ['}'] + r)
    ensures t + r == ['.'] + (['{'] + (inner + ['}'] + r))
  {
  }

  lemma {:induction false} BraceCompiles(t: string)
    requires IsBraceToken(t) && TokenToRegex(t).Some? && Meaning(t).None?
    ensures TokenToRegex(t).value == t && Counts(t[2..|t| - 1]).None?
    ensures t == ['.', '{'] + t[2..|t| - 1] + ['}']
  {
    hide Counts;
  }

  lemma {:induction false} UnboundedItem(s: string, rest: string)
    requires s != [] && ReadAtom(s) == Some((Any, rest)) && ReadBounds(rest).None?
    ensures ReadItem(s) == Some((Once(Any), rest))
  {
    hide ReadAtom, ReadBounds;
  }

  /** The displayed pattern compiles to the same text as the pattern itself. */
  lemma {:induction false} DisplayCompilesAlike(pattern: string)
    ensures BuildRegex(Display(pattern)) == BuildRegex(pattern)
  {
    DisplayIdempotent(pattern);
  }

  // ---- what the items match ----

  ghost predicate AtomMatches(a: Atom, d: seq<byte>, i: nat, j: nat) {
    match a
    case Start => i == j == 0
    case End => i == j == |d|
    case Any => j == i + 1 <= |d|
    case Single(v) => j == i + 1 <= |d| && d[i] as nat == v
    case Class(spans) =>
      j == i + 1 <= |d| && exists k :: 0 <= k < |spans| && spans[k].low <= d[i] as nat <= spans[k].high
    case Group(choices) => j == i + 1 <= |d| && d[i] as nat in choices
  }

  ghost predicate Times(a: Atom, n: nat, d: seq<byte>, i: nat, j: nat) {
    if n == 0 then i == j <= |d| else exists k: nat :: AtomMatches(a, d, i, k) && Times(a, n - 1, d, k, j)
  }

  ghost predicate ItemMatches(t: Item, d: seq<byte>, i: nat, j: nat) {
    exists n: nat :: t.least <= n && (t.most.Some? ==> n <= t.most.value) && Times(t.atom, n, d, i, j)
  }

  /** The items match `d` from `i` up to `j`. */
  ghost predicate Matches(items: seq<Item>, d: seq<byte>, i: nat, j: nat) {
    if items == [] then i == j <= |d|
    else exists k: nat :: ItemMatches(items[0], d, i, k) && Matches(items[1..], d, k, j)
  }

  /** Successive pieces of `d` match successive tokens. */
  ghost predicate TokensMatch(ts: seq<string>, d: seq<byte>, i: nat, j: nat) {
    if ts == [] then i == j <= |d|
    else
      exists k: nat ::
        Meaning(ts[0]).Some? && ItemMatches(Meaning(ts[0]).value, d, i, k) && TokensMatch(ts[1..], d, k, j)
  }

  lemma {:induction false} TokensMatchAsItems(ts: seq<string>, d: seq<byte>, i: nat, j: nat)
    requires Meanings(ts).Some?
    ensures TokensMatch(ts, d, i, j) <==> Matches(Meanings(ts).value, d, i, j)
  {
    hide Meaning, ItemMatches;
    if ts != [] {
      var items := Meanings(ts).value;
      assert items[0] == Meaning(ts[0]).value && items[1..] == Meanings(ts[1..]).value;
      forall k: nat ensures TokensMatch(ts[1..], d, k, j) <==> Matches(items[1..], d, k, j) {
        TokensMatchAsItems(ts[1..], d, k, j);
      }
    }
  }

  /** A compiled pattern matches a stretch of bytes just when its tokens match it piece by piece. */
  lemma {:induction false} CompiledMatchesTokens(pattern: string, d: seq<byte>, i: nat, j: nat)
    requires BuildRegex(pattern).Some?
    ensures var ts, items := Tokenized(pattern).value, ParseRegex(BuildRegex(pattern).value);
            AllSayable(ts) ==> items.Some? && (Matches(items.value, d, i, j) <==> TokensMatch(ts, d, i, j))
  {
    var ts := Tokenized(pattern).value;
    CompiledMeansTokens(pattern);
    hide *;
    if Meanings(ts).Some? {
      TokensMatchAsItems(ts, d, i, j);
    }
  }

  /** The language of two patterns side by side is the concatenation of their languages. */
  lemma {:induction false} MatchesConcat(xs: seq<Item>, ys: seq<Item>, d: seq<byte>, i: nat, j: nat)
    ensures Matches(xs + ys, d, i, j) <==> exists k: nat :: Matches(xs, d, i, k) && Matches(ys, d, k, j)
  {
    hide ItemMatches;
    if xs == [] {
      assert xs + ys == ys;
      if Matches(ys, d, i, j) {
        MatchesWithin(ys, d, i, j);
        assert Matches(xs, d, i, i);
      }
    } else {
      var more := xs[1..];
      assert (xs + ys)[1..] == more + ys && (xs + ys)[0] == xs[0];
      if Matches(xs + ys, d, i, j) {
        var m: nat :| ItemMatches(xs[0], d, i, m) && Matches(more + ys, d, m, j);
        MatchesConcat(more, ys, d, m, j);
        var k: nat :| Matches(more, d, m, k) && Matches(ys, d, k, j);
        assert Matches(xs, d, i, k);
      }
      if k: nat :| Matches(xs, d, i, k) && Matches(ys, d, k, j) {
        var m: nat :| ItemMatches(xs[0], d, i, m) && Matches(more, d, m, k);
        assert Matches(more, d, m, k) && Matches(ys, d, k, j);
        MatchesConcat(more, ys, d, m, j);
        assert Matches(more + ys, d, m, j);
        MatchesFirst(xs + ys, d, i, m, j);
      }
    }
  }

  lemma {:induction false} MatchesFirst(items: seq<Item>, d: seq<byte>, i: nat, m: nat, j: nat)
    requires items != [] && ItemMatches(items[0], d, i, m) && Matches(items[1..], d, m, j)
    ensures Matches(items, d, i, j)
  {
  }

  lemma {:induction false} TimesWithin(a: Atom, n: nat, d: seq<byte>, i: nat, j: nat)
    requires Times(a, n, d, i, j)
    ensures i <= j <= |d|
  {
    if n > 0 {
      var k: nat :| AtomMatches(a, d, i, k) && Times(a, n - 1, d, k, j);
      TimesWithin(a, n - 1, d, k, j);
    }
  }

  lemma {:induction false} MatchesWithin(items: seq<Item>, d: seq<byte>, i: nat, j: nat)
    requires Matches(items, d, i, j)
    ensures i <= j <= |d|
  {
    if items != [] {
      var k: nat :| ItemMatches(items[0], d, i, k) && Matches(items[1..], d, k, j);
      var n: nat :| Times(items[0].atom, n, d, i, k);
      TimesWithin(items[0].atom, n, d, i, k);
      MatchesWithin(items[1..], d, k, j);
    }
  }

  /** `.{N,M}` matches any stretch of between N and M bytes. */
  lemma {:induction false} AnyTimes(n: nat, d: seq<byte>, i: nat, j: nat)
    ensures Times(Any, n, d, i, j) <==> j == i + n <= |d|
  {
    if n > 0 {
      var m := n - 1;
      forall k: nat ensures Times(Any, m, d, k, j) <==> j == k + m <= |d| {
        AnyTimes(m, d, k, j);
      }
      assert AtomMatches(Any, d, i, i + 1) <==> i < |d|;
    }
  }

  // ---- where it fails ----

  lemma TwoClasses()
    ensures Tokenized("[zz] [AB]") == Some(["[zz]", "[AB]"])
  {
    ClassToken("[zz]");
    ClassToken("[AB]");
    TwoJoined();
    hide Canonical, Tokens, Strip, Join;
    JoinReread(["[zz]", "[AB]"]);
  }

  lemma TwoJoined()
    ensures Join(["[zz]", "[AB]"]) == "[zz] [AB]" && Strip("[zz] [AB]") == "[zz] [AB]"
  {
    StripId("[zz] [AB]");
    hide Strip;
    assert ["[zz]", "[AB]"][1..] == ["[AB]"];
  }

  lemma {:induction false} ClassToken(t: string)
    requires |t| == 4 && t[0] == '[' && t[1] != ']' && t[2] != ']' && t[3] == ']'
    ensures Canonical(t)
  {
    IndexIs(t, ']', 3);
    assert t[..4] == t && t[4..] == [];
    hide IndexOf;
    assert QuantifierAt([]) == None;
    TokenIsCanonical(t);
  }

  lemma {:induction false} ListOf(inner: string)
    requires '-' !in inner
    ensures TokenToRegex(['['] + inner + [']']) == Some(['['] + Escapes(HexPairs(inner)) + [']'])
  {
    var t := ['['] + inner + [']'];
    assert t[1..|t| - 1] == inner;
    assert IndexOf(inner, '-') == |inner|;
    hide HexPairs, Escapes, IndexOf;
  }

  /** A class with no hex pair becomes `[]`, whose bracket takes in the next token. */
  lemma EmptyClassCapturesNeighbour()
    ensures BuildRegex("[zz] [AB]") == Some("[][\\xAB]")
    ensures ParseRegex("[][\\xAB]") == Some([Once(Class([Span(93, 93), Span(91, 91), Span(171, 171)]))])
  {
    TwoClasses();
    CapturedText();
    CapturedClass();
  }

  lemma CapturedText()
    ensures Build(["[zz]", "[AB]"]) == Some("[][\\xAB]")
  {
    ListOf("zz");
    ListOf("AB");
    assert HexPairs("zz") == [] && HexPairs("AB") == [171] by {
      assert "AB"[..2] == "AB" && "AB"[2..] == "";
    }
    assert ['['] + "zz" + [']'] == "[zz]" && ['['] + "AB" + [']'] == "[AB]";
    assert Escapes([171]) == "\\xAB" && Escapes([]) == "";
    assert Build([]) == Some("");
    assert ['['] + "\\xAB" + [']'] == "[\\xAB]" && ['['] + "" + [']'] == "[]" && "[]" + "[\\xAB]" == "[][\\xAB]";
    assert "[\\xAB]" + "" == "[\\xAB]" && ["[AB]"][1..] == [] && ["[zz]", "[AB]"][1..] == ["[AB]"];
    hide HexPairs, Escapes, TokenToRegex;
    assert TokenToRegex("[AB]") == Some("[\\xAB]") && TokenToRegex("[zz]") == Some("[]");
    assert Build(["[AB]"]) == Some("[\\xAB]");
  }

  lemma {:induction false} PlainMember(c: char, r: string)
    requires c != '\\'
    ensures ReadMember([c] + r) == Some((Code(c), r))
  {
    assert ([c] + r)[1..] == r;
  }

  lemma CapturedClass()
    ensures ParseRegex("[][\\xAB]") == Some([Once(Class([Span(93, 93), Span(91, 91), Span(171, 171)]))])
  {
    var s := "[][\\xAB]";
    assert s[1..] == "][\\xAB]" && s[2..] == "[\\xAB]" && s[3..] == "\\xAB]" && s[7..] == "]" && s[8..] == "";
    assert ReadClass("]", false) == Some(([], ""));
    EscapeReads(171, "]");
    assert HexEscape(171) + "]" == "\\xAB]";
    assert [Span(171, 171)] + [] == [Span(171, 171)];
    hide ReadMember;
    assert ReadClass("\\xAB]", false) == Some(([Span(171, 171)], ""));
    PlainMember('[', "\\xAB]");
    PlainMember(']', "[\\xAB]");
    assert ['['] + "\\xAB]" == "[\\xAB]" && [']'] + "[\\xAB]" == "][\\xAB]";
    assert [Span(91, 91)] + [Span(171, 171)] == [Span(91, 91), Span(171, 171)];
    assert [Span(93, 93)] + [Span(91, 91), Span(171, 171)] == [Span(93, 93), Span(91, 91), Span(171, 171)];
    assert ReadClass("[\\xAB]", false) == Some(([Span(91, 91), Span(171, 171)], ""));
    assert ReadClass("][\\xAB]", true) == Some(([Span(93, 93), Span(91, 91), Span(171, 171)], ""));
    assert ParseRegex("") == Some([]);
    hide ReadClass, ParseRegex;
    assert ReadItem(s) == Some((Once(Class([Span(93, 93), Span(91, 91), Span(171, 171)])), ""));
    ParseStep(s, ReadItem(s).value.0, "");
    assert [ReadItem(s).value.0] + [] == [ReadItem(s).value.0];
  }

  // ---- the loops ----

  method BuildLoop(tokens: seq<string>) returns (result: Option<string>)
    ensures result == Build(tokens)
  {
    hide TokenToRegex;
    var text: string := [];
    var k := 0;
    assert tokens[0..] == tokens;
    OntoNothing(Build(tokens));
    while k < |tokens|
      invariant 0 <= k <= |tokens|
      invariant Build(tokens) == Onto(text, Build(tokens[k..]))
    {
      assert tokens[k..][0] == tokens[k] && tokens[k..][1..] == tokens[k + 1..];
      var x := TokenToRegex(tokens[k]);
      if x.None? {
        return None;
      }
      OntoMore(text, x.value, Build(tokens[k + 1..]));
      text, k := text + x.value, k + 1;
    }
    assert text + [] == text;
    return Some(text);
  }

  /** The scan of a class that keeps hex pairs and steps over everything else. */
  method ListBytes(inner: string) returns (vs: seq<nat>)
    ensures vs == HexPairs(inner)
  {
    vs := [];
    var j: nat := 0;
    while j < |inner|
      invariant j <= |inner|
      invariant HexPairs(inner) == vs + HexPairs(inner[j..])
    {
      if j + 2 <= |inner| && IsHex(inner[j]) && IsHex(inner[j + 1]) {
        assert inner[j..][..2] == inner[j..j + 2] && inner[j..][2..] == inner[j + 2..];
        vs, j := vs + [PairValue(inner[j..j + 2])], j + 2;
      } else {
        assert inner[j..][1..] == inner[j + 1..];
        j := j + 1;
      }
    }
  }
}

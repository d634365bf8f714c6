/** Reading integers as Python's `int` does, and printing them in decimal. */
module PyNumbers {
  import opened Options
  import opened Text

  /** Value of a digit in any base up to 36; 36 when it is none. */
  function Digit(c: char): nat {
    if '0' <= c <= '9' then c as int - '0' as int
    else if 'a' <= c <= 'z' then c as int - 'a' as int + 10
    else if 'A' <= c <= 'Z' then c as int - 'A' as int + 10
    else 36
  }

  /** Digits of one base, a single underscore allowed between two of them. */
  function Digits(s: string, base: nat): Option<nat>
    decreases |s|
  {
    if s == [] || Digit(s[|s| - 1]) >= base then None
    else if |s| == 1 then Some(Digit(s[0]))
    else
      var front := s[..|s| - 1];
      var more := if front[|front| - 1] == '_' then front[..|front| - 1] else front;
      match Digits(more, base)
      case None => None
      case Some(v) => Some(v * base + Digit(s[|s| - 1]))
  }

  function AfterPrefix(s: string): string {
    if s != [] && s[0] == '_' then s[1..] else s
  }

  /** Digits whose base the text says: `0x`, `0o`, `0b`, or decimal without leading zeros. */
  function PrefixedDigits(s: string): Option<nat> {
    if |s| >= 2 && s[0] == '0' && (s[1] == 'x' || s[1] == 'X') then Digits(AfterPrefix(s[2..]), 16)
    else if |s| >= 2 && s[0] == '0' && (s[1] == 'o' || s[1] == 'O') then Digits(AfterPrefix(s[2..]), 8)
    else if |s| >= 2 && s[0] == '0' && (s[1] == 'b' || s[1] == 'B') then Digits(AfterPrefix(s[2..]), 2)
    else match Digits(s, 10)
      case None => None
      case Some(v) => if s[0] == '0' && v != 0 then None else Some(v)
  }

  /** `int(s, 0)` when the text may name its base, `int(s)` when it may not. */
  function ParseInt(s: string, named: bool): Option<int> {
    var t := Strip(s);
    var u := if t != [] && (t[0] == '-' || t[0] == '+') then t[1..] else t;
    match (if named then PrefixedDigits(u) else Digits(u, 10))
    case None => None
    case Some(v) =>
      var n: int := if t[0] == '-' then -(v as int) else v;
      Some(n)
  }

  function DigitText(v: nat): char
    requires v < 10
  {
    ('0' as int + v) as char
  }

  function NatText(n: nat): (s: string)
    ensures s != []
  {
    if n < 10 then [DigitText(n)] else NatText(n / 10) + [DigitText(n % 10)]
  }

  function IntText(n: int): string {
    if n < 0 then ['-'] + NatText(-n) else NatText(n)
  }

  // ---- printing and reading undo each other ----

  lemma {:induction false} DigitOfText(v: nat)
    requires v < 10
    ensures Digit(DigitText(v)) == v && DigitText(v) != '_' && !IsSpace(DigitText(v))
    ensures DigitText(v) != '-' && DigitText(v) != '+' && (DigitText(v) == '0' ==> v == 0)
  {
  }

  lemma {:induction false} NatTextEnds(n: nat)
    ensures var s := NatText(n);
            && !IsSpace(s[0]) && !IsSpace(s[|s| - 1]) && s[|s| - 1] != '_' && s[0] != '-' && s[0] != '+'
            && (s[0] == '0' ==> s == "0" && n == 0)
  {
    hide DigitText, IsSpace;
    DigitOfText(n % 10);
    if n < 10 {
      DigitOfText(n);
    } else {
      NatTextEnds(n / 10);
    }
  }

  lemma {:induction false} NatTextReads(n: nat)
    ensures Digits(NatText(n), 10) == Some(n)
  {
    hide DigitText, IsSpace;
    if n < 10 {
      DigitOfText(n);
    } else {
      DigitOfText(n % 10);
      NatTextReads(n / 10);
      NatTextEnds(n / 10);
      var front := NatText(n / 10);
      assert NatText(n)[..|front|] == front;
    }
  }

  lemma {:induction false} PrefixedReads(n: nat)
    ensures PrefixedDigits(NatText(n)) == Some(n)
  {
    NatTextReads(n);
    NatTextEnds(n);
    hide Digits, NatText, IsSpace;
  }

  /** A printed integer is read back by both forms of `int`. */
  lemma {:induction false} IntTextReads(n: int, named: bool)
    ensures ParseInt(IntText(n), named) == Some(n)
  {
    var m: nat := if n < 0 then -n else n;
    PrefixedReads(m);
    NatTextReads(m);
    NatTextEnds(m);
    MinusIsNoSpace();
    hide PrefixedDigits, Digits, NatText, IsSpace, Strip;
    StripId(IntText(n));
    if n < 0 {
      assert IntText(n)[1..] == NatText(m);
    }
  }

  lemma MinusIsNoSpace()
    ensures !IsSpace('-')
  {
  }

  /** A text that ends in no decimal digit is no integer without a base prefix. */
  lemma {:induction false} NoDigitNoInt(s: string, named: bool)
    requires s != [] && !IsSpace(s[0]) && !IsSpace(s[|s| - 1]) && 10 <= Digit(s[|s| - 1])
    requires s[0] != '0' && s[0] != '-' && s[0] != '+'
    ensures ParseInt(s, named) == None
  {
    StripId(s);
    hide Strip, IsSpace, Digit;
  }
}

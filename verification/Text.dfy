/** White space as Python sees it. */
module Text {

  /** The characters Python calls white space. */
  predicate IsSpace(c: char) {
    var n := c as int;
    || 9 <= n <= 13 || 28 <= n <= 32 || n == 0x85 || n == 0xA0 || n == 0x1680 || 0x2000 <= n <= 0x200A
    || n == 0x2028 || n == 0x2029 || n == 0x202F || n == 0x205F || n == 0x3000
  }

  /** The code points of those characters. */
  lemma {:induction false} SpacesAre(c: char)
    ensures IsSpace(c) == (c as int in {9, 10, 11, 12, 13, 28, 29, 30, 31, 32, 133, 160, 5760, 8192, 8193, 8194, 8195,
                                        8196, 8197, 8198, 8199, 8200, 8201, 8202, 8232, 8233, 8239, 8287, 12288})
  {
  }

  function SkipSpaces(s: string): (r: string)
    ensures |r| <= |s|
    ensures r != [] ==> !IsSpace(r[0]) && r[|r| - 1] == s[|s| - 1]
  {
    if s != [] && IsSpace(s[0]) then SkipSpaces(s[1..]) else s
  }

  function DropTrailing(s: string): (r: string)
    ensures |r| <= |s|
    ensures r != [] ==> !IsSpace(r[|r| - 1]) && r[0] == s[0]
  {
    if s != [] && IsSpace(s[|s| - 1]) then DropTrailing(s[..|s| - 1]) else s
  }

  function Strip(s: string): string {
    DropTrailing(SkipSpaces(s))
  }

  lemma {:induction false} SkipSpacesReaches(s: string)
    requires s != [] && !IsSpace(s[|s| - 1])
    ensures SkipSpaces(s) != []
  {
    if IsSpace(s[0]) {
      SkipSpacesReaches(s[1..]);
    }
  }

  lemma {:induction false} KeepsEnd(t: string)
    requires t != [] && !IsSpace(t[|t| - 1])
    ensures DropTrailing(t) == t
  {
  }

  lemma {:induction false} StripId(s: string)
    requires s != [] ==> !IsSpace(s[0]) && !IsSpace(s[|s| - 1])
    ensures Strip(s) == s
  {
  }

  lemma {:induction false} StripTwice(s: string)
    ensures Strip(Strip(s)) == Strip(s)
    ensures Strip(s) != [] ==> !IsSpace(Strip(s)[0]) && !IsSpace(Strip(s)[|Strip(s)| - 1])
  {
  }

  // ---- white space around ----

  ghost predicate AllSpace(s: string) {
    forall k :: 0 <= k < |s| ==> IsSpace(s[k])
  }

  lemma {:induction false} SpacesSkipped(a: string, t: string)
    requires AllSpace(a) && (t == [] || !IsSpace(t[0]))
    ensures SkipSpaces(a + t) == t
  {
    hide IsSpace;
    if a == [] {
      assert a + t == t;
    } else {
      assert (a + t)[0] == a[0] && (a + t)[1..] == a[1..] + t;
      SpacesSkipped(a[1..], t);
    }
  }

  lemma {:induction false} SpacesDropped(t: string, b: string)
    requires AllSpace(b) && t != [] && !IsSpace(t[|t| - 1])
    ensures DropTrailing(t + b) == t
    decreases |b|
  {
    hide IsSpace;
    var s := t + b;
    if b == [] {
      assert s == t;
    } else {
      assert s[|s| - 1] == b[|b| - 1] && s[..|s| - 1] == t + b[..|b| - 1];
      SpacesDropped(t, b[..|b| - 1]);
    }
  }

  /** White space at both ends is taken away, and nothing else is. */
  lemma {:induction false} StripsSpaces(a: string, t: string, b: string)
    requires AllSpace(a) && AllSpace(b) && t != [] && !IsSpace(t[0]) && !IsSpace(t[|t| - 1])
    ensures Strip(a + t + b) == t
  {
    hide IsSpace, SkipSpaces, DropTrailing;
    assert (t + b)[0] == t[0] && a + t + b == a + (t + b);
    SpacesSkipped(a, t + b);
    SpacesDropped(t, b);
  }

  lemma {:induction false} SkippedIs(s: string)
    ensures exists gap :: AllSpace(gap) && s == gap + SkipSpaces(s)
  {
    hide IsSpace;
    if s != [] && IsSpace(s[0]) {
      SkippedIs(s[1..]);
      var rest := SkipSpaces(s[1..]);
      var gap :| AllSpace(gap) && s[1..] == gap + rest;
      hide SkipSpaces;
      assert s == [s[0]] + s[1..] == ([s[0]] + gap) + rest && AllSpace([s[0]] + gap);
    } else {
      assert s == [] + SkipSpaces(s) && AllSpace([]);
    }
  }

  lemma {:induction false} DroppedIs(t: string)
    ensures exists b :: AllSpace(b) && t == DropTrailing(t) + b
    decreases |t|
  {
    hide IsSpace;
    if t != [] && IsSpace(t[|t| - 1]) {
      var init := t[..|t| - 1];
      DroppedIs(init);
      var b :| AllSpace(b) && init == DropTrailing(init) + b;
      assert t == DropTrailing(t) + (b + [t[|t| - 1]]) && AllSpace(b + [t[|t| - 1]]);
    } else {
      assert t == DropTrailing(t) + [] && AllSpace([]);
    }
  }

  /** A text is what `strip` leaves of it with white space around. */
  lemma {:induction false} StripSplits(s: string)
    ensures exists a, b :: AllSpace(a) && AllSpace(b) && s == a + Strip(s) + b
  {
    SkippedIs(s);
    DroppedIs(SkipSpaces(s));
    hide AllSpace, SkipSpaces, DropTrailing;
    var a :| AllSpace(a) && s == a + SkipSpaces(s);
    var b :| AllSpace(b) && SkipSpaces(s) == DropTrailing(SkipSpaces(s)) + b;
    assert s == a + Strip(s) + b;
  }
}

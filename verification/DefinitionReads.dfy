/** What the notations of keys and magic values mean once a definition is loaded. */
module DefinitionReads {
  import opened Definition
  import opened DefinitionLoader
  import opened DefinitionRoundTrip
  import opened NumberForms
  import opened Options
  import opened PyNumbers
  import opened Text
  import opened Values

  // ---- tables ----

  /** The value a table has for a number. */
  ghost function Lookup<V>(table: seq<Row<V>>, n: int): Option<V> {
    if table == [] then None else if table[0].key.value == n then Some(table[0].value) else Lookup(table[1..], n)
  }

  /** The value of the last entry whose key is that number. */
  ghost function LastFor<V>(entries: seq<Entry>, n: int, key: Key -> Option<IntKey>, val: Value -> Option<V>): Option<V>
    decreases |entries|
  {
    if entries == [] then None
    else
      var e := entries[|entries| - 1];
      if key(e.key).Some? && key(e.key).value.value == n then val(e.value)
      else LastFor(entries[..|entries| - 1], n, key, val)
  }

  lemma {:induction false} SetRowLooksUp<V>(table: seq<Row<V>>, key: IntKey, value: V, n: int)
    ensures Lookup(SetRow(table, key, value), n) == if n == key.value then Some(value) else Lookup(table, n)
  {
    if table != [] && table[0].key.value != key.value {
      SetRowLooksUp(table[1..], key, value, n);
    }
  }

  lemma {:induction false} FillSnoc<V>(table: seq<Row<V>>, entries: seq<Entry>, e: Entry, key: Key -> Option<IntKey>,
                                       val: Value -> Option<V>)
    ensures Fill(table, entries + [e], key, val) ==
              match Fill(table, entries, key, val)
              case None => None
              case Some(rows) =>
                if key(e.key).None? || val(e.value).None? then None
                else Some(SetRow(rows, key(e.key).value, val(e.value).value))
    decreases |entries|
  {
    hide SetRow;
    if entries == [] {
      assert entries + [e] == [e] && [e][1..] == [];
    } else {
      assert (entries + [e])[0] == entries[0] && (entries + [e])[1..] == entries[1..] + [e];
      if key(entries[0].key).Some? && val(entries[0].value).Some? {
        FillSnoc(SetRow(table, key(entries[0].key).value, val(entries[0].value).value), entries[1..], e, key, val);
      }
    }
  }

  /**
   A table is filled when every key and value can be read, and then holds for each number what the last entry
   with that key says, and nothing for any other number.
   */
  lemma {:induction false} FilledLooksUp<V>(entries: seq<Entry>, key: Key -> Option<IntKey>, val: Value -> Option<V>)
    ensures Fill([], entries, key, val).Some? <==>
              forall k :: 0 <= k < |entries| ==> key(entries[k].key).Some? && val(entries[k].value).Some?
    ensures Fill([], entries, key, val).Some? ==>
              forall n: int :: Lookup(Fill([], entries, key, val).value, n) == LastFor(entries, n, key, val)
    decreases |entries|
  {
    hide SetRow;
    if entries != [] {
      var init, e := entries[..|entries| - 1], entries[|entries| - 1];
      assert entries == init + [e];
      FilledLooksUp(init, key, val);
      FillSnoc([], init, e, key, val);
      if Fill([], entries, key, val).Some? {
        forall n: int
          ensures Lookup(Fill([], entries, key, val).value, n) == LastFor(entries, n, key, val)
        {
          SetRowLooksUp(Fill([], init, key, val).value, key(e.key).value, val(e.value).value, n);
        }
      }
    }
  }

  ghost predicate KeyReads(key: Key -> Option<IntKey>, k: Key, n: int) {
    key(k).Some? && key(k).value.value == n
  }

  /** The last entry whose key is that number stands at `k`. */
  ghost predicate LastAt(entries: seq<Entry>, key: Key -> Option<IntKey>, n: int, k: nat) {
    && k < |entries| && KeyReads(key, entries[k].key, n)
    && forall j :: k < j < |entries| ==> !KeyReads(key, entries[j].key, n)
  }

  lemma {:induction false} LastForIsLast<V>(entries: seq<Entry>, n: int, key: Key -> Option<IntKey>,
                                            val: Value -> Option<V>)
    ensures forall k: nat :: LastAt(entries, key, n, k) ==> LastFor(entries, n, key, val) == val(entries[k].value)
    ensures (forall k: nat :: !LastAt(entries, key, n, k)) ==> LastFor(entries, n, key, val) == None
    decreases |entries|
  {
    if entries != [] {
      var last := |entries| - 1;
      var init := entries[..last];
      LastForIsLast(init, n, key, val);
      if KeyReads(key, entries[last].key, n) {
        assert LastAt(entries, key, n, last);
      } else {
        forall k: nat
          ensures LastAt(entries, key, n, k) <==> LastAt(init, key, n, k)
        {
        }
      }
    }
  }

  // ---- keys that name their base ----

  /** The keys a definition's author writes: digits behind a base prefix, or plain decimal digits. */
  ghost predicate WrittenKey(s: string, n: nat) {
    || (exists ds, caps, base, capital ::
          (base == 16 || base == 8 || base == 2) && ds != [] && |caps| == |ds| && AllBelow(ds, base)
          && s == Prefix(base, capital) + Spelled(ds, caps) && n == PlaceValue(ds, base))
    || (exists ds, caps ::
          ds != [] && |caps| == |ds| && AllBelow(ds, 10) && (ds[0] == 0 ==> PlaceValue(ds, 10) == 0)
          && s == Spelled(ds, caps) && n == PlaceValue(ds, 10))
  }

  lemma {:induction false} WrittenReads(s: string, n: nat)
    requires WrittenKey(s, n)
    ensures ParseInt(s, true) == Some(n)
  {
    hide ParseInt, Spelled, PlaceValue, Prefix;
    if ds, caps, base, capital :|
      (base == 16 || base == 8 || base == 2) && ds != [] && |caps| == |ds| && AllBelow(ds, base)
      && s == Prefix(base, capital) + Spelled(ds, caps) && n == PlaceValue(ds, base)
    {
      NamedBaseReads(ds, caps, base, capital);
    } else {
      var ds, caps :|
        ds != [] && |caps| == |ds| && AllBelow(ds, 10) && (ds[0] == 0 ==> PlaceValue(ds, 10) == 0)
        && s == Spelled(ds, caps) && n == PlaceValue(ds, 10);
      DecimalReads(ds, caps, true);
    }
  }

  /** An enum key in any notation is loaded as the number it writes, here in a definition with one such key. */
  lemma {:induction false} WrittenKeyLoads(s: string, n: nat, name: string, show: Show)
    requires WrittenKey(s, n)
    ensures Load(OneMessage(EnumMessage([Entry(Text(s), Str(name))])), show)
            == Some(Protocol("p", "1.0", "big", [Message("m", "", Both, Match(Always, 0, [], Both, 0),
                      [Field("f", Bytes, None, false, "utf8", Auto, [Row(IntKey(n, false), name)], None, None,
                             None)])]))
  {
    WrittenReads(s, n);
    hide WrittenKey;
    OneLabel(Text(s), IntKey(n, false), name, show);
    EnumLoads([Entry(Text(s), Str(name))], [Row(IntKey(n, false), name)], show);
  }

  lemma {:induction false} OneLabel(key: Key, k: IntKey, name: string, show: Show)
    requires EnumKey(key) == Some(k)
    ensures Fill([], [Entry(key, Str(name))], EnumKey, LabelReader(show)) == Some([Row(k, name)])
  {
    hide EnumKey;
    assert [Entry(key, Str(name))][1..] == [];
  }

  // ---- magic values written as text ----

  /** The words with white space in front of each and at the end. */
  function Spaced(words: seq<string>, gaps: seq<string>, end: string): string
    requires |gaps| == |words|
  {
    if words == [] then end else gaps[0] + words[0] + Spaced(words[1..], gaps[1..], end)
  }

  ghost predicate NoSpace(s: string) {
    s != [] && forall k :: 0 <= k < |s| ==> !IsSpace(s[k])
  }

  function Texts(words: seq<string>): seq<Value> {
    if words == [] then [] else [Str(words[0])] + Texts(words[1..])
  }

  lemma {:induction false} WordEnds(w: string, rest: string)
    requires NoSpace(w) && (rest == [] || IsSpace(rest[0]))
    ensures WordLength(w + rest) == |w|
    decreases |w|
  {
    hide IsSpace;
    assert (w + rest)[0] == w[0] && (w + rest)[1..] == w[1..] + rest;
    if |w| == 1 {
      assert w[1..] + rest == rest;
    } else {
      WordEnds(w[1..], rest);
    }
  }

  /** Words with white space between them are split into just those words. */
  lemma {:induction false} WordsSplit(words: seq<string>, gaps: seq<string>, end: string)
    requires |gaps| == |words| && AllSpace(end)
    requires forall k :: 0 <= k < |words| ==> NoSpace(words[k]) && AllSpace(gaps[k]) && (k > 0 ==> gaps[k] != [])
    ensures Words(Spaced(words, gaps, end)) == Texts(words)
    decreases |words|
  {
    hide IsSpace, WordLength, SkipSpaces;
    var s := Spaced(words, gaps, end);
    if words == [] {
      SpacesSkipped(end, []);
      assert end + [] == end;
    } else {
      var rest := Spaced(words[1..], gaps[1..], end);
      assert s == gaps[0] + (words[0] + rest) && (words[0] + rest)[0] == words[0][0];
      SpacesSkipped(gaps[0], words[0] + rest);
      if |words| > 1 {
        assert rest[0] == gaps[1][0];
      }
      WordEnds(words[0], rest);
      assert (words[0] + rest)[..|words[0]|] == words[0] && (words[0] + rest)[|words[0]|..] == rest;
      WordsSplit(words[1..], gaps[1..], end);
    }
  }

  lemma {:induction false} TextBytes(words: seq<string>, bytes: seq<nat>)
    requires |bytes| == |words| && forall k :: 0 <= k < |words| ==> WrittenKey(words[k], bytes[k]) && bytes[k] < 256
    ensures MagicBytes(Texts(words)) == Some(bytes)
    decreases |words|
  {
    hide MagicBytes, WrittenKey, ParseInt;
    if words == [] {
      NoMagicBytes();
    } else {
      TextBytes(words[1..], bytes[1..]);
      WrittenReads(words[0], bytes[0]);
      MagicBytesCons(Str(words[0]), Texts(words[1..]));
      assert bytes == [bytes[0]] + bytes[1..];
    }
  }

  /** A magic text of byte-sized words, each in any notation and however spaced, is loaded as those bytes. */
  lemma {:induction false} MagicTextLoads(words: seq<string>, gaps: seq<string>, end: string, bytes: seq<nat>,
                                          show: Show)
    requires |gaps| == |words| == |bytes| && AllSpace(end)
    requires forall k :: 0 <= k < |words| ==> NoSpace(words[k]) && AllSpace(gaps[k]) && (k > 0 ==> gaps[k] != [])
    requires forall k :: 0 <= k < |words| ==> WrittenKey(words[k], bytes[k]) && bytes[k] < 256
    ensures Load(OneMessage(MagicMessage(Str(Spaced(words, gaps, end)))), show)
            == Some(Protocol("p", "1.0", "big", [Message("m", "", Both, Match(Magic, 0, bytes, Both, 0), [])]))
  {
    var text := Spaced(words, gaps, end);
    WordsSplit(words, gaps, end);
    TextBytes(words, bytes);
    hide *;
    TextIsMagic(text, Texts(words), bytes);
    MagicLoads(Str(text), bytes, show);
  }

  lemma {:induction false} TextIsMagic(text: string, vs: seq<Value>, bytes: seq<int>)
    requires Words(text) == vs && MagicBytes(vs) == Some(bytes)
    ensures MagicValue(Str(text)) == Some(bytes) && !Str(text).Null?
  {
  }

  // ---- numbers that are no texts ----

  /** A real number is cut towards zero. */
  lemma {:induction false} CutTowardsZero(x: real)
    ensures x >= 0.0 ==> Trunc(x) >= 0 && Trunc(x) as real <= x < Trunc(x) as real + 1.0
    ensures x <= 0.0 ==> Trunc(x) <= 0 && Trunc(x) as real >= x > Trunc(x) as real - 1.0
  {
  }
}

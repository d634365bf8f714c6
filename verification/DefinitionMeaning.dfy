/**
 What a parsed YAML or JSON value says about a protocol, key by key, without regard to how it is read; the loader
 returns a definition exactly when the value says it.
 */
module DefinitionMeaning {
  import opened Definition
  import opened DefinitionLoader
  import opened DefinitionNotation
  import opened DefinitionPrinter
  import opened DefinitionReads
  import opened DefinitionRoundTrip
  import opened Options
  import opened PyNumbers
  import opened Values

  // ---- values under a key ----

  ghost predicate Shows(v: Value, text: string, show: Show) {
    match v
    case Null => text == "None"
    case Bool(b) => text == if b then "True" else "False"
    case Int(n) => text == IntText(n)
    case Str(s) => text == s
    case _ => text == show(v)
  }

  /** What the key holds, unless it is missing or `None`. */
  function Held(d: Value, key: string): Option<Value>
    requires d.Dict?
  {
    match Get(d, key) { case Some(v) => if v == Null then None else Some(v) case None => None }
  }

  ghost predicate TextAt(d: Value, key: string, fallback: Option<string>, text: string, show: Show)
    requires d.Dict?
  {
    match Held(d, key)
    case None => fallback == Some(text)
    case Some(v) => Shows(v, text, show)
  }

  ghost predicate NumberOf(v: Value, n: int) {
    match v
    case Bool(b) => n == if b then 1 else 0
    case Int(k) => n == k
    case Real(x) => n == Trunc(x)
    case Str(s) => ParseInt(s, false) == Some(n)
    case _ => false
  }

  ghost predicate NumberAt(d: Value, key: string, fallback: int, n: int)
    requires d.Dict?
  {
    match Get(d, key) { case None => n == fallback case Some(v) => NumberOf(v, n) }
  }

  /** A word under a key, in any mixture of capitals; without the key it is the fallback. */
  ghost predicate WordAt(d: Value, key: string, fallback: string, word: string)
    requires d.Dict?
  {
    match Get(d, key) { case None => word == fallback case Some(v) => v.Str? && Respelled(v.s, word) }
  }

  ghost predicate DisplayAt(d: Value, display: Display)
    requires d.Dict?
  {
    || (exists word :: word in DISPLAY_WORDS && WordAt(d, "display", "auto", word) && display == DISPLAY_WORDS[word])
    || (display == Auto && Get(d, "display").Some? && Get(d, "display").value.Str?
        && forall word :: word in DISPLAY_WORDS ==> !WordAt(d, "display", "auto", word))
  }

  ghost predicate DirectionSays(v: Value, direction: Direction, show: Show) {
    if v == Null then direction == Both
    else exists text, word ::
           Shows(v, text, show) && Hyphenated(text, word) && word in DIRECTION_WORDS
           && direction == DIRECTION_WORDS[word]
  }

  ghost predicate DirectionAt(d: Value, direction: Direction, show: Show)
    requires d.Dict?
  {
    match Get(d, "direction") { case None => direction == Both case Some(v) => DirectionSays(v, direction, show) }
  }

  // ---- magic values ----

  /** A byte: an integer of that size, or text that names its base. */
  ghost predicate ByteSays(v: Value, b: int) {
    && 0 <= b < 256
    && match v
       case Bool(x) => b == if x then 1 else 0
       case Int(n) => b == n
       case Str(s) => ParseInt(s, true) == Some(b)
       case _ => false
  }

  ghost predicate BytesSay(vs: seq<Value>, bytes: seq<int>) {
    |vs| == |bytes| && forall k :: 0 <= k < |vs| ==> ByteSays(vs[k], bytes[k])
  }

  ghost predicate MagicSays(v: Value, bytes: seq<int>) {
    match v
    case Bool(b) => bytes == [if b then 1 else 0]
    case Int(n) => bytes == [n]
    case List(items) => BytesSay(items, bytes)
    case Str(s) => BytesSay(Words(s), bytes)
    case _ => false
  }

  ghost predicate MatchSays(d: Value, m: Match, show: Show) {
    && d.Dict?
    && (exists word :: word in KIND_WORDS && WordAt(d, "type", "always", word) && m.kind == KIND_WORDS[word])
    && match m.kind
       case Magic =>
         && NumberAt(d, "offset", 0, m.offset) && Held(d, "value").Some? && MagicSays(Held(d, "value").value, m.value)
         && m.direction == Both && m.index == 0
       case Sequence =>
         && DirectionAt(d, m.direction, show) && NumberAt(d, "index", 0, m.index)
         && m.offset == 0 && m.value == []
       case Always => m == Match(Always, 0, [], Both, 0)
  }

  // ---- tags, tables and fields ----

  ghost predicate TagSays(d: Value, t: Tag, show: Show) {
    && d.Dict?
    && TextAt(d, "name", None, t.name, show)
    && (exists word :: WordAt(d, "value_type", "bytes", word) && NoCapitals(word)
                       && t.valueType == if word in TYPE_WORDS then TYPE_WORDS[word] else Bytes)
    && TextAt(d, "encoding", Some("utf8"), t.encoding, show)
    && DisplayAt(d, t.display)
  }

  /** The endianness word without its capitals. */
  ghost predicate OrderAt(d: Value, order: string, show: Show)
    requires d.Dict?
  {
    exists text :: TextAt(d, "endianness", Some("big"), text, show) && Respelled(text, order) && NoCapitals(order)
  }

  /** The entries under a key that a dictionary holds; anything else holds none. */
  function EntriesAt(d: Value, key: string): seq<Entry>
    requires d.Dict?
  {
    match Get(d, key) { case Some(Dict(entries)) => entries case _ => [] }
  }

  ghost predicate TlvSays(v: Option<Value>, t: Tlv, show: Show) {
    if v.None? || v == Some(Null) then t == Tlv(1, 2, "big", [])
    else
      var d := v.value;
      && d.Dict?
      && NumberAt(d, "type_size", 1, t.typeSize) && t.typeSize in {1, 2, 4}
      && NumberAt(d, "length_size", 2, t.lengthSize) && t.lengthSize in {1, 2, 4}
      && OrderAt(d, t.endianness, show)
      && Fill([], EntriesAt(d, "tags"), EnumKey, TagReader(show)) == Some(t.tags)
  }

  ghost predicate BitsSay(v: Option<Value>, bits: seq<Row<string>>, show: Show) {
    if v.None? || v == Some(Null) then bits == []
    else v.value.Dict? && Fill([], v.value.entries, BitKey, LabelReader(show)) == Some(bits)
  }

  ghost predicate KindAt(d: Value, kind: FieldType)
    requires d.Dict?
  {
    match Get(d, "type")
    case None => kind == Bytes
    case Some(v) => v.Str? && exists word :: word in TYPE_WORDS && Hyphenated(v.s, word) && kind == TYPE_WORDS[word]
  }

  ghost predicate LengthAt(d: Value, length: Option<string>, show: Show)
    requires d.Dict?
  {
    match Held(d, "length") { case None => length == None case Some(v) => length.Some? && Shows(v, length.value, show) }
  }

  /** Some value that Python does not take for false. */
  ghost predicate TrueAt(d: Value, key: string)
    requires d.Dict?
  {
    Get(d, key).Some? && Get(d, key).value !in {Null, Bool(false), Int(0), Real(0.0), Str(""), List([]), Dict([])}
  }

  /** All that a field is besides the fields inside it. */
  ghost predicate PlainSays(d: Value, f: Field, show: Show) {
    && d.Dict?
    && TextAt(d, "name", None, f.name, show)
    && KindAt(d, f.kind)
    && LengthAt(d, f.length, show)
    && f.nullTerminated == TrueAt(d, "null_terminated")
    && TextAt(d, "encoding", Some("utf8"), f.encoding, show)
    && DisplayAt(d, f.display)
    && Fill([], EntriesAt(d, "enum"), EnumKey, LabelReader(show)) == Some(f.labels)
    && (if f.kind == TlvSequence then f.tlv.Some? && TlvSays(Get(d, "tlv"), f.tlv.value, show) else f.tlv == None)
    && (if f.kind == Bitfield then f.bits.Some? && BitsSay(Get(d, "bits"), f.bits.value, show) else f.bits == None)
  }

  ghost predicate FieldSays(d: Value, f: Field, show: Show)
    decreases f, 0
  {
    && PlainSays(d, f, show)
    && if f.kind == Array
       then f.arrayOf.Some? && Get(d, "array").Some? && ArraySays(Get(d, "array").value, f.arrayOf.value, show)
       else f.arrayOf == None
  }

  ghost predicate ArraySays(d: Value, a: ArrayConfig, show: Show)
    decreases a, 0
  {
    && d.Dict? && TextAt(d, "count", None, a.count, show)
    && match Get(d, "item") { case None => a.item == [] case Some(v) => v.List? && FieldsSay(v.items, a.item, show) }
  }

  ghost predicate FieldsSay(vs: seq<Value>, fs: seq<Field>, show: Show)
    decreases fs, 1
  {
    |vs| == |fs| && forall k :: 0 <= k < |fs| ==> FieldSays(vs[k], fs[k], show)
  }

  // ---- messages and protocols ----

  /** The items of the list under a key, none without the key. */
  ghost predicate ItemsAt(d: Value, key: string, items: seq<Value>)
    requires d.Dict?
  {
    match Get(d, key) { case None => items == [] case Some(v) => v.List? && items == v.items }
  }

  ghost predicate MessageSays(d: Value, m: Message, show: Show) {
    && d.Dict?
    && TextAt(d, "name", None, m.name, show)
    && TextAt(d, "description", Some(""), m.description, show)
    && DirectionAt(d, m.direction, show)
    && (match Get(d, "match")
        case None => m.rule == Match(Always, 0, [], Both, 0)
        case Some(v) => MatchSays(v, m.rule, show))
    && (exists items :: ItemsAt(d, "fields", items) && FieldsSay(items, m.fields, show))
  }

  ghost predicate MessagesSay(vs: seq<Value>, ms: seq<Message>, show: Show) {
    |vs| == |ms| && forall k :: 0 <= k < |ms| ==> MessageSays(vs[k], ms[k], show)
  }

  ghost predicate ProtocolSays(d: Value, p: Protocol, show: Show)
    requires d.Dict?
  {
    && TextAt(d, "name", None, p.name, show)
    && TextAt(d, "version", Some("1.0"), p.version, show)
    && OrderAt(d, p.endianness, show) && p.endianness in {"big", "little"}
    && (exists items :: ItemsAt(d, "messages", items) && MessagesSay(items, p.messages, show))
  }

  /** The protocol itself, or a dictionary with the protocol under the key `protocol`. */
  ghost predicate Says(raw: Value, p: Protocol, show: Show) {
    && raw.Dict?
    && if Get(raw, "protocol").Some? && Get(raw, "protocol").value.Dict?
       then ProtocolSays(Get(raw, "protocol").value, p, show)
       else ProtocolSays(raw, p, show)
  }

  // ---- keys ----

  /** The number an enum or tag key stands for, and whether the key is a truth value. */
  ghost predicate KeySays(key: Key, k: IntKey) {
    match key
    case Number(n) => k == IntKey(n, false)
    case Flag(b) => k == IntKey(if b then 1 else 0, true)
    case Text(s) => ParseInt(s, true) == Some(k.value) && !k.flag
    case _ => false
  }

  /** The number a bit index stands for: whatever Python's `int` takes. */
  ghost predicate BitKeySays(key: Key, k: IntKey) {
    && !k.flag
    && match key
       case Number(n) => k.value == n
       case Flag(b) => k.value == if b then 1 else 0
       case Fraction(x) => k.value == Trunc(x)
       case Text(s) => ParseInt(s, false) == Some(k.value)
       case Missing => false
  }

  /** A table takes no other keys, and takes these as those numbers. */
  lemma {:induction false} KeysSayIff(key: Key, k: IntKey)
    ensures KeySays(key, k) <==> EnumKey(key) == Some(k)
    ensures BitKeySays(key, k) <==> BitKey(key) == Some(k)
  {
    hide ParseInt, Trunc;
  }

  // ---- tables ----

  /** The last entry whose key is that number, in an enum or tag table or in one of bit names, stands at `k`. */
  ghost predicate LastKey(entries: seq<Entry>, bits: bool, n: int, k: nat) {
    k < |entries| && KeyIs(entries[k].key, bits, n) && forall j :: k < j < |entries| ==> !KeyIs(entries[j].key, bits, n)
  }

  ghost predicate KeyIs(key: Key, bits: bool, n: int) {
    exists flag :: if bits then BitKeySays(key, IntKey(n, flag)) else KeySays(key, IntKey(n, flag))
  }

  function Reader(bits: bool): Key -> Option<IntKey> {
    if bits then BitKey else EnumKey
  }

  lemma {:induction false} KeyIsRead(key: Key, bits: bool, n: int)
    ensures KeyIs(key, bits, n) <==> KeyReads(Reader(bits), key, n)
  {
    hide KeySays, BitKeySays, EnumKey, BitKey;
    forall flag
      ensures (if bits then BitKeySays(key, IntKey(n, flag)) else KeySays(key, IntKey(n, flag)))
              <==> Reader(bits)(key) == Some(IntKey(n, flag))
    {
      KeysSayIff(key, IntKey(n, flag));
    }
    if KeyReads(Reader(bits), key, n) {
      assert Reader(bits)(key) == Some(IntKey(n, Reader(bits)(key).value.flag));
    }
  }

  lemma {:induction false} LastKeyIsLast(entries: seq<Entry>, bits: bool, n: int, k: nat)
    ensures LastKey(entries, bits, n, k) <==> LastAt(entries, Reader(bits), n, k)
  {
    hide KeyIs, KeyReads, Reader;
    forall j | 0 <= j < |entries|
      ensures KeyIs(entries[j].key, bits, n) <==> KeyReads(Reader(bits), entries[j].key, n)
    {
      KeyIsRead(entries[j].key, bits, n);
    }
  }

  /** A filled table holds for each number what the last entry with that key says, and nothing for other numbers. */
  lemma {:induction false} TableMeans<V>(entries: seq<Entry>, bits: bool, val: Value -> Option<V>, table: seq<Row<V>>,
                                         n: int)
    requires Fill([], entries, Reader(bits), val) == Some(table)
    ensures forall k: nat :: LastKey(entries, bits, n, k) ==> Lookup(table, n) == val(entries[k].value)
    ensures (forall k: nat :: !LastKey(entries, bits, n, k)) ==> Lookup(table, n) == None
  {
    hide LastKey, LastAt, Fill, Reader;
    FilledLooksUp(entries, Reader(bits), val);
    LastForIsLast(entries, n, Reader(bits), val);
    forall k: nat
      ensures LastKey(entries, bits, n, k) <==> LastAt(entries, Reader(bits), n, k)
    {
      LastKeyIsLast(entries, bits, n, k);
    }
  }

  /**
   What the tables of a definition say: every key is one, and each number has the label, the bit name or the tag
   of the last entry with that key.
   */
  lemma {:induction false} TablesSay(entries: seq<Entry>, labels: seq<Row<string>>, bits: seq<Row<string>>,
                                     tags: seq<Row<Tag>>, show: Show, n: int, k: nat)
    ensures Fill([], entries, EnumKey, LabelReader(show)) == Some(labels) && LastKey(entries, false, n, k) ==>
              Lookup(labels, n).Some? && Shows(entries[k].value, Lookup(labels, n).value, show)
    ensures Fill([], entries, BitKey, LabelReader(show)) == Some(bits) && LastKey(entries, true, n, k) ==>
              Lookup(bits, n).Some? && Shows(entries[k].value, Lookup(bits, n).value, show)
    ensures Fill([], entries, EnumKey, TagReader(show)) == Some(tags) && LastKey(entries, false, n, k) ==>
              Lookup(tags, n).Some? && TagSays(entries[k].value, Lookup(tags, n).value, show)
  {
    hide LastKey, EnumKey, BitKey, PyStr, ParseTag, Shows, TagSays, Fill;
    if LastKey(entries, false, n, k) {
      InsideTable(entries, false, n, k);
      if Fill([], entries, EnumKey, LabelReader(show)) == Some(labels) {
        TableMeans(entries, false, LabelReader(show), labels, n);
        ShowsIff(entries[k].value, PyStr(entries[k].value, show), show);
      }
      if Fill([], entries, EnumKey, TagReader(show)) == Some(tags) {
        TableMeans(entries, false, TagReader(show), tags, n);
        FilledLooksUp(entries, EnumKey, TagReader(show));
        TagSaysIff(entries[k].value, Lookup(tags, n).value, show);
      }
    }
    if LastKey(entries, true, n, k) && Fill([], entries, BitKey, LabelReader(show)) == Some(bits) {
      InsideTable(entries, true, n, k);
      TableMeans(entries, true, LabelReader(show), bits, n);
      ShowsIff(entries[k].value, PyStr(entries[k].value, show), show);
    }
  }

  lemma {:induction false} InsideTable(entries: seq<Entry>, bits: bool, n: int, k: nat)
    requires LastKey(entries, bits, n, k)
    ensures k < |entries|
  {
  }

  // ---- proofs about values ----

  lemma {:induction false} ShowsIff(v: Value, text: string, show: Show)
    ensures Shows(v, text, show) <==> text == PyStr(v, show)
  {
  }

  lemma {:induction false} TextAtIff(d: Value, key: string, fallback: string, text: string, show: Show)
    requires d.Dict?
    ensures TextAt(d, key, Some(fallback), text, show) <==> text == Optional(d, key, fallback, show)
    ensures TextAt(d, key, None, text, show) <==> Required(d, key, show) == Some(text)
  {
    hide Get, PyStr, Shows;
    forall v: Value
      ensures Shows(v, text, show) <==> text == PyStr(v, show)
    {
      ShowsIff(v, text, show);
    }
  }

  lemma {:induction false} NumberAtIff(d: Value, key: string, fallback: int, n: int)
    requires d.Dict?
    ensures NumberAt(d, key, fallback, n) <==> ToInt(GetOr(d, key, Int(fallback))) == Some(n)
  {
    hide Get, ParseInt, Trunc;
  }

  lemma {:induction false} WordAtIff(d: Value, key: string, fallback: string, word: string)
    requires d.Dict? && NoCapitals(word) && NoCapitals(fallback)
    ensures WordAt(d, key, fallback, word) <==> LowerOf(GetOr(d, key, Str(fallback))) == Some(word)
  {
    hide Get, Lower, Respelled, NoCapitals;
    forall s: string
      ensures NoCapitals(word) ==> (Lower(s) == word <==> Respelled(s, word))
    {
      SpellingIsFree(s, word);
    }
    NoCapitalsStay(fallback);
  }

  lemma {:induction false} NoCapitalsStay(s: string)
    requires NoCapitals(s)
    ensures Lower(s) == s
  {
  }

  lemma {:induction false} PlainHasNoCapitals(s: string)
    requires Plain(s)
    ensures NoCapitals(s)
  {
  }

  lemma {:induction false} WordIsPlain(w: string)
    requires w in DISPLAY_WORDS || w in KIND_WORDS || w in DIRECTION_WORDS || w in TYPE_WORDS
    ensures Plain(w) && NoCapitals(w)
  {
    hide TYPE_WORDS, TypeName, Plain, NoCapitals;
    if w in TYPE_WORDS {
      TypeSpellings();
      TypeNamesBack(TYPE_WORDS[w]);
    } else {
      OtherIsPlain(w);
    }
    PlainHasNoCapitals(w);
  }

  lemma {:induction false} OtherIsPlain(w: string)
    requires w in DISPLAY_WORDS || w in KIND_WORDS || w in DIRECTION_WORDS
    ensures Plain(w)
  {
    if w in DISPLAY_WORDS {
      DisplayNameBack(DISPLAY_WORDS[w]);
    } else if w in KIND_WORDS {
      KindNameBack(KIND_WORDS[w]);
    } else {
      DirectionNameBack(DIRECTION_WORDS[w]);
      ShortFormsArePlain();
    }
    hide Plain;
  }

  lemma ShortFormsArePlain()
    ensures Plain("c2s") && Plain("s2c") && Plain("client") && Plain("server")
  {
  }

  lemma {:induction false} DisplayAtIff(d: Value, display: Display)
    requires d.Dict?
    ensures DisplayAt(d, display) <==> ParseDisplay(d) == Some(display)
  {
    hide Get, Lower, NoCapitals, Plain, WordAt, DisplayNamed;
    var given := GetOr(d, "display", Str("auto"));
    assert "auto" in DISPLAY_WORDS && DISPLAY_WORDS["auto"] == Auto;
    OtherWords(if given.Str? then Lower(given.s) else "");
    hide DISPLAY_WORDS;
    WordIsPlain("auto");
    forall word | word in DISPLAY_WORDS
      ensures WordAt(d, "display", "auto", word) <==> LowerOf(given) == Some(word)
    {
      WordIsPlain(word);
      WordAtIff(d, "display", "auto", word);
    }
    if given.Str? {
      NoCapitalsStay("auto");
      var low := Lower(given.s);
      assert low in DISPLAY_WORDS ==> WordAt(d, "display", "auto", low);
    }
  }

  lemma {:induction false} DirectionSaysIff(v: Value, direction: Direction, show: Show)
    ensures DirectionSays(v, direction, show) <==> ParseDirection(v, show) == Some(direction)
  {
    hide Lower, Underscored, PyStr, Shows, Hyphenated, DirectionNamed, Plain, NoCapitals;
    if v != Null {
      var text := PyStr(v, show);
      var word := Underscored(Lower(text));
      OtherWords(word);
      forall w | w in DIRECTION_WORDS
        ensures Hyphenated(text, w) <==> word == w
      {
        WordIsPlain(w);
        SpellingIsFree(text, w);
      }
      hide DIRECTION_WORDS;
      forall t: string
        ensures Shows(v, t, show) <==> t == text
      {
        ShowsIff(v, t, show);
      }
    }
  }

  lemma {:induction false} DirectionAtIff(d: Value, direction: Direction, show: Show)
    requires d.Dict?
    ensures DirectionAt(d, direction, show) <==>
              ParseDirection(GetOr(d, "direction", Str("both")), show) == Some(direction)
  {
    DirectionSaysIff(GetOr(d, "direction", Str("both")), direction, show);
    DirectionNameBack(Both);
    PlainStays("both");
    hide Get, Lower, Underscored, DirectionNamed, DirectionSays;
  }

  lemma {:induction false} ByteSaysIff(v: Value, b: int)
    ensures ByteSays(v, b) <==> MagicByte(v) == Some(b)
  {
    hide ParseInt;
  }

  lemma {:induction false} BytesSayIff(vs: seq<Value>, bytes: seq<int>)
    ensures BytesSay(vs, bytes) <==> MagicBytes(vs) == Some(bytes)
    decreases |vs|
  {
    hide ByteSays, MagicByte;
    if vs == [] {
    } else if bytes != [] {
      ByteSaysIff(vs[0], bytes[0]);
      BytesSayIff(vs[1..], bytes[1..]);
      assert bytes == [bytes[0]] + bytes[1..];
      assert BytesSay(vs, bytes) <==> ByteSays(vs[0], bytes[0]) && BytesSay(vs[1..], bytes[1..]) by {
        assert forall k :: 1 <= k < |vs| ==> vs[k] == vs[1..][k - 1];
        assert forall k :: 1 <= k < |bytes| ==> bytes[k] == bytes[1..][k - 1];
      }
    }
  }

  lemma {:induction false} MagicSaysIff(v: Value, bytes: seq<int>)
    ensures MagicSays(v, bytes) <==> MagicValue(v) == Some(bytes)
  {
    hide BytesSay, MagicBytes, Words;
    match v
    case List(items) => BytesSayIff(items, bytes);
    case Str(s) => BytesSayIff(Words(s), bytes);
    case _ =>
  }

  lemma {:induction false} MatchKindIff(d: Value, kind: MatchKind)
    requires d.Dict?
    ensures (exists word :: word in KIND_WORDS && WordAt(d, "type", "always", word) && kind == KIND_WORDS[word])
            <==> (var name := LowerOf(GetOr(d, "type", Str("always")));
                  name.Some? && KindNamed(name.value) == Some(kind))
  {
    hide Get, Lower, NoCapitals, Plain, WordAt, KindNamed;
    var given := GetOr(d, "type", Str("always"));
    assert "always" in KIND_WORDS;
    OtherWords(if given.Str? then Lower(given.s) else "");
    hide KIND_WORDS;
    WordIsPlain("always");
    forall word | word in KIND_WORDS
      ensures WordAt(d, "type", "always", word) <==> LowerOf(given) == Some(word)
    {
      WordIsPlain(word);
      WordAtIff(d, "type", "always", word);
    }
  }

  lemma {:induction false} MatchSaysIff(d: Value, m: Match, show: Show)
    ensures MatchSays(d, m, show) <==> ParseMatch(d, show) == Some(m)
  {
    hide Get, LowerOf, KindNamed, WordAt, NumberAt, ToInt, MagicSays, MagicValue, DirectionAt, ParseDirection;
    if d.Dict? {
      MatchKindIff(d, m.kind);
      hide KIND_WORDS;
      NumberAtIff(d, "offset", 0, m.offset);
      NumberAtIff(d, "index", 0, m.index);
      DirectionAtIff(d, m.direction, show);
      if Held(d, "value").Some? {
        MagicSaysIff(Held(d, "value").value, m.value);
      }
    }
  }

  lemma {:induction false} TagKindIff(d: Value, kind: FieldType)
    requires d.Dict?
    ensures (exists word :: WordAt(d, "value_type", "bytes", word) && NoCapitals(word)
                            && kind == if word in TYPE_WORDS then TYPE_WORDS[word] else Bytes)
            <==> (var name := LowerOf(GetOr(d, "value_type", Str("bytes")));
                  name.Some? && kind == if TypeNamed(name.value).Some? then TypeNamed(name.value).value else Bytes)
  {
    hide Get, Lower, NoCapitals, Plain, WordAt, TypeNamed;
    var given := GetOr(d, "value_type", Str("bytes"));
    assert "bytes" in TYPE_WORDS;
    var low := if given.Str? then Lower(given.s) else "";
    TypeWords(low);
    hide TYPE_WORDS;
    WordIsPlain("bytes");
    forall word | NoCapitals(word)
      ensures WordAt(d, "value_type", "bytes", word) <==> LowerOf(given) == Some(word)
    {
      WordAtIff(d, "value_type", "bytes", word);
    }
    LowHasNoCapitals(if given.Str? then given.s else "");
    assert given.Str? ==> NoCapitals(low) && WordAt(d, "value_type", "bytes", low);
  }

  lemma {:induction false} LowHasNoCapitals(s: string)
    ensures NoCapitals(Lower(s))
  {
  }

  lemma {:induction false} TagSaysIff(d: Value, t: Tag, show: Show)
    ensures TagSays(d, t, show) <==> ParseTag(d, show) == Some(t)
  {
    hide Get, LowerOf, TypeNamed, WordAt, NoCapitals, TextAt, Required, Optional, DisplayAt, ParseDisplay;
    if d.Dict? {
      TagKindIff(d, t.valueType);
      hide TYPE_WORDS;
      TextAtIff(d, "name", "", t.name, show);
      TextAtIff(d, "encoding", "utf8", t.encoding, show);
      DisplayAtIff(d, t.display);
    }
  }

  lemma {:induction false} OrderAtIff(d: Value, order: string, show: Show)
    requires d.Dict?
    ensures OrderAt(d, order, show) <==> order == Lower(Optional(d, "endianness", "big", show))
  {
    hide TextAt, Optional, Lower, Respelled, NoCapitals;
    var text := Optional(d, "endianness", "big", show);
    SpellingIsFree(text, order);
    forall t: string
      ensures TextAt(d, "endianness", Some("big"), t, show) <==> t == text
    {
      TextAtIff(d, "endianness", "big", t, show);
    }
  }

  lemma {:induction false} TlvSaysIff(v: Option<Value>, t: Tlv, show: Show)
    ensures TlvSays(v, t, show) <==> ParseTlv(v, show) == Some(t)
  {
    hide Get, NumberAt, ToInt, OrderAt, Lower, Optional, Fill, EnumKey;
    if v.Some? && v.value.Dict? {
      var d := v.value;
      NumberAtIff(d, "type_size", 1, t.typeSize);
      NumberAtIff(d, "length_size", 2, t.lengthSize);
      OrderAtIff(d, t.endianness, show);
      EntriesAre(d, "tags");
    }
  }

  lemma {:induction false} EntriesAre(d: Value, key: string)
    requires d.Dict?
    ensures var raw := GetOr(d, key, Dict([])); EntriesAt(d, key) == if raw.Dict? then raw.entries else []
  {
    hide Get;
  }

  lemma {:induction false} BitsSayIff(v: Option<Value>, bits: seq<Row<string>>, show: Show)
    ensures BitsSay(v, bits, show) <==> ParseBits(v, show) == Some(bits)
  {
    hide Fill, BitKey;
  }

  lemma {:induction false} KindAtIff(d: Value, kind: FieldType)
    requires d.Dict?
    ensures KindAt(d, kind) <==> ParseKind(d) == Some(kind)
  {
    hide Get, Lower, Underscored, Hyphenated, NoCapitals, Plain, TypeNamed;
    var given := GetOr(d, "type", Str("bytes"));
    assert "bytes" in TYPE_WORDS && TYPE_WORDS["bytes"] == Bytes;
    WordIsPlain("bytes");
    PlainStays("bytes");
    TypeWords(if given.Str? then Underscored(Lower(given.s)) else "");
    TypeWords("bytes");
    forall word | given.Str? && word in TYPE_WORDS
      ensures Hyphenated(given.s, word) <==> Underscored(Lower(given.s)) == word
    {
      WordIsPlain(word);
      SpellingIsFree(given.s, word);
    }
    hide TYPE_WORDS;
  }

  lemma {:induction false} LengthAtIff(d: Value, length: Option<string>, show: Show)
    requires d.Dict?
    ensures LengthAt(d, length, show) <==> ParseLength(d, show) == length
  {
    hide Get, Shows, PyStr;
    if length.Some? && Held(d, "length").Some? {
      ShowsIff(Held(d, "length").value, length.value, show);
    }
  }

  lemma {:induction false} TrueAtIff(d: Value, key: string)
    requires d.Dict?
    ensures TrueAt(d, key) <==> Truthy(GetOr(d, key, Bool(false)))
  {
    hide Get;
  }

  lemma {:induction false} PlainSaysIff(d: Value, f: Field, show: Show)
    requires d.Dict?
    ensures PlainSays(d, f, show) && f.arrayOf == None <==> ParsePlain(d, show) == Some(f)
  {
    hide Get, TextAt, Required, Optional, KindAt, ParseKind, DisplayAt, ParseDisplay, LengthAt, ParseLength, TrueAt,
      Truthy,
      Fill, EnumKey, TlvSays, ParseTlv, BitsSay, ParseBits;
    TextAtIff(d, "name", "", f.name, show);
    TextAtIff(d, "encoding", "utf8", f.encoding, show);
    KindAtIff(d, f.kind);
    DisplayAtIff(d, f.display);
    LengthAtIff(d, f.length, show);
    TrueAtIff(d, "null_terminated");
    EntriesAre(d, "enum");
    if f.tlv.Some? {
      TlvSaysIff(Get(d, "tlv"), f.tlv.value, show);
    }
    if f.bits.Some? {
      BitsSayIff(Get(d, "bits"), f.bits.value, show);
    }
  }

  lemma {:induction false} FieldSaysIff(d: Value, f: Field, show: Show)
    ensures FieldSays(d, f, show) <==> ParseField(d, show) == Some(f)
    decreases f, 0
  {
    hide Get, PlainSays, ParsePlain, ArraySays, ParseArray;
    if d.Dict? {
      PlainWithout(d, f, show);
      if ParsePlain(d, show).Some? {
        PlainHasNoArray(d, show);
      }
      if f.arrayOf.Some? && Get(d, "array").Some? {
        ArraySaysIff(Get(d, "array").value, f.arrayOf.value, show);
      }
    } else {
      NoDictNoField(d, f, show);
    }
  }

  lemma {:induction false} PlainHasNoArray(d: Value, show: Show)
    requires d.Dict? && ParsePlain(d, show).Some?
    ensures ParsePlain(d, show).value.arrayOf == None
  {
    PlainSaysIff(d, ParsePlain(d, show).value, show);
    hide PlainSays, ParsePlain;
  }

  lemma {:induction false} NoDictNoField(d: Value, f: Field, show: Show)
    requires !d.Dict?
    ensures !PlainSays(d, f, show)
  {
  }

  /** What is inside an array does not matter to the rest of the field. */
  lemma {:induction false} PlainWithout(d: Value, f: Field, show: Show)
    requires d.Dict?
    ensures PlainSays(d, f, show) <==> ParsePlain(d, show) == Some(f.(arrayOf := None))
  {
    PlainSaysIff(d, f.(arrayOf := None), show);
    hide TextAt, KindAt, DisplayAt, LengthAt, TrueAt, Fill, EnumKey, TlvSays, BitsSay, ParsePlain;
  }

  lemma {:induction false} ArraySaysIff(d: Value, a: ArrayConfig, show: Show)
    ensures ArraySays(d, a, show) <==> ParseArray(d, show) == Some(a)
    decreases a, 0
  {
    hide Get, TextAt, PyStr, FieldsSay, ParseFields;
    if d.Dict? {
      TextAtIff(d, "count", "", a.count, show);
      if Get(d, "item").Some? && Get(d, "item").value.List? {
        FieldsSayIff(Get(d, "item").value.items, a.item, show);
      }
    }
  }

  lemma {:induction false} FieldsSayIff(vs: seq<Value>, fs: seq<Field>, show: Show)
    ensures FieldsSay(vs, fs, show) <==> ParseFields(vs, show) == Some(fs)
    decreases fs, 1
  {
    hide FieldSays, ParseField;
    if vs != [] && fs != [] {
      FieldSaysIff(vs[0], fs[0], show);
      FieldsSayIff(vs[1..], fs[1..], show);
      assert fs == [fs[0]] + fs[1..];
      assert FieldsSay(vs, fs, show) <==> FieldSays(vs[0], fs[0], show) && FieldsSay(vs[1..], fs[1..], show) by {
        assert forall k :: 1 <= k < |vs| ==> vs[k] == vs[1..][k - 1];
        assert forall k :: 1 <= k < |fs| ==> fs[k] == fs[1..][k - 1];
      }
    }
  }

  lemma {:induction false} ItemsAtIff(d: Value, key: string, items: seq<Value>)
    requires d.Dict?
    ensures ItemsAt(d, key, items) <==> GetOr(d, key, List([])) == List(items)
  {
    hide Get;
  }

  lemma {:induction false} MessageSaysIff(d: Value, m: Message, show: Show)
    ensures MessageSays(d, m, show) <==> ParseMessage(d, show) == Some(m)
  {
    hide Get, TextAt, Required, Optional, DirectionAt, ParseDirection, MatchSays, ParseMatch, ItemsAt, FieldsSay,
      ParseFields;
    if d.Dict? {
      TextAtIff(d, "name", "", m.name, show);
      TextAtIff(d, "description", "", m.description, show);
      DirectionAtIff(d, m.direction, show);
      MatchSaysIff(GetOr(d, "match", Dict([])), m.rule, show);
      DefaultMatch(show);
      forall items
        ensures ItemsAt(d, "fields", items) <==> GetOr(d, "fields", List([])) == List(items)
        ensures FieldsSay(items, m.fields, show) <==> ParseFields(items, show) == Some(m.fields)
      {
        ItemsAtIff(d, "fields", items);
        FieldsSayIff(items, m.fields, show);
      }
    }
  }

  lemma {:induction false} MessagesSayIff(vs: seq<Value>, ms: seq<Message>, show: Show)
    ensures MessagesSay(vs, ms, show) <==> ParseMessages(vs, show) == Some(ms)
    decreases |vs|
  {
    hide MessageSays, ParseMessage;
    if vs != [] && ms != [] {
      MessageSaysIff(vs[0], ms[0], show);
      MessagesSayIff(vs[1..], ms[1..], show);
      assert ms == [ms[0]] + ms[1..];
      assert MessagesSay(vs, ms, show) <==> MessageSays(vs[0], ms[0], show) && MessagesSay(vs[1..], ms[1..], show) by {
        assert forall k :: 1 <= k < |vs| ==> vs[k] == vs[1..][k - 1];
        assert forall k :: 1 <= k < |ms| ==> ms[k] == ms[1..][k - 1];
      }
    }
  }

  lemma {:induction false} ProtocolSaysIff(d: Value, p: Protocol, show: Show)
    requires d.Dict?
    ensures ProtocolSays(d, p, show) <==> ParseProtocol(d, show) == Some(p)
  {
    hide Get, TextAt, Required, Optional, Lower, OrderAt, ItemsAt, MessagesSay, ParseMessages;
    TextAtIff(d, "name", "", p.name, show);
    TextAtIff(d, "version", "1.0", p.version, show);
    OrderAtIff(d, p.endianness, show);
    forall items
      ensures ItemsAt(d, "messages", items) <==> GetOr(d, "messages", List([])) == List(items)
      ensures MessagesSay(items, p.messages, show) <==> ParseMessages(items, show) == Some(p.messages)
    {
      ItemsAtIff(d, "messages", items);
      MessagesSayIff(items, p.messages, show);
    }
  }

  /** The loader returns a definition if and only if the value says that definition. */
  lemma {:induction false} LoadsWhatIsSaid(raw: Value, p: Protocol, show: Show)
    ensures Load(raw, show) == Some(p) <==> Says(raw, p, show)
  {
    hide Get, ProtocolSays, ParseProtocol;
    if raw.Dict? {
      ProtocolSaysIff(raw, p, show);
      if Get(raw, "protocol").Some? && Get(raw, "protocol").value.Dict? {
        ProtocolSaysIff(Get(raw, "protocol").value, p, show);
      }
    }
  }

  /** What is printed for a loaded definition says that definition, or nothing when a key or magic value forbids it. */
  lemma {:induction false} PrintedSays(raw: Value, p: Protocol, q: Protocol, show: Show)
    requires Says(raw, p, show)
    ensures Says(ToValue(p), q, show) <==> q == p && MessagesPrint(p.messages)
  {
    LoadsWhatIsSaid(raw, p, show);
    hide Says, Load, ToValue, MessagesPrint;
    RoundTrip(raw, show);
    LoadsWhatIsSaid(ToValue(p), q, show);
  }

  /** Keys are printed as Python shows them: integers in decimal, truth values by their names. */
  lemma {:induction false} KeysPrint(n: int, b: bool, show: Show)
    ensures Shows(Int(n), PrintKey(IntKey(n, false)), show)
    ensures Shows(Bool(b), PrintKey(IntKey(if b then 1 else 0, true)), show)
  {
  }
}

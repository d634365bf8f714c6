/** Printing a loaded definition and loading it again. */
module DefinitionRoundTrip {
  import opened Definition
  import opened DefinitionLoader
  import opened DefinitionPrinter
  import opened Options
  import opened PyNumbers
  import opened Text
  import opened Values

  // ---- what every loaded definition satisfies ----

  predicate SoundMatch(m: Match) {
    match m.kind
    case Magic => m.direction == Both && m.index == 0
    case Sequence => m.offset == 0 && m.value == []
    case Always => m.offset == 0 && m.value == [] && m.direction == Both && m.index == 0
  }

  predicate SoundTlv(t: Tlv) {
    IsSize(t.typeSize) && IsSize(t.lengthSize) && Lower(t.endianness) == t.endianness && DistinctKeys(t.tags)
  }

  predicate SoundPlain(f: Field) {
    && (f.tlv.Some? <==> f.kind == TlvSequence) && (f.tlv.Some? ==> SoundTlv(f.tlv.value))
    && (f.bits.Some? <==> f.kind == Bitfield) && (f.bits.Some? ==> DistinctKeys(f.bits.value) && NoFlags(f.bits.value))
    && DistinctKeys(f.labels)
  }

  predicate SoundField(f: Field)
    decreases f
  {
    SoundPlain(f) && (f.arrayOf.Some? <==> f.kind == Array) && (f.arrayOf.Some? ==> SoundFields(f.arrayOf.value.item))
  }

  predicate SoundFields(fs: seq<Field>)
    decreases fs
  {
    fs == [] || (SoundField(fs[0]) && SoundFields(fs[1..]))
  }

  predicate SoundMessages(ms: seq<Message>) {
    ms == [] || (SoundMatch(ms[0].rule) && SoundFields(ms[0].fields) && SoundMessages(ms[1..]))
  }

  predicate Sound(p: Protocol) {
    (p.endianness == "big" || p.endianness == "little") && SoundMessages(p.messages)
  }

  // ---- what the printer can say ----

  predicate InBytes(ns: seq<int>) {
    forall k :: 0 <= k < |ns| ==> 0 <= ns[k] <= 255
  }

  /** Every magic byte is a byte. */
  predicate MatchPrints(m: Match) {
    m.kind == Magic ==> InBytes(m.value)
  }

  predicate PlainPrints(f: Field) {
    NoFlags(f.labels) && (f.tlv.Some? ==> NoFlags(f.tlv.value.tags))
  }

  /** No enum or tag key, at any depth, is a truth value. */
  predicate FieldPrints(f: Field)
    decreases f
  {
    PlainPrints(f) && (f.arrayOf.Some? ==> FieldsPrint(f.arrayOf.value.item))
  }

  predicate FieldsPrint(fs: seq<Field>)
    decreases fs
  {
    fs == [] || (FieldPrints(fs[0]) && FieldsPrint(fs[1..]))
  }

  predicate MessagesPrint(ms: seq<Message>) {
    ms == [] || (MatchPrints(ms[0].rule) && FieldsPrint(ms[0].fields) && MessagesPrint(ms[1..]))
  }

  // ---- loading yields sound definitions ----

  lemma {:induction false} MatchIsSound(d: Value, show: Show)
    requires ParseMatch(d, show).Some?
    ensures SoundMatch(ParseMatch(d, show).value)
  {
    hide MagicValue, ToInt, ParseDirection;
  }

  lemma {:induction false} LowerTwice(s: string)
    ensures Lower(Lower(s)) == Lower(s)
  {
  }

  lemma {:induction false} TlvIsSound(v: Option<Value>, show: Show)
    requires ParseTlv(v, show).Some?
    ensures SoundTlv(ParseTlv(v, show).value)
  {
    if v.None? || v.value.Null? {
      assert Lower("big") == "big";
    } else {
      var d := v.value;
      LowerTwice(Optional(d, "endianness", "big", show));
      var raw := GetOr(d, "tags", Dict([]));
      FillDistinct([], if raw.Dict? then raw.entries else [], EnumKey, TagReader(show));
      hide Fill, ToInt, Lower;
    }
  }

  lemma {:induction false} BitsHaveNoFlags(table: seq<Row<string>>, entries: seq<Entry>, show: Show)
    requires NoFlags(table) && Fill(table, entries, BitKey, LabelReader(show)).Some?
    ensures NoFlags(Fill(table, entries, BitKey, LabelReader(show)).value)
    decreases |entries|
  {
    if entries != [] {
      var k, v := BitKey(entries[0].key).value, LabelReader(show)(entries[0].value).value;
      SetRowNoFlags(table, k, v);
      BitsHaveNoFlags(SetRow(table, k, v), entries[1..], show);
    }
  }

  lemma {:induction false} SetRowNoFlags<V>(table: seq<Row<V>>, key: IntKey, value: V)
    requires NoFlags(table) && !key.flag
    ensures NoFlags(SetRow(table, key, value))
  {
    if table != [] && table[0].key.value != key.value {
      SetRowNoFlags(table[1..], key, value);
    }
  }

  lemma {:induction false} PlainIsSound(d: Value, show: Show)
    requires d.Dict? && ParsePlain(d, show).Some?
    ensures SoundPlain(ParsePlain(d, show).value) && ParsePlain(d, show).value.arrayOf == None
  {
    var f := ParsePlain(d, show).value;
    var raw := GetOr(d, "enum", Dict([]));
    FillDistinct([], if raw.Dict? then raw.entries else [], EnumKey, LabelReader(show));
    assert DistinctKeys(ParseLabels(d, show).value);
    hide ParseLabels, ParseKind, ParseLength;
    if f.kind == TlvSequence {
      TlvIsSound(Get(d, "tlv"), show);
    }
    if f.kind == Bitfield && Get(d, "bits").Some? && !Get(d, "bits").value.Null? {
      FillDistinct([], Get(d, "bits").value.entries, BitKey, LabelReader(show));
      BitsHaveNoFlags([], Get(d, "bits").value.entries, show);
    }
    hide Fill, ParseTlv, SoundTlv, ParseDisplay, Required, Optional, PyStr, Truthy, TypeNamed;
  }

  lemma {:induction false} FieldIsSound(d: Value, show: Show)
    requires ParseField(d, show).Some?
    ensures SoundField(ParseField(d, show).value)
    decreases d
  {
    hide ParsePlain, SoundPlain;
    PlainIsSound(d, show);
    PlainKeepsSound(ParsePlain(d, show).value, ParseField(d, show).value);
    if ParseField(d, show).value.kind == Array {
      var a := Get(d, "array").value;
      GetIsInside(d, "array");
      if Get(a, "item").Some? {
        GetIsInside(a, "item");
      }
      if Get(a, "item").Some? {
        FieldsAreSound(Get(a, "item").value.items, show);
      }
    }
  }

  lemma {:induction false} PlainKeepsSound(f: Field, g: Field)
    requires SoundPlain(f) && g == f.(arrayOf := g.arrayOf)
    ensures SoundPlain(g)
  {
  }

  lemma {:induction false} FieldsAreSound(vs: seq<Value>, show: Show)
    requires ParseFields(vs, show).Some?
    ensures SoundFields(ParseFields(vs, show).value)
    decreases vs
  {
    if vs != [] {
      FieldIsSound(vs[0], show);
      FieldsAreSound(vs[1..], show);
    }
  }

  lemma {:induction false} MessagesAreSound(vs: seq<Value>, show: Show)
    requires ParseMessages(vs, show).Some?
    ensures SoundMessages(ParseMessages(vs, show).value)
  {
    if vs != [] {
      var d := vs[0];
      MatchIsSound(GetOr(d, "match", Dict([Entry(Key.Text("type"), Str("always"))])), show);
      FieldsAreSound(if Get(d, "fields").None? then [] else Get(d, "fields").value.items, show);
      MessagesAreSound(vs[1..], show);
      hide ParseMatch, ParseFields, SoundMatch, SoundFields, ParseDirection;
    }
  }

  /** Whatever is loaded is sound. */
  lemma {:induction false} LoadedIsSound(raw: Value, show: Show)
    requires Load(raw, show).Some?
    ensures Sound(Load(raw, show).value)
  {
    hide ParseMessages, SoundMessages, Lower, Optional;
    var d := if Get(raw, "protocol").Some? && Get(raw, "protocol").value.Dict? then Get(raw, "protocol").value else raw;
    var list := GetOr(d, "messages", List([]));
    MessagesAreSound(list.items, show);
  }

  // ---- printed tables and words ----

  lemma EnumKeysBack()
    ensures forall k: IntKey :: k.flag ==> EnumKey(Key.Text(PrintKey(k))) == None
    ensures forall k: IntKey :: !k.flag ==> EnumKey(Key.Text(PrintKey(k))) == Some(k)
    ensures forall k: IntKey :: k.flag ==> BitKey(Key.Text(PrintKey(k))) == None
    ensures forall k: IntKey :: !k.flag ==> BitKey(Key.Text(PrintKey(k))) == Some(k)
  {
    NoDigitNoInt("True", true);
    NoDigitNoInt("False", true);
    NoDigitNoInt("True", false);
    NoDigitNoInt("False", false);
    hide ParseInt, IntText;
    forall k: IntKey | !k.flag
      ensures EnumKey(Key.Text(PrintKey(k))) == Some(k) && BitKey(Key.Text(PrintKey(k))) == Some(k)
    {
      IntTextReads(k.value, true);
      IntTextReads(k.value, false);
    }
  }

  lemma {:induction false} LabelsBack(rows: seq<Row<string>>, show: Show)
    requires DistinctKeys(rows)
    ensures Fill([], PrintRows(rows, LabelToValue), EnumKey, LabelReader(show)) ==
              if NoFlags(rows) then Some(rows) else None
    ensures Fill([], PrintRows(rows, LabelToValue), BitKey, LabelReader(show)) ==
              if NoFlags(rows) then Some(rows) else None
  {
    EnumKeysBack();
    ApartFromNothing(rows);
    hide EnumKey, BitKey, PrintKey, Fill, PrintRows, Apart, DistinctKeys;
    FillPrinted([], rows, LabelToValue, EnumKey, LabelReader(show));
    FillPrinted([], rows, LabelToValue, BitKey, LabelReader(show));
    assert [] + rows == rows;
  }

  lemma {:induction false} DisplayWords(d: Display)
    ensures Lower(DisplayName(d)) == DisplayName(d) && DisplayNamed(DisplayName(d)) == Some(d)
    ensures Lower("auto") == "auto" && DisplayNamed("auto") == Some(Auto)
  {
    DisplayNameBack(d);
    PlainStays(DisplayName(d));
    DisplayNameBack(Auto);
    PlainStays("auto");
  }

  /** A dictionary of two keys. */
  lemma {:induction false} PairGets(first: string, v: Value, second: string, w: Value, k: string)
    requires first != second
    ensures Get(Dict([Entry(Text(first), v), Entry(Text(second), w)]), k)
            == if k == first then Some(v) else if k == second then Some(w) else None
  {
    FindFirst([Entry(Text(first), v), Entry(Text(second), w)], k,
              if k == first then 0 else if k == second then 1 else 2);
    hide Find;
  }

  lemma {:induction false} TagGets(t: Tag, k: string)
    ensures Get(TagToValue(t), k) ==
            if t.display != Auto && k == "display" then Some(Str(DisplayName(t.display)))
            else if t.encoding != "utf8" && k == "encoding" then Some(Str(t.encoding))
            else if k == "name" then Some(Str(t.name))
            else if k == "value_type" then Some(Str(TypeName(t.valueType)))
            else None
  {
    var d := [Entry(Text("name"), Str(t.name)), Entry(Text("value_type"), Str(TypeName(t.valueType)))];
    PairGets("name", Str(t.name), "value_type", Str(TypeName(t.valueType)), k);
    var d1 := PutIf(d, t.encoding != "utf8", "encoding", Str(t.encoding));
    PutIfGet(d, t.encoding != "utf8", "encoding", Str(t.encoding), k);
    PutIfGet(d1, t.display != Auto, "display", Str(DisplayName(t.display)), k);
    hide PutIf, Get, TypeName, DisplayName;
  }

  lemma {:induction false} TagBack(t: Tag, show: Show)
    ensures ParseTag(TagToValue(t), show) == Some(t)
  {
    TagGets(t, "name");
    TagGets(t, "value_type");
    TagGets(t, "encoding");
    TagGets(t, "display");
    TypeNamesBack(t.valueType);
    PlainStays(TypeName(t.valueType));
    DisplayWords(t.display);
    hide TagToValue, Get, TypeNamed, TypeName, Lower, DisplayNamed, DisplayName, Plain;
  }

  lemma {:induction false} TagsBack(rows: seq<Row<Tag>>, show: Show)
    requires DistinctKeys(rows)
    ensures Fill([], PrintRows(rows, TagToValue), EnumKey, TagReader(show)) ==
              if NoFlags(rows) then Some(rows) else None
  {
    EnumKeysBack();
    ApartFromNothing(rows);
    hide EnumKey, BitKey, PrintKey, Fill, PrintRows, Apart, DistinctKeys, TagToValue, ParseTag;
    forall r | r in rows ensures TagReader(show)(TagToValue(r.value)) == Some(r.value) {
      TagBack(r.value, show);
    }
    FillPrinted([], rows, TagToValue, EnumKey, TagReader(show));
    assert [] + rows == rows;
  }

  lemma {:induction false} TlvBack(t: Tlv, show: Show)
    requires SoundTlv(t)
    ensures ParseTlv(Some(TlvToValue(t)), show) == if NoFlags(t.tags) then Some(t) else None
  {
    var d := TlvToValue(t);
    FindFirst(d.entries, "type_size", 0);
    FindFirst(d.entries, "length_size", 1);
    FindFirst(d.entries, "endianness", 2);
    FindFirst(d.entries, "tags", 3);
    TagsBack(t.tags, show);
    hide Find, Fill, PrintRows, Lower, NoFlags;
  }

  // ---- printed fields ----

  lemma FieldKeysDiffer()
    ensures "name" != "type" && "name" != "enum" && "name" != "bits"
    ensures "type" != "enum" && "type" != "bits" && "enum" != "bits"
  {
    assert "name"[0] != "type"[0] && "name"[0] != "enum"[0] && "name"[0] != "bits"[0];
    assert "type"[0] != "enum"[0] && "type"[0] != "bits"[0] && "enum"[0] != "bits"[0];
  }

  /** What any key of a printed field holds. */
  function FieldGet(f: Field, k: string): Option<Value> {
    if f.bits.Some? && k == "bits" then Some(Dict(PrintRows(f.bits.value, LabelToValue)))
    else if f.arrayOf.Some? && k == "array" then Some(ArrayToValue(f.arrayOf.value))
    else if f.tlv.Some? && k == "tlv" then Some(TlvToValue(f.tlv.value))
    else if f.labels != [] && k == "enum" then Some(Dict(PrintRows(f.labels, LabelToValue)))
    else if f.display != Auto && k == "display" then Some(Str(DisplayName(f.display)))
    else if f.encoding != "utf8" && k == "encoding" then Some(Str(f.encoding))
    else if f.nullTerminated && k == "null_terminated" then Some(Bool(true))
    else if f.length.Some? && k == "length" then Some(Str(f.length.value))
    else if k == "name" then Some(Str(f.name))
    else if k == "type" then Some(Str(TypeName(f.kind)))
    else None
  }

  lemma {:induction false} PlainGets(f: Field, k: string)
    ensures k != "bits" && k != "array" ==> Get(Dict(PlainEntries(f)), k) == FieldGet(f, k)
    ensures k == "bits" || k == "array" ==> Get(Dict(PlainEntries(f)), k) == None
  {
    hide PutIf, Get, TypeName, DisplayName, PrintRows, TlvToValue, ArrayToValue;
    var d := [Entry(Text("name"), Str(f.name)), Entry(Text("type"), Str(TypeName(f.kind)))];
    FieldKeysDiffer();
    PairGets("name", Str(f.name), "type", Str(TypeName(f.kind)), k);
    var length := if f.length.Some? then Str(f.length.value) else Null;
    var d1 := PutIf(d, f.length.Some?, "length", length);
    PutIfGet(d, f.length.Some?, "length", length, k);
    var d2 := PutIf(d1, f.nullTerminated, "null_terminated", Bool(true));
    PutIfGet(d1, f.nullTerminated, "null_terminated", Bool(true), k);
    var d3 := PutIf(d2, f.encoding != "utf8", "encoding", Str(f.encoding));
    PutIfGet(d2, f.encoding != "utf8", "encoding", Str(f.encoding), k);
    var d4 := PutIf(d3, f.display != Auto, "display", Str(DisplayName(f.display)));
    PutIfGet(d3, f.display != Auto, "display", Str(DisplayName(f.display)), k);
    var labels := Dict(PrintRows(f.labels, LabelToValue));
    var d5 := PutIf(d4, f.labels != [], "enum", labels);
    PutIfGet(d4, f.labels != [], "enum", labels, k);
    PutIfGet(d5, f.tlv.Some?, "tlv", if f.tlv.Some? then TlvToValue(f.tlv.value) else Null, k);
  }

  lemma {:induction false} FieldGets(f: Field, k: string)
    ensures Get(FieldToValue(f), k) == FieldGet(f, k)
  {
    hide PutIf, Get, TypeName, DisplayName, PrintRows, TlvToValue, ArrayToValue, PlainEntries;
    PlainGets(f, k);
    var items := if f.arrayOf.Some? then ArrayToValue(f.arrayOf.value) else Null;
    var bits := if f.bits.Some? then Dict(PrintRows(f.bits.value, LabelToValue)) else Null;
    var d := PutIf(PlainEntries(f), f.arrayOf.Some?, "array", items);
    PutIfGet(PlainEntries(f), f.arrayOf.Some?, "array", items, k);
    PutIfGet(d, f.bits.Some?, "bits", bits, k);
  }

  lemma {:induction false} NameBack(f: Field, show: Show)
    ensures Required(FieldToValue(f), "name", show) == Some(f.name)
  {
    FieldKeysDiffer();
    FieldGets(f, "name");
    hide FieldToValue, Get;
  }

  lemma {:induction false} KindBack(f: Field)
    ensures ParseKind(FieldToValue(f)) == Some(f.kind)
  {
    FieldKeysDiffer();
    FieldGets(f, "type");
    TypeNamesBack(f.kind);
    PlainStays(TypeName(f.kind));
    hide FieldToValue, Get, Lower, Underscored, TypeName, TypeNamed, DisplayName, Plain;
  }

  lemma {:induction false} LengthBack(f: Field, show: Show)
    ensures ParseLength(FieldToValue(f), show) == f.length
  {
    FieldGets(f, "length");
    hide FieldToValue, Get;
  }

  lemma {:induction false} TextsBack(f: Field, show: Show)
    ensures Truthy(GetOr(FieldToValue(f), "null_terminated", Bool(false))) == f.nullTerminated
    ensures Optional(FieldToValue(f), "encoding", "utf8", show) == f.encoding
  {
    FieldGets(f, "null_terminated");
    FieldGets(f, "encoding");
    hide FieldToValue, Get;
  }

  lemma {:induction false} DisplayBack(f: Field)
    ensures ParseDisplay(FieldToValue(f)) == Some(f.display)
  {
    FieldGets(f, "display");
    DisplayWords(f.display);
    hide FieldToValue, Get, Lower, DisplayName, DisplayNamed;
  }

  lemma {:induction false} FieldLabelsBack(f: Field, show: Show)
    requires DistinctKeys(f.labels)
    ensures ParseLabels(FieldToValue(f), show) == if NoFlags(f.labels) then Some(f.labels) else None
  {
    hide FieldToValue, Get, PrintRows, DistinctKeys, EnumKey, TypeName, DisplayName, TlvToValue, ArrayToValue;
    FieldKeysDiffer();
    FieldGets(f, "enum");
    LabelsBack(f.labels, show);
    if f.labels == [] {
      assert Fill([], [], EnumKey, LabelReader(show)) == Some([]);
    }
    hide Fill;
  }

  lemma {:induction false} FieldTlvBack(f: Field, show: Show)
    requires f.tlv.Some? && SoundTlv(f.tlv.value)
    ensures ParseTlv(Get(FieldToValue(f), "tlv"), show) == if NoFlags(f.tlv.value.tags) then f.tlv else None
  {
    FieldGets(f, "tlv");
    hide FieldToValue, Get, TlvToValue, ParseTlv, SoundTlv, NoFlags;
    TlvBack(f.tlv.value, show);
  }

  lemma {:induction false} FieldBitsBack(f: Field, show: Show)
    requires f.bits.Some? && DistinctKeys(f.bits.value) && NoFlags(f.bits.value)
    ensures ParseBits(Get(FieldToValue(f), "bits"), show) == f.bits
  {
    FieldGets(f, "bits");
    LabelsBack(f.bits.value, show);
    hide FieldToValue, Get, PrintRows, Fill, NoFlags, DistinctKeys;
  }

  lemma {:induction false} PlainBack(f: Field, show: Show)
    requires SoundPlain(f)
    ensures ParsePlain(FieldToValue(f), show) == if PlainPrints(f) then Some(f.(arrayOf := None)) else None
  {
    hide FieldToValue, Get, ParseKind, ParseLength, ParseDisplay, ParseLabels, ParseTlv, ParseBits, Required, Optional,
         GetOr, Truthy, NoFlags, DistinctKeys, SoundTlv;
    NameBack(f, show);
    KindBack(f);
    LengthBack(f, show);
    TextsBack(f, show);
    DisplayBack(f);
    FieldLabelsBack(f, show);
    if f.tlv.Some? {
      FieldTlvBack(f, show);
    }
    if f.bits.Some? {
      FieldBitsBack(f, show);
    }
  }

  lemma {:induction false} ArrayGets(a: ArrayConfig)
    ensures Get(ArrayToValue(a), "count") == Some(Str(a.count))
    ensures Get(ArrayToValue(a), "item") == Some(List(FieldsToValues(a.item)))
  {
    FindFirst(ArrayToValue(a).entries, "count", 0);
    FindFirst(ArrayToValue(a).entries, "item", 1);
    hide Find, FieldsToValues;
  }

  /** A printed field is loaded back exactly when it prints; otherwise the loader refuses it. */
  lemma {:induction false} FieldBack(f: Field, show: Show)
    requires SoundField(f)
    ensures ParseField(FieldToValue(f), show) == if FieldPrints(f) then Some(f) else None
    decreases f
  {
    PlainBack(f, show);
    FieldGets(f, "array");
    hide ParsePlain, PlainPrints, SoundPlain, FieldToValue, Get, PrintRows, TypeName, DisplayName, TlvToValue,
      ArrayToValue;
    if f.arrayOf.Some? {
      ArrayBack(f.arrayOf.value, show);
    }
  }

  lemma {:induction false} ArrayBack(a: ArrayConfig, show: Show)
    requires SoundFields(a.item)
    ensures ParseArray(ArrayToValue(a), show) == if FieldsPrint(a.item) then Some(a) else None
    decreases a
  {
    ArrayGets(a);
    FieldsBack(a.item, show);
    hide ArrayToValue, Get, ParseFields, FieldsToValues, SoundFields, FieldsPrint;
  }

  lemma {:induction false} FieldsBack(fs: seq<Field>, show: Show)
    requires SoundFields(fs)
    ensures ParseFields(FieldsToValues(fs), show) == if FieldsPrint(fs) then Some(fs) else None
    decreases fs
  {
    hide ParseField, FieldToValue, SoundField, FieldPrints, ParseArray, ArrayToValue;
    if fs != [] {
      FieldBack(fs[0], show);
      FieldsBack(fs[1..], show);
      assert FieldsToValues(fs)[0] == FieldToValue(fs[0]) && FieldsToValues(fs)[1..] == FieldsToValues(fs[1..]);
      assert [fs[0]] + fs[1..] == fs;
    }
  }

  // ---- printed messages ----

  lemma {:induction false} IntsBack(ns: seq<int>)
    ensures MagicBytes(Ints(ns)) == if InBytes(ns) then Some(ns) else None
  {
    hide InBytes, MagicBytes;
    InBytesStep(ns);
    if ns == [] {
      NoMagicBytes();
    } else {
      IntsBack(ns[1..]);
      MagicBytesCons(Int(ns[0]), Ints(ns[1..]));
      assert ns == [ns[0]] + ns[1..];
    }
  }

  lemma NoMagicBytes()
    ensures MagicBytes([]) == Some([])
  {
  }

  lemma {:induction false} MagicBytesCons(v: Value, vs: seq<Value>)
    ensures MagicBytes([v] + vs) ==
              if MagicByte(v).None? || MagicBytes(vs).None? then None
              else Some([MagicByte(v).value] + MagicBytes(vs).value)
  {
    hide MagicByte;
    assert ([v] + vs)[1..] == vs;
  }

  lemma {:induction false} InBytesStep(ns: seq<int>)
    ensures InBytes(ns) <==> ns == [] || (0 <= ns[0] <= 255 && InBytes(ns[1..]))
  {
    if ns != [] && InBytes(ns[1..]) {
      assert forall k :: 1 <= k < |ns| ==> ns[k] == ns[1..][k - 1];
    }
  }

  lemma {:induction false} MatchGets(m: Match)
    ensures Get(MatchToValue(m), "type") == Some(Str(KindName(m.kind)))
    ensures m.kind == Magic ==> Get(MatchToValue(m), "offset") == Some(Int(m.offset))
                                && Get(MatchToValue(m), "value") == Some(List(Ints(m.value)))
    ensures m.kind == Sequence ==> Get(MatchToValue(m), "direction") == Some(Str(DirectionName(m.direction)))
                                   && Get(MatchToValue(m), "index") == Some(Int(m.index))
  {
    var entries := MatchToValue(m).entries;
    FindFirst(entries, "type", 0);
    if m.kind == Magic {
      FindFirst(entries, "offset", 1);
      FindFirst(entries, "value", 2);
    } else if m.kind == Sequence {
      FindFirst(entries, "direction", 1);
      FindFirst(entries, "index", 2);
    }
    hide Find, Ints, DirectionName;
  }

  lemma {:induction false} DirectionBack(d: Direction, show: Show)
    ensures ParseDirection(Str(DirectionName(d)), show) == Some(d)
  {
    DirectionNameBack(d);
    PlainStays(DirectionName(d));
    hide DirectionName, DirectionNamed, Lower, Underscored;
  }

  lemma {:induction false} MatchBack(m: Match, show: Show)
    requires SoundMatch(m)
    ensures ParseMatch(MatchToValue(m), show) == if MatchPrints(m) then Some(m) else None
  {
    MatchGets(m);
    KindNameBack(m.kind);
    PlainStays(KindName(m.kind));
    DirectionBack(m.direction, show);
    IntsBack(m.value);
    hide InBytes, KindName, KindNamed, Lower, Get, Ints, DirectionName, ParseDirection, MagicBytes;
  }

  lemma {:induction false} MessageGets(m: Message)
    ensures var d := MessageToValue(m);
            && Get(d, "name") == Some(Str(m.name))
            && Get(d, "direction") == Some(Str(DirectionName(m.direction)))
            && Get(d, "match") == Some(MatchToValue(m.rule))
            && Get(d, "fields") == Some(List(FieldsToValues(m.fields)))
            && Get(d, "description") == (if m.description != "" then Some(Str(m.description)) else None)
  {
    var base := [Entry(Text("name"), Str(m.name)), Entry(Text("direction"), Str(DirectionName(m.direction))),
                 Entry(Text("match"), MatchToValue(m.rule)), Entry(Text("fields"), List(FieldsToValues(m.fields)))];
    FindFirst(base, "name", 0);
    FindFirst(base, "direction", 1);
    FindFirst(base, "match", 2);
    FindFirst(base, "fields", 3);
    FindFirst(base, "description", 4);
    hide Find, DirectionName, MatchToValue, FieldsToValues;
    assert Get(Dict(base), "name") == Some(Str(m.name))
           && Get(Dict(base), "direction") == Some(Str(DirectionName(m.direction)))
           && Get(Dict(base), "match") == Some(MatchToValue(m.rule))
           && Get(Dict(base), "fields") == Some(List(FieldsToValues(m.fields)))
           && Get(Dict(base), "description") == None;
    hide Get, PutIf;
    PutIfGet(base, m.description != "", "description", Str(m.description), "name");
    PutIfGet(base, m.description != "", "description", Str(m.description), "direction");
    PutIfGet(base, m.description != "", "description", Str(m.description), "match");
    PutIfGet(base, m.description != "", "description", Str(m.description), "fields");
    PutIfGet(base, m.description != "", "description", Str(m.description), "description");
  }

  lemma {:induction false} MessageBack(m: Message, show: Show)
    requires SoundMatch(m.rule) && SoundFields(m.fields)
    ensures ParseMessage(MessageToValue(m), show) ==
              if MatchPrints(m.rule) && FieldsPrint(m.fields) then Some(m) else None
  {
    hide MessageToValue, Get, DirectionName, MatchToValue, FieldsToValues, ParseFields, ParseMatch, ParseDirection,
         SoundMatch, SoundFields, MatchPrints, FieldsPrint;
    MessageGets(m);
    DirectionBack(m.direction, show);
    MatchBack(m.rule, show);
    FieldsBack(m.fields, show);
  }

  lemma {:induction false} MessagesBack(ms: seq<Message>, show: Show)
    requires SoundMessages(ms)
    ensures ParseMessages(MessagesToValues(ms), show) == if MessagesPrint(ms) then Some(ms) else None
  {
    hide ParseMessage, MessageToValue, SoundMatch, SoundFields, MatchPrints, FieldsPrint;
    if ms != [] {
      MessageBack(ms[0], show);
      MessagesBack(ms[1..], show);
      assert MessagesToValues(ms)[0] == MessageToValue(ms[0]) && MessagesToValues(ms)[1..] == MessagesToValues(ms[1..]);
      assert [ms[0]] + ms[1..] == ms;
    }
  }

  // ---- the round trip ----

  lemma {:induction false} ProtocolGets(p: Protocol)
    ensures var d := ToValue(p);
            && Get(d, "name") == Some(Str(p.name)) && Get(d, "version") == Some(Str(p.version))
            && Get(d, "endianness") == Some(Str(p.endianness))
            && Get(d, "messages") == Some(List(MessagesToValues(p.messages)))
            && Get(d, "protocol") == None
  {
    var entries := ToValue(p).entries;
    FindFirst(entries, "name", 0);
    FindFirst(entries, "version", 1);
    FindFirst(entries, "endianness", 2);
    FindFirst(entries, "messages", 3);
    assert "protocol"[0] != "messages"[0];
    FindFirst(entries, "protocol", 4);
    hide Find, MessagesToValues;
  }

  lemma EndianWords()
    ensures Lower("big") == "big" && Lower("little") == "little"
  {
    PlainStays("big");
    PlainStays("little");
  }

  lemma {:induction false} PrintedLoads(p: Protocol, show: Show)
    requires Sound(p)
    ensures Load(ToValue(p), show) == if MessagesPrint(p.messages) then Some(p) else None
  {
    hide ToValue, Get, Lower, MessagesToValues, ParseMessages, SoundMessages, MessagesPrint;
    ProtocolGets(p);
    MessagesBack(p.messages, show);
    EndianWords();
  }

  /**
   * Printing and loading a loaded definition gives it back exactly when every magic value is made of
   * bytes and no enum or tag key is a truth value. Otherwise the loader refuses what was printed.
   */
  lemma {:induction false} RoundTrip(raw: Value, show: Show)
    requires Load(raw, show).Some?
    ensures var p := Load(raw, show).value;
            Load(ToValue(p), show) == if MessagesPrint(p.messages) then Some(p) else None
  {
    LoadedIsSound(raw, show);
    hide Load, ToValue, Sound, MessagesPrint;
    PrintedLoads(Load(raw, show).value, show);
  }

  // ---- where it fails ----

  /** A definition of one message. */
  function OneMessage(message: seq<Entry>): Value {
    Dict([Entry(Text("name"), Str("p")), Entry(Text("messages"), List([Dict(message)]))])
  }

  /** A message recognised by the given magic value. */
  function MagicMessage(value: Value): seq<Entry> {
    [Entry(Text("name"), Str("m")),
     Entry(Text("match"), Dict([Entry(Text("type"), Str("magic")), Entry(Text("value"), value)]))]
  }

  /** A message of one field with the given enum. */
  function EnumMessage(labels: seq<Entry>): seq<Entry> {
    [Entry(Text("name"), Str("m")),
     Entry(Text("fields"), List([Dict([Entry(Text("name"), Str("f")), Entry(Text("enum"), Dict(labels))])]))]
  }

  lemma {:induction false} OneMessageLoads(message: seq<Entry>, show: Show)
    requires ParseMessage(Dict(message), show).Some?
    ensures Load(OneMessage(message), show) ==
              Some(Protocol("p", "1.0", "big", [ParseMessage(Dict(message), show).value]))
  {
    hide ParseMessage;
    var entries := OneMessage(message).entries;
    assert "protocol"[0] != "messages"[0];
    FindFirst(entries, "name", 0);
    FindFirst(entries, "messages", 1);
    FindFirst(entries, "protocol", 2);
    FindFirst(entries, "version", 2);
    FindFirst(entries, "endianness", 2);
    EndianWords();
    hide Find, Lower;
    assert [Dict(message)][1..] == [];
    assert ParseMessages([], show) == Some([]);
    assert [ParseMessage(Dict(message), show).value] + [] == [ParseMessage(Dict(message), show).value];
  }

  /** A magic value is loaded as the bytes it stands for. */
  lemma {:induction false} MagicLoads(value: Value, bytes: seq<int>, show: Show)
    requires !value.Null? && MagicValue(value) == Some(bytes)
    ensures Load(OneMessage(MagicMessage(value)), show)
            == Some(Protocol("p", "1.0", "big", [Message("m", "", Both, Match(Magic, 0, bytes, Both, 0), [])]))
  {
    MagicMessageParses(value, bytes, show);
    OneMessageLoads(MagicMessage(value), show);
  }

  lemma {:induction false} MagicMessageParses(value: Value, bytes: seq<int>, show: Show)
    requires !value.Null? && MagicValue(value) == Some(bytes)
    ensures ParseMessage(Dict(MagicMessage(value)), show)
            == Some(Message("m", "", Both, Match(Magic, 0, bytes, Both, 0), []))
  {
    hide Get, Find, Lower, Underscored, KindNamed, DirectionNamed, ParseDirection, MagicValue;
    var rule := Dict([Entry(Text("type"), Str("magic")), Entry(Text("value"), value)]);
    PairGets("type", Str("magic"), "value", value, "type");
    PairGets("type", Str("magic"), "value", value, "value");
    PairGets("type", Str("magic"), "value", value, "offset");
    PairGets("name", Str("m"), "match", rule, "name");
    PairGets("name", Str("m"), "match", rule, "match");
    PairGets("name", Str("m"), "match", rule, "fields");
    PairGets("name", Str("m"), "match", rule, "description");
    PairGets("name", Str("m"), "match", rule, "direction");
    KindNameBack(Magic);
    PlainStays("magic");
    DirectionBack(Both, show);
    assert ParseMatch(rule, show) == Some(Match(Magic, 0, bytes, Both, 0));
    hide ParseMatch;
    assert ParseFields([], show) == Some([]);
  }

  /** The bare number 300, which the loader does not check. */
  const BARE_MAGIC := OneMessage(MagicMessage(Int(300)))

  /** A bare magic number that is no byte is loaded, but what is printed for it is refused. */
  lemma {:induction false} BareMagicFails(show: Show)
    ensures Load(BARE_MAGIC, show).Some? && Load(ToValue(Load(BARE_MAGIC, show).value), show) == None
  {
    assert MagicValue(Int(300)) == Some([300]);
    MagicLoads(Int(300), [300], show);
    hide Load, ToValue, MagicValue;
    RoundTrip(BARE_MAGIC, show);
  }

  lemma {:induction false} EnumFieldGets(labels: seq<Entry>)
    ensures var d := Dict([Entry(Text("name"), Str("f")), Entry(Text("enum"), Dict(labels))]);
            && Get(d, "name") == Some(Str("f")) && Get(d, "enum") == Some(Dict(labels))
            && Get(d, "type") == None && Get(d, "length") == None && Get(d, "null_terminated") == None
            && Get(d, "encoding") == None && Get(d, "display") == None
  {
    hide Get;
    FieldKeysDiffer();
    PairGets("name", Str("f"), "enum", Dict(labels), "name");
    PairGets("name", Str("f"), "enum", Dict(labels), "enum");
    PairGets("name", Str("f"), "enum", Dict(labels), "type");
    PairGets("name", Str("f"), "enum", Dict(labels), "length");
    PairGets("name", Str("f"), "enum", Dict(labels), "null_terminated");
    PairGets("name", Str("f"), "enum", Dict(labels), "encoding");
    PairGets("name", Str("f"), "enum", Dict(labels), "display");
  }

  lemma {:induction false} EnumFieldParses(labels: seq<Entry>, rows: seq<Row<string>>, show: Show)
    requires Fill([], labels, EnumKey, LabelReader(show)) == Some(rows)
    ensures ParseField(Dict([Entry(Text("name"), Str("f")), Entry(Text("enum"), Dict(labels))]), show)
            == Some(Field("f", Bytes, None, false, "utf8", Auto, rows, None, None, None))
  {
    hide Get, Find, Fill, Lower, Underscored, TypeNamed, DisplayNamed;
    var d := Dict([Entry(Text("name"), Str("f")), Entry(Text("enum"), Dict(labels))]);
    EnumFieldGets(labels);
    TypeNamesBack(Bytes);
    PlainStays("bytes");
    DisplayWords(Auto);
    assert ParseLabels(d, show) == Some(rows);
    assert ParseKind(d) == Some(Bytes) && ParseDisplay(d) == Some(Auto) && ParseLength(d, show) == None;
    hide ParseKind, ParseDisplay, ParseLength, ParseLabels;
    assert ParsePlain(d, show) == Some(Field("f", Bytes, None, false, "utf8", Auto, rows, None, None, None));
  }

  lemma {:induction false} DefaultMatch(show: Show)
    ensures ParseMatch(Dict([Entry(Text("type"), Str("always"))]), show) == Some(Match(Always, 0, [], Both, 0))
  {
    FindFirst([Entry(Text("type"), Str("always"))], "type", 0);
    KindNameBack(Always);
    PlainStays("always");
    hide Find, Lower, KindNamed;
  }

  lemma {:induction false} EnumMessageParses(labels: seq<Entry>, rows: seq<Row<string>>, show: Show)
    requires Fill([], labels, EnumKey, LabelReader(show)) == Some(rows)
    ensures ParseMessage(Dict(EnumMessage(labels)), show)
            == Some(Message("m", "", Both, Match(Always, 0, [], Both, 0),
                            [Field("f", Bytes, None, false, "utf8", Auto, rows, None, None, None)]))
  {
    hide Get, Find, ParseField, ParseMatch, ParseDirection, Fill;
    var f := Dict([Entry(Text("name"), Str("f")), Entry(Text("enum"), Dict(labels))]);
    var fields := List([f]);
    PairGets("name", Str("m"), "fields", fields, "name");
    PairGets("name", Str("m"), "fields", fields, "fields");
    PairGets("name", Str("m"), "fields", fields, "match");
    PairGets("name", Str("m"), "fields", fields, "description");
    PairGets("name", Str("m"), "fields", fields, "direction");
    DefaultMatch(show);
    DirectionBack(Both, show);
    EnumFieldParses(labels, rows, show);
    assert [f][1..] == [] && ParseFields([], show) == Some([]);
    assert [ParseField(f, show).value] + [] == [ParseField(f, show).value];
    assert ParseFields([f], show) == Some([ParseField(f, show).value]);
    hide ParseFields;
  }

  /** An enum is loaded as the table its entries fill. */
  lemma {:induction false} EnumLoads(labels: seq<Entry>, rows: seq<Row<string>>, show: Show)
    requires Fill([], labels, EnumKey, LabelReader(show)) == Some(rows)
    ensures Load(OneMessage(EnumMessage(labels)), show)
            == Some(Protocol("p", "1.0", "big", [Message("m", "", Both, Match(Always, 0, [], Both, 0),
                            [Field("f", Bytes, None, false, "utf8", Auto, rows, None, None, None)])]))
  {
    EnumMessageParses(labels, rows, show);
    OneMessageLoads(EnumMessage(labels), show);
  }

  /** A field whose enum has the key `True`. */
  const FLAG_KEY := OneMessage(EnumMessage([Entry(Flag(true), Str("on"))]))

  lemma {:induction false} FlagLabels(show: Show)
    ensures Fill([], [Entry(Flag(true), Str("on"))], EnumKey, LabelReader(show)) == Some([Row(IntKey(1, true), "on")])
  {
    var row := [Entry(Flag(true), Str("on"))];
    assert row[1..] == [];
    hide ParseInt;
  }

  /** An enum key that is a truth value is loaded, but its printed form `"True"` is refused. */
  lemma {:induction false} FlagKeyFails(show: Show)
    ensures Load(FLAG_KEY, show).Some? && Load(ToValue(Load(FLAG_KEY, show).value), show) == None
  {
    var rows := [Row(IntKey(1, true), "on")];
    FlagLabels(show);
    EnumLoads([Entry(Flag(true), Str("on"))], rows, show);
    FlagDoesNotPrint(rows);
    hide *;
    RoundTrip(FLAG_KEY, show);
  }

  lemma {:induction false} FlagDoesNotPrint(rows: seq<Row<string>>)
    requires rows != [] && rows[0].key.flag
    ensures !MessagesPrint([Message("m", "", Both, Match(Always, 0, [], Both, 0),
                                    [Field("f", Bytes, None, false, "utf8", Auto, rows, None, None, None)])])
  {
    var f := Field("f", Bytes, None, false, "utf8", Auto, rows, None, None, None);
    assert !PlainPrints(f) && [f][0] == f;
    assert !FieldsPrint([f]);
  }
}

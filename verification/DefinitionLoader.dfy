/** Loading a protocol definition from a parsed YAML or JSON value; any exception is `None`. */
module DefinitionLoader {
  import opened Definition
  import opened Options
  import opened PyNumbers
  import opened Text
  import opened Values

  // ---- keys and bytes ----

  /** An enum or tag key: an integer, a truth value, or text that names its base. */
  function EnumKey(k: Key): Option<IntKey> {
    match k
    case Number(n) => Some(IntKey(n, false))
    case Flag(b) => Some(IntKey(if b then 1 else 0, true))
    case Text(s) => (match ParseInt(s, true) { case None => None case Some(n) => Some(IntKey(n, false)) })
    case _ => None
  }

  /** A bit index: anything `int` takes, as a plain integer. */
  function BitKey(k: Key): Option<IntKey> {
    match k
    case Number(n) => Some(IntKey(n, false))
    case Flag(b) => Some(IntKey(if b then 1 else 0, false))
    case Fraction(r) => Some(IntKey(Trunc(r), false))
    case Text(s) => (match ParseInt(s, false) { case None => None case Some(n) => Some(IntKey(n, false)) })
    case Missing => None
  }

  function InByte(n: int): Option<int> {
    if 0 <= n <= 255 then Some(n) else None
  }

  function MagicByte(v: Value): Option<int> {
    match v
    case Bool(b) => Some(if b then 1 else 0)
    case Int(n) => InByte(n)
    case Str(s) => (match ParseInt(s, true) { case None => None case Some(n) => InByte(n) })
    case _ => None
  }

  function MagicBytes(vs: seq<Value>): Option<seq<int>> {
    if vs == [] then Some([])
    else if MagicByte(vs[0]).None? || MagicBytes(vs[1..]).None? then None
    else Some([MagicByte(vs[0]).value] + MagicBytes(vs[1..]).value)
  }

  /** `s.split()` as strings. */
  function Words(s: string): seq<Value>
    decreases |s|
  {
    var t := SkipSpaces(s);
    if t == [] then []
    else
      var n := WordLength(t);
      [Str(t[..n])] + Words(t[n..])
  }

  function WordLength(s: string): (n: nat)
    ensures n <= |s| && (s != [] && !IsSpace(s[0]) ==> 0 < n)
  {
    if s == [] || IsSpace(s[0]) then 0 else 1 + WordLength(s[1..])
  }

  /** The notations of a magic value. A bare number is taken as it is, whatever its size. */
  function MagicValue(v: Value): Option<seq<int>> {
    match v
    case Bool(b) => Some([if b then 1 else 0])
    case Int(n) => Some([n])
    case List(items) => MagicBytes(items)
    case Str(s) => MagicBytes(Words(s))
    case _ => None
  }

  // ---- parts ----

  function ParseDirection(v: Value, show: Show): Option<Direction> {
    if v.Null? then Some(Both) else DirectionNamed(Underscored(Lower(PyStr(v, show))))
  }

  function ParseMatch(d: Value, show: Show): Option<Match> {
    if !d.Dict? then None
    else
      var name := LowerOf(GetOr(d, "type", Str("always")));
      var kind := if name.None? then None else KindNamed(name.value);
      if kind.None? then None
      else match kind.value
        case Magic =>
          var offset := ToInt(GetOr(d, "offset", Int(0)));
          var raw := GetOr(d, "value", Null);
          if offset.None? || raw.Null? || MagicValue(raw).None? then None
          else Some(Match(Magic, offset.value, MagicValue(raw).value, Both, 0))
        case Sequence =>
          var direction := ParseDirection(GetOr(d, "direction", Str("both")), show);
          var index := ToInt(GetOr(d, "index", Int(0)));
          if direction.None? || index.None? then None else Some(Match(Sequence, 0, [], direction.value, index.value))
        case Always => Some(Match(Always, 0, [], Both, 0))
  }

  function ParseDisplay(d: Value): Option<Display>
    requires d.Dict?
  {
    match LowerOf(GetOr(d, "display", Str("auto")))
    case None => None
    case Some(name) => Some(if DisplayNamed(name).Some? then DisplayNamed(name).value else Auto)
  }

  function ParseTag(d: Value, show: Show): Option<Tag> {
    if !d.Dict? then None
    else
      var name := Required(d, "name", show);
      var kind := LowerOf(GetOr(d, "value_type", Str("bytes")));
      var display := ParseDisplay(d);
      if name.None? || kind.None? || display.None? then None
      else Some(Tag(name.value, if TypeNamed(kind.value).Some? then TypeNamed(kind.value).value else Bytes,
                    Optional(d, "encoding", "utf8", show), display.value))
  }

  /** What each table does with an entry's value. */
  function LabelReader(show: Show): Value -> Option<string> {
    v => Some(PyStr(v, show))
  }

  function TagReader(show: Show): Value -> Option<Tag> {
    v => ParseTag(v, show)
  }

  function ParseEndianness(d: Value, show: Show): Option<string>
    requires d.Dict?
  {
    var name := Lower(Optional(d, "endianness", "big", show));
    if name == "big" || name == "little" then Some(name) else None
  }

  predicate IsSize(n: int) {
    n == 1 || n == 2 || n == 4
  }

  function ParseTlv(v: Option<Value>, show: Show): Option<Tlv> {
    if v.None? || v.value.Null? then Some(Tlv(1, 2, "big", []))
    else if !v.value.Dict? then None
    else
      var d := v.value;
      var typeSize := ToInt(GetOr(d, "type_size", Int(1)));
      var lengthSize := ToInt(GetOr(d, "length_size", Int(2)));
      var endianness := Lower(Optional(d, "endianness", "big", show));
      var raw := GetOr(d, "tags", Dict([]));
      var tags := Fill([], if raw.Dict? then raw.entries else [], EnumKey, TagReader(show));
      if typeSize.None? || lengthSize.None? || tags.None? || !IsSize(typeSize.value) || !IsSize(lengthSize.value)
        then None
      else Some(Tlv(typeSize.value, lengthSize.value, endianness, tags.value))
  }

  function ParseBits(v: Option<Value>, show: Show): Option<seq<Row<string>>> {
    if v.None? || v.value.Null? then Some([])
    else if !v.value.Dict? then None
    else Fill([], v.value.entries, BitKey, LabelReader(show))
  }

  // ---- fields ----

  function ParseKind(d: Value): Option<FieldType>
    requires d.Dict?
  {
    match LowerOf(GetOr(d, "type", Str("bytes")))
    case None => None
    case Some(name) => TypeNamed(Underscored(name))
  }

  function ParseLength(d: Value, show: Show): Option<string>
    requires d.Dict?
  {
    var length := GetOr(d, "length", Null);
    if length.Null? then None else Some(PyStr(length, show))
  }

  function ParseLabels(d: Value, show: Show): Option<seq<Row<string>>>
    requires d.Dict?
  {
    var raw := GetOr(d, "enum", Dict([]));
    Fill([], if raw.Dict? then raw.entries else [], EnumKey, LabelReader(show))
  }

  /** The parts of a field that hold no other field. */
  function ParsePlain(d: Value, show: Show): Option<Field>
    requires d.Dict?
  {
    var name := Required(d, "name", show);
    var kind := ParseKind(d);
    var display := ParseDisplay(d);
    var labels := ParseLabels(d, show);
    if name.None? || kind.None? || display.None? || labels.None? then None
    else
      var tlv := if kind.value == TlvSequence then ParseTlv(Get(d, "tlv"), show) else None;
      var bits := if kind.value == Bitfield then ParseBits(Get(d, "bits"), show) else None;
      if (kind.value == TlvSequence && tlv.None?) || (kind.value == Bitfield && bits.None?) then None
      else Some(Field(name.value, kind.value, ParseLength(d, show), Truthy(GetOr(d, "null_terminated", Bool(false))),
                      Optional(d, "encoding", "utf8", show), display.value, labels.value, tlv, None, bits))
  }

  function ParseField(d: Value, show: Show): Option<Field>
    decreases d
  {
    if !d.Dict? then None
    else match ParsePlain(d, show)
      case None => None
      case Some(f) =>
        if f.kind != Array then Some(f)
        else match Get(d, "array")
          case None => None
          case Some(a) =>
            GetIsInside(d, "array");
            (match ParseArray(a, show) { case None => None case Some(items) => Some(f.(arrayOf := Some(items))) })
  }

  function ParseArray(d: Value, show: Show): Option<ArrayConfig>
    decreases d
  {
    if !d.Dict? then None
    else
      var count := GetOr(d, "count", Null);
      if count.Null? then None
      else match Get(d, "item")
        case None => Some(ArrayConfig(PyStr(count, show), []))
        case Some(item) =>
          GetIsInside(d, "item");
          if !item.List? then None
          else match ParseFields(item.items, show)
            case None => None
            case Some(fields) => Some(ArrayConfig(PyStr(count, show), fields))
  }

  function ParseFields(vs: seq<Value>, show: Show): Option<seq<Field>>
    decreases vs
  {
    if vs == [] then Some([])
    else
      var first := ParseField(vs[0], show);
      var more := ParseFields(vs[1..], show);
      if first.None? || more.None? then None else Some([first.value] + more.value)
  }

  // ---- messages and protocols ----

  function ParseMessage(d: Value, show: Show): Option<Message> {
    if !d.Dict? then None
    else
      var name := Required(d, "name", show);
      var direction := ParseDirection(GetOr(d, "direction", Str("both")), show);
      var rule := ParseMatch(GetOr(d, "match", Dict([Entry(Key.Text("type"), Str("always"))])), show);
      var raw := GetOr(d, "fields", List([]));
      var fields := if raw.List? then ParseFields(raw.items, show) else None;
      if name.None? || direction.None? || rule.None? || fields.None? then None
      else Some(Message(name.value, Optional(d, "description", "", show), direction.value, rule.value, fields.value))
  }

  function ParseMessages(vs: seq<Value>, show: Show): Option<seq<Message>> {
    if vs == [] then Some([])
    else
      var first := ParseMessage(vs[0], show);
      var more := ParseMessages(vs[1..], show);
      if first.None? || more.None? then None else Some([first.value] + more.value)
  }

  function ParseProtocol(d: Value, show: Show): Option<Protocol>
    requires d.Dict?
  {
    var name := Required(d, "name", show);
    var endianness := ParseEndianness(d, show);
    var raw := GetOr(d, "messages", List([]));
    var messages := if raw.List? then ParseMessages(raw.items, show) else None;
    if name.None? || endianness.None? || messages.None? then None
    else Some(Protocol(name.value, Optional(d, "version", "1.0", show), endianness.value, messages.value))
  }

  function Load(raw: Value, show: Show): Option<Protocol> {
    if !raw.Dict? then None
    else match Get(raw, "protocol")
      case None => ParseProtocol(raw, show)
      case Some(inner) => ParseProtocol(if inner.Dict? then inner else raw, show)
  }

  // ---- the loops that fill a field's tables ----

  method FillEnum(entries: seq<Entry>, show: Show) returns (table: Option<seq<Row<string>>>)
    ensures table == Fill([], entries, EnumKey, LabelReader(show))
  {
    hide EnumKey;
    var rows: seq<Row<string>> := [];
    var i := 0;
    assert entries[0..] == entries;
    while i < |entries|
      invariant 0 <= i <= |entries|
      invariant Fill([], entries, EnumKey, LabelReader(show)) == Fill(rows, entries[i..], EnumKey, LabelReader(show))
    {
      assert entries[i..][0] == entries[i] && entries[i..][1..] == entries[i + 1..];
      var k := EnumKey(entries[i].key);
      if k.None? {
        return None;
      }
      rows, i := SetRow(rows, k.value, PyStr(entries[i].value, show)), i + 1;
    }
    return Some(rows);
  }

  method FillTags(entries: seq<Entry>, show: Show) returns (table: Option<seq<Row<Tag>>>)
    ensures table == Fill([], entries, EnumKey, TagReader(show))
  {
    hide EnumKey, ParseTag;
    var rows: seq<Row<Tag>> := [];
    var i := 0;
    assert entries[0..] == entries;
    while i < |entries|
      invariant 0 <= i <= |entries|
      invariant Fill([], entries, EnumKey, TagReader(show)) == Fill(rows, entries[i..], EnumKey, TagReader(show))
    {
      assert entries[i..][0] == entries[i] && entries[i..][1..] == entries[i + 1..];
      var k := EnumKey(entries[i].key);
      if k.None? {
        return None;
      }
      var tag := ParseTag(entries[i].value, show);
      if tag.None? {
        return None;
      }
      rows, i := SetRow(rows, k.value, tag.value), i + 1;
    }
    return Some(rows);
  }

  method FillBits(entries: seq<Entry>, show: Show) returns (table: Option<seq<Row<string>>>)
    ensures table == Fill([], entries, BitKey, LabelReader(show))
  {
    hide BitKey;
    var rows: seq<Row<string>> := [];
    var i := 0;
    assert entries[0..] == entries;
    while i < |entries|
      invariant 0 <= i <= |entries|
      invariant Fill([], entries, BitKey, LabelReader(show)) == Fill(rows, entries[i..], BitKey, LabelReader(show))
    {
      assert entries[i..][0] == entries[i] && entries[i..][1..] == entries[i + 1..];
      var k := BitKey(entries[i].key);
      if k.None? {
        return None;
      }
      rows, i := SetRow(rows, k.value, PyStr(entries[i].value, show)), i + 1;
    }
    return Some(rows);
  }
}

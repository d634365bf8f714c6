/** Protocol definitions: what the loader produces and the printer takes. */
module Definition {
  import opened Options
  import opened Values

  datatype FieldType = UInt8 | UInt16 | UInt32 | UInt64 | Int8 | Int16 | Int32 | Int64 | Float32 | Float64
                     | Bytes | String | Bitfield | Array | TlvSequence | Padding

  datatype Display = Auto | Hex | Ascii | Unicode | Decimal | Enum

  datatype MatchKind = Magic | Sequence | Always

  datatype Direction = Both | ClientToServer | ServerToClient

  datatype Tag = Tag(name: string, valueType: FieldType, encoding: string, display: Display)

  datatype Tlv = Tlv(typeSize: int, lengthSize: int, endianness: string, tags: seq<Row<Tag>>)

  datatype ArrayConfig = ArrayConfig(count: string, item: seq<Field>)

  datatype Field = Field(name: string, kind: FieldType, length: Option<string>, nullTerminated: bool, encoding: string,
                         display: Display, labels: seq<Row<string>>, tlv: Option<Tlv>, arrayOf: Option<ArrayConfig>,
                         bits: Option<seq<Row<string>>>)

  datatype Match = Match(kind: MatchKind, offset: int, value: seq<int>, direction: Direction, index: int)

  datatype Message = Message(name: string, description: string, direction: Direction, rule: Match, fields: seq<Field>)

  datatype Protocol = Protocol(name: string, version: string, endianness: string, messages: seq<Message>)

  // ---- names ----

  function TypeName(t: FieldType): string {
    match t
    case UInt8 => "uint8"
    case UInt16 => "uint16"
    case UInt32 => "uint32"
    case UInt64 => "uint64"
    case Int8 => "int8"
    case Int16 => "int16"
    case Int32 => "int32"
    case Int64 => "int64"
    case Float32 => "float32"
    case Float64 => "float64"
    case Bytes => "bytes"
    case String => "string"
    case Bitfield => "bitfield"
    case Array => "array"
    case TlvSequence => "tlv_sequence"
    case Padding => "padding"
  }

  const TYPES := [UInt8, UInt16, UInt32, UInt64, Int8, Int16, Int32, Int64, Float32, Float64,
                  Bytes, String, Bitfield, Array, TlvSequence, Padding]

  /** The first type of the list with this name. */
  function TypeIn(types: seq<FieldType>, name: string): Option<FieldType> {
    if types == [] then None else if TypeName(types[0]) == name then Some(types[0]) else TypeIn(types[1..], name)
  }

  function TypeNamed(name: string): Option<FieldType> {
    TypeIn(TYPES, name)
  }

  function DisplayName(d: Display): string {
    match d
    case Auto => "auto"
    case Hex => "hex"
    case Ascii => "ascii"
    case Unicode => "unicode"
    case Decimal => "decimal"
    case Enum => "enum"
  }

  function DisplayNamed(name: string): Option<Display> {
    if name == "auto" then Some(Auto) else if name == "hex" then Some(Hex) else if name == "ascii" then Some(Ascii)
    else if name == "unicode" then Some(Unicode) else if name == "decimal" then Some(Decimal)
    else if name == "enum" then Some(Enum) else None
  }

  function KindName(k: MatchKind): string {
    match k case Magic => "magic" case Sequence => "sequence" case Always => "always"
  }

  function KindNamed(name: string): Option<MatchKind> {
    if name == "magic" then Some(Magic) else if name == "sequence" then Some(Sequence)
    else if name == "always" then Some(Always) else None
  }

  function DirectionName(d: Direction): string {
    match d case Both => "both" case ClientToServer => "client_to_server" case ServerToClient => "server_to_client"
  }

  function DirectionNamed(name: string): Option<Direction> {
    if name == "both" then Some(Both)
    else if name == "client_to_server" || name == "c2s" || name == "client" then Some(ClientToServer)
    else if name == "server_to_client" || name == "s2c" || name == "server" then Some(ServerToClient)
    else None
  }

  lemma {:induction false} TypeNamesBack(t: FieldType)
    ensures TypeNamed(TypeName(t)) == Some(t) && Plain(TypeName(t))
  {
    TypeNamesDiffer(t);
    var i := TypeIndex(t);
    TypeFound(TYPES, t, i);
  }

  function TypeIndex(t: FieldType): (i: nat)
    ensures i < |TYPES| && TYPES[i] == t
  {
    match t
    case UInt8 => 0 case UInt16 => 1 case UInt32 => 2 case UInt64 => 3 case Int8 => 4 case Int16 => 5 case Int32 => 6
    case Int64 => 7 case Float32 => 8 case Float64 => 9 case Bytes => 10 case String => 11 case Bitfield => 12
    case Array => 13 case TlvSequence => 14 case Padding => 15
  }

  lemma {:induction false} TypeFound(types: seq<FieldType>, t: FieldType, i: nat)
    requires i < |types| && types[i] == t
    requires forall u :: TypeName(u) == TypeName(t) ==> u == t
    ensures TypeIn(types, TypeName(t)) == Some(t)
  {
    hide TypeName;
    if i > 0 && types[0] != t {
      TypeFound(types[1..], t, i - 1);
    }
  }

  lemma {:induction false} TypeNamesDiffer(t: FieldType)
    ensures forall u :: TypeName(u) == TypeName(t) ==> u == t
    ensures Plain(TypeName(t))
  {
    forall u | TypeName(u) == TypeName(t) ensures u == t {
      var a, b := TypeName(u), TypeName(t);
      assert |a| == |b| && a[0] == b[0] && a[|a| - 1] == b[|b| - 1] && a[|a| / 2] == b[|b| / 2];
      assert a[1] == b[1] && a[|a| - 2] == b[|b| - 2];
    }
  }

  lemma {:induction false} DisplayNameBack(d: Display)
    ensures DisplayNamed(DisplayName(d)) == Some(d) && Plain(DisplayName(d))
  {
    assert "auto"[0] != "enum"[0] && "unicode"[0] != "decimal"[0];
  }

  lemma {:induction false} KindNameBack(k: MatchKind)
    ensures KindNamed(KindName(k)) == Some(k) && Plain(KindName(k))
  {
  }

  lemma {:induction false} DirectionNameBack(r: Direction)
    ensures DirectionNamed(DirectionName(r)) == Some(r) && Plain(DirectionName(r))
  {
    assert "client_to_server"[0] != "server_to_client"[0];
  }
}

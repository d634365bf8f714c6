/** Printing a protocol definition as the value the loader reads. */
module DefinitionPrinter {
  import opened Definition
  import opened Options
  import opened Values

  function TagToValue(t: Tag): (v: Value)
    ensures v.Dict?
  {
    var d := [Entry(Text("name"), Str(t.name)), Entry(Text("value_type"), Str(TypeName(t.valueType)))];
    var d1 := PutIf(d, t.encoding != "utf8", "encoding", Str(t.encoding));
    Dict(PutIf(d1, t.display != Auto, "display", Str(DisplayName(t.display))))
  }

  function TlvToValue(t: Tlv): (v: Value)
    ensures v.Dict?
  {
    Dict([Entry(Text("type_size"), Int(t.typeSize)), Entry(Text("length_size"), Int(t.lengthSize)),
          Entry(Text("endianness"), Str(t.endianness)), Entry(Text("tags"), Dict(PrintRows(t.tags, TagToValue)))])
  }

  /** The parts of a field that hold no other field, in the printer's order up to `tlv`. */
  function PlainEntries(f: Field): seq<Entry> {
    var d := [Entry(Text("name"), Str(f.name)), Entry(Text("type"), Str(TypeName(f.kind)))];
    var d1 := PutIf(d, f.length.Some?, "length", if f.length.Some? then Str(f.length.value) else Null);
    var d2 := PutIf(d1, f.nullTerminated, "null_terminated", Bool(true));
    var d3 := PutIf(d2, f.encoding != "utf8", "encoding", Str(f.encoding));
    var d4 := PutIf(d3, f.display != Auto, "display", Str(DisplayName(f.display)));
    var d5 := PutIf(d4, f.labels != [], "enum", Dict(PrintRows(f.labels, LabelToValue)));
    PutIf(d5, f.tlv.Some?, "tlv", if f.tlv.Some? then TlvToValue(f.tlv.value) else Null)
  }

  function LabelToValue(s: string): Value {
    Str(s)
  }

  function FieldToValue(f: Field): (v: Value)
    ensures v.Dict?
    decreases f
  {
    var d := PutIf(PlainEntries(f), f.arrayOf.Some?, "array",
                   if f.arrayOf.Some? then ArrayToValue(f.arrayOf.value) else Null);
    Dict(PutIf(d, f.bits.Some?, "bits", if f.bits.Some? then Dict(PrintRows(f.bits.value, LabelToValue)) else Null))
  }

  function ArrayToValue(a: ArrayConfig): (v: Value)
    ensures v.Dict?
    decreases a
  {
    Dict([Entry(Text("count"), Str(a.count)), Entry(Text("item"), List(FieldsToValues(a.item)))])
  }

  function FieldsToValues(fs: seq<Field>): seq<Value>
    decreases fs
  {
    if fs == [] then [] else [FieldToValue(fs[0])] + FieldsToValues(fs[1..])
  }

  function Ints(ns: seq<int>): seq<Value> {
    if ns == [] then [] else [Int(ns[0])] + Ints(ns[1..])
  }

  function MatchToValue(m: Match): (v: Value)
    ensures v.Dict?
  {
    match m.kind
    case Magic =>
      Dict([Entry(Text("type"), Str("magic")), Entry(Text("offset"), Int(m.offset)),
            Entry(Text("value"), List(Ints(m.value)))])
    case Sequence =>
      Dict([Entry(Text("type"), Str("sequence")), Entry(Text("direction"), Str(DirectionName(m.direction))),
            Entry(Text("index"), Int(m.index))])
    case Always => Dict([Entry(Text("type"), Str("always"))])
  }

  function MessageToValue(m: Message): (v: Value)
    ensures v.Dict?
  {
    var d := [Entry(Text("name"), Str(m.name)), Entry(Text("direction"), Str(DirectionName(m.direction))),
              Entry(Text("match"), MatchToValue(m.rule)), Entry(Text("fields"), List(FieldsToValues(m.fields)))];
    Dict(PutIf(d, m.description != "", "description", Str(m.description)))
  }

  function MessagesToValues(ms: seq<Message>): seq<Value> {
    if ms == [] then [] else [MessageToValue(ms[0])] + MessagesToValues(ms[1..])
  }

  function ToValue(p: Protocol): (v: Value)
    ensures v.Dict?
  {
    Dict([Entry(Text("name"), Str(p.name)), Entry(Text("version"), Str(p.version)),
          Entry(Text("endianness"), Str(p.endianness)), Entry(Text("messages"), List(MessagesToValues(p.messages)))])
  }
}

/** Walking a type-length-value chain, and the encoding it inverts. */
module Tlv {
  import opened Bytes
  import opened Options

  /** Field widths, byte order, and whether the length counts the header too. */
  datatype ShapeFields = Shape(typeWidth: nat, lengthWidth: nat, order: ByteOrder, includesHeader: bool)
  {
    function Header(): nat {
      typeWidth + lengthWidth
    }
  }

  type Shape = s: ShapeFields | s.Header() > 0 witness ShapeFields.Shape(1, 1, Big, false)

  /** A record as reported: its type, its raw length field, and the offset just after it. */
  datatype Record = Record(rtype: nat, length: nat, end: nat)

  function TypeAt(raw: seq<byte>, pos: nat, s: Shape): nat
    requires pos + s.Header() <= |raw|
  {
    FromBytes(raw[pos..pos + s.typeWidth], s.order)
  }

  function LengthAt(raw: seq<byte>, pos: nat, s: Shape): nat
    requires pos + s.Header() <= |raw|
  {
    FromBytes(raw[pos + s.typeWidth..pos + s.Header()], s.order)
  }

  /** Bytes of value announced by a length field. */
  function ValueLength(s: Shape, length: nat): int {
    if s.includesHeader then length - s.Header() else length
  }

  /** A record at `pos` that fits the buffer. */
  function RecordAt(raw: seq<byte>, pos: nat, s: Shape): Option<Record> {
    if pos + s.Header() > |raw| then None
    else
      var length := LengthAt(raw, pos, s);
      var v := ValueLength(s, length);
      if v < 0 || pos + s.Header() + v > |raw| then None
      else Some(Record(TypeAt(raw, pos, s), length, pos + s.Header() + v))
  }

  /** At most `budget` records from `pos` on, or nothing when one does not fit. */
  function Walk(raw: seq<byte>, pos: nat, s: Shape, budget: nat): Option<seq<Record>>
    decreases budget
  {
    if pos >= |raw| || budget == 0 then Some([])
    else match RecordAt(raw, pos, s)
      case None => None
      case Some(r) => Onto([r], Walk(raw, r.end, s, budget - 1))
  }

  method TryTlvWalk(raw: seq<byte>, start: nat, s: Shape, maxRecords: nat) returns (out: Option<seq<Record>>)
    ensures out == Walk(raw, start, s, maxRecords)
  {
    var found: seq<Record> := [];
    var pos: nat := start;
    OntoNothing(Walk(raw, start, s, maxRecords));
    hide FromBytes;
    while pos < |raw| && |found| < maxRecords
      invariant |found| <= maxRecords
      invariant Walk(raw, start, s, maxRecords) == Onto(found, Walk(raw, pos, s, maxRecords - |found|))
      decreases maxRecords - |found|
    {
      if pos + s.Header() > |raw| {
        return None;
      }
      var t := FromBytes(raw[pos..pos + s.typeWidth], s.order);
      var lv := FromBytes(raw[pos + s.typeWidth..pos + s.Header()], s.order);
      var valueLength := if s.includesHeader then lv - s.Header() else lv;
      if valueLength < 0 {
        return None;
      }
      var recordEnd := pos + s.Header() + valueLength;
      if recordEnd > |raw| {
        return None;
      }
      OntoMore(found, [Record(t, lv, recordEnd)], Walk(raw, recordEnd, s, maxRecords - |found| - 1));
      found := found + [Record(t, lv, recordEnd)];
      pos := recordEnd;
    }
    assert found + [] == found;
    return Some(found);
  }

  // ---- what a record says ----

  /**
   A record is read where its header lies inside the buffer and its end does too; the end is behind as many
   bytes of value as its length field says, the header counted in or not.
   */
  lemma {:induction false} RecordSays(raw: seq<byte>, pos: nat, s: Shape)
    ensures pos + s.typeWidth + s.lengthWidth > |raw| ==> RecordAt(raw, pos, s).None?
    ensures pos + s.typeWidth + s.lengthWidth <= |raw| ==>
              var start := pos + s.typeWidth + s.lengthWidth;
              var rtype, length := FromBytes(raw[pos..pos + s.typeWidth], s.order),
                                   FromBytes(raw[pos + s.typeWidth..start], s.order);
              && (s.includesHeader ==>
                    RecordAt(raw, pos, s) ==
                      if length < s.typeWidth + s.lengthWidth || pos + length > |raw| then None
                      else Some(Record(rtype, length, pos + length)))
              && (!s.includesHeader ==>
                    RecordAt(raw, pos, s) ==
                      if start + length > |raw| then None else Some(Record(rtype, length, start + length)))
  {
    hide FromBytes;
  }

  // ---- a walk tiles the buffer ----

  /** Records lie back to back from `pos`; each says what the buffer holds there. */
  ghost predicate Tiles(raw: seq<byte>, pos: nat, s: Shape, rs: seq<Record>)
    decreases |rs|
  {
    rs != [] ==> RecordAt(raw, pos, s) == Some(rs[0]) && rs[0].end > pos && Tiles(raw, rs[0].end, s, rs[1..])
  }

  function EndOf(pos: nat, rs: seq<Record>): nat {
    if rs == [] then pos else rs[|rs| - 1].end
  }

  /** A successful walk covers the buffer contiguously to its very end, unless the record limit stopped it. */
  lemma {:induction false} WalkTiles(raw: seq<byte>, pos: nat, s: Shape, budget: nat)
    requires Walk(raw, pos, s, budget).Some?
    ensures var rs := Walk(raw, pos, s, budget).value;
            && Tiles(raw, pos, s, rs)
            && |rs| <= budget
            && (pos <= |raw| ==> EndOf(pos, rs) <= |raw|)
            && (pos <= |raw| && |rs| < budget ==> EndOf(pos, rs) == |raw|)
    decreases budget
  {
    if pos < |raw| && budget > 0 {
      var r := RecordAt(raw, pos, s).value;
      WalkTiles(raw, r.end, s, budget - 1);
      var rest := Walk(raw, r.end, s, budget - 1).value;
      assert ([r] + rest)[1..] == rest;
    }
  }

  /** It fails only when some record of the chain, within the limit, does not fit. */
  lemma {:induction false} WalkFailsOnMisfit(raw: seq<byte>, pos: nat, s: Shape, budget: nat)
    returns (rs: seq<Record>)
    requires Walk(raw, pos, s, budget).None?
    ensures |rs| < budget && Tiles(raw, pos, s, rs) && EndOf(pos, rs) < |raw|
    ensures RecordAt(raw, EndOf(pos, rs), s).None?
    decreases budget
  {
    if RecordAt(raw, pos, s).None? {
      rs := [];
    } else {
      var r := RecordAt(raw, pos, s).value;
      var rest := WalkFailsOnMisfit(raw, r.end, s, budget - 1);
      rs := [r] + rest;
      assert rs[1..] == rest;
    }
  }

  // ---- encoding ----

  datatype Entry = Entry(rtype: nat, value: seq<byte>)

  function RawLength(s: Shape, e: Entry): nat {
    |e.value| + if s.includesHeader then s.Header() else 0
  }

  /** The type and the length fit their fields. */
  predicate Fits(s: Shape, e: Entry) {
    e.rtype < Limit(s.typeWidth) && RawLength(s, e) < Limit(s.lengthWidth)
  }

  function EncodeEntry(s: Shape, e: Entry): (r: seq<byte>)
    ensures |r| == s.Header() + |e.value|
  {
    ToBytes(e.rtype, s.typeWidth, s.order) + ToBytes(RawLength(s, e), s.lengthWidth, s.order) + e.value
  }

  function Encode(s: Shape, es: seq<Entry>): seq<byte> {
    if es == [] then [] else EncodeEntry(s, es[0]) + Encode(s, es[1..])
  }

  /** The records a walk should report for entries encoded from `pos` on. */
  function Reported(s: Shape, pos: nat, es: seq<Entry>): seq<Record>
    decreases |es|
  {
    if es == [] then []
    else
      var end := pos + s.Header() + |es[0].value|;
      [Record(es[0].rtype, RawLength(s, es[0]), end)] + Reported(s, end, es[1..])
  }

  lemma {:induction false} RecordAtEncoded(x: seq<byte>, s: Shape, e: Entry, y: seq<byte>)
    requires Fits(s, e)
    ensures RecordAt(x + EncodeEntry(s, e) + y, |x|, s) ==
              Some(Record(e.rtype, RawLength(s, e), |x| + |EncodeEntry(s, e)|))
  {
    hide FromBytes, ToBytes;
    var t, l := ToBytes(e.rtype, s.typeWidth, s.order), ToBytes(RawLength(s, e), s.lengthWidth, s.order);
    FieldSlices(x, t, l, e.value + y);
    assert x + EncodeEntry(s, e) + y == x + t + l + (e.value + y);
    RoundTrip(e.rtype, s.typeWidth, s.order);
    RoundTrip(RawLength(s, e), s.lengthWidth, s.order);
  }

  lemma {:induction false} FieldSlices(x: seq<byte>, t: seq<byte>, l: seq<byte>, y: seq<byte>)
    ensures (x + t + l + y)[|x|..|x| + |t|] == t
    ensures (x + t + l + y)[|x| + |t|..|x| + (|t| + |l|)] == l
  {
  }

  function AtMost(es: seq<Entry>, budget: nat): seq<Entry> {
    if |es| <= budget then es else es[..budget]
  }

  /** Walking an encoding reports its entries: types, raw lengths and cumulative ends, up to the limit. */
  lemma {:induction false} WalkEncoded(x: seq<byte>, s: Shape, es: seq<Entry>, budget: nat)
    requires forall e :: e in es ==> Fits(s, e)
    ensures Walk(x + Encode(s, es), |x|, s, budget) == Some(Reported(s, |x|, AtMost(es, budget)))
    decreases |es|
  {
    hide EncodeEntry, RecordAt, Fits;
    if es != [] && budget > 0 {
      var e, rest := EncodeEntry(s, es[0]), Encode(s, es[1..]);
      assert es[0] in es;
      RecordAtEncoded(x, s, es[0], rest);
      assert x + Encode(s, es) == (x + e) + rest;
      WalkEncoded(x + e, s, es[1..], budget - 1);
      assert AtMost(es, budget)[1..] == AtMost(es[1..], budget - 1);
    }
  }

  // ---- the other direction ----

  /** The entries a list of records stands for. */
  function Extract(raw: seq<byte>, pos: nat, s: Shape, rs: seq<Record>): seq<Entry>
    requires Tiles(raw, pos, s, rs)
    decreases |rs|
  {
    if rs == [] then []
    else [Entry(rs[0].rtype, raw[pos + s.Header()..rs[0].end])] + Extract(raw, rs[0].end, s, rs[1..])
  }

  lemma {:induction false} EntryRoundTrip(raw: seq<byte>, pos: nat, s: Shape)
    requires RecordAt(raw, pos, s).Some?
    ensures var r := RecordAt(raw, pos, s).value;
            var e := Entry(r.rtype, raw[pos + s.Header()..r.end]);
            Fits(s, e) && RawLength(s, e) == r.length && EncodeEntry(s, e) == raw[pos..r.end]
  {
    hide FromBytes, ToBytes, Limit, RecordAt;
    RecordParts(raw, pos, s);
    FieldRoundTrip(raw[pos..pos + s.typeWidth], s.order);
    FieldRoundTrip(raw[pos + s.typeWidth..pos + s.Header()], s.order);
    var r := RecordAt(raw, pos, s).value;
    ThreeParts(raw, pos, pos + s.typeWidth, pos + s.Header(), r.end);
  }

  lemma {:induction false} RecordParts(raw: seq<byte>, pos: nat, s: Shape)
    requires RecordAt(raw, pos, s).Some?
    ensures var r := RecordAt(raw, pos, s).value;
            && pos + s.Header() <= r.end <= |raw| && r.rtype == TypeAt(raw, pos, s) && r.length == LengthAt(raw, pos, s)
            && r.end - pos - s.Header() == ValueLength(s, r.length)
  {
    hide TypeAt, LengthAt;
  }

  lemma {:induction false} ThreeParts(raw: seq<byte>, i: nat, j: nat, k: nat, end: nat)
    requires i <= j <= k <= end <= |raw|
    ensures raw[i..j] + raw[j..k] + raw[k..end] == raw[i..end]
  {
  }

  lemma {:induction false} RecordEnds(raw: seq<byte>, pos: nat, s: Shape)
    requires RecordAt(raw, pos, s).Some?
    ensures pos + s.Header() <= RecordAt(raw, pos, s).value.end <= |raw|
  {
    hide LengthAt, TypeAt;
  }

  /** Encoding what a walk found gives back exactly the bytes it covered. */
  lemma {:induction false} EncodeWalked(raw: seq<byte>, pos: nat, s: Shape, rs: seq<Record>)
    requires pos <= |raw| && Tiles(raw, pos, s, rs)
    ensures pos <= EndOf(pos, rs) <= |raw|
    ensures Encode(s, Extract(raw, pos, s, rs)) == raw[pos..EndOf(pos, rs)]
    decreases |rs|
  {
    hide RecordAt, EncodeEntry, RawLength, Fits;
    if rs != [] {
      RecordEnds(raw, pos, s);
      EncodeWalked(raw, rs[0].end, s, rs[1..]);
      EntryRoundTrip(raw, pos, s);
      assert EndOf(pos, rs) == EndOf(rs[0].end, rs[1..]);
      assert raw[pos..EndOf(pos, rs)] == raw[pos..rs[0].end] + raw[rs[0].end..EndOf(pos, rs)];
    }
  }
}

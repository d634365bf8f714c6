/**
 The replace-rule script that points every DNS A record at 127.0.0.1: one pass over a buffer that is
 rewritten while it is still being parsed (message format of sections 4.1.1 to 4.1.4 of RFC 1035).
 */
module Dns {
  import opened Bytes
  import opened Options

  const LOCALHOST: seq<byte> := [127, 0, 0, 1]

  /** A resource record as found in a message; `fixed` is the offset of its TYPE field. */
  datatype RR = RR(fixed: nat, rrtype: nat, rrclass: nat, rdlength: nat)
  {
    function Rdata(): nat { fixed + 10 }
    function End(): nat { fixed + 10 + rdlength }
    predicate IsAddress() { rrtype == 1 && rrclass == 1 && rdlength == 4 }
  }

  function U16(d: seq<byte>, o: nat): nat
    requires o + 2 <= |d|
  {
    d[o] as nat * 256 + d[o + 1] as nat
  }

  /** Offset of the first byte after a name; a byte of 192 or more starts a two-byte pointer. */
  function SkipName(d: seq<byte>, offset: nat): (r: nat)
    decreases |d| - offset
  {
    if offset >= |d| then |d|
    else if d[offset] == 0 then offset + 1
    else if d[offset] >= 192 then offset + 2
    else SkipName(d, offset + 1 + d[offset] as nat)
  }

  /** Offset after `n` questions, or nothing when they run off the message. */
  function SkipQuestions(d: seq<byte>, offset: nat, n: nat): Option<nat>
    decreases n
  {
    if n == 0 then Some(offset)
    else
      var next := SkipName(d, offset) + 4;
      if next > |d| then None else SkipQuestions(d, next, n - 1)
  }

  /** The record whose name starts at `offset`, when it lies inside the message. */
  function RecordAt(d: seq<byte>, offset: nat): Option<RR> {
    var fixed := SkipName(d, offset);
    if fixed + 10 > |d| then None
    else
      var rr := RR(fixed, U16(d, fixed), U16(d, fixed + 2), U16(d, fixed + 8));
      if rr.End() > |d| then None else Some(rr)
  }

  function Records(d: seq<byte>, offset: nat, n: nat): Option<seq<RR>>
    decreases n
  {
    if n == 0 then Some([])
    else match RecordAt(d, offset)
      case None => None
      case Some(rr) => Onto([rr], Records(d, rr.End(), n - 1))
  }

  function RecordCount(d: seq<byte>): nat
    requires |d| >= 12
  {
    U16(d, 6) + U16(d, 8) + U16(d, 10)
  }

  /** All records of a message, or nothing when it is malformed. */
  function Parse(d: seq<byte>): Option<seq<RR>> {
    if |d| < 12 then None
    else match SkipQuestions(d, 12, U16(d, 4))
      case None => None
      case Some(offset) => Records(d, offset, RecordCount(d))
  }

  /** Replaces the RDATA of an address record. */
  function Patch(d: seq<byte>, rr: RR): (r: seq<byte>)
    ensures |r| == |d|
  {
    if rr.IsAddress() && rr.End() <= |d| then d[..rr.Rdata()] + LOCALHOST + d[rr.End()..] else d
  }

  function Rewritten(d: seq<byte>, rrs: seq<RR>): (r: seq<byte>)
    ensures |r| == |d|
  {
    if rrs == [] then d else Patch(Rewritten(d, rrs[..|rrs| - 1]), rrs[|rrs| - 1])
  }

  function AddressCount(rrs: seq<RR>): nat {
    if rrs == [] then 0
    else AddressCount(rrs[..|rrs| - 1]) + if rrs[|rrs| - 1].IsAddress() then 1 else 0
  }

  /** What the script is for: a rewrite of the parse of the untouched message. */
  function Spec(d: seq<byte>): seq<byte> {
    match Parse(d)
    case None => d
    case Some(rrs) => Rewritten(d, rrs)
  }

  // ---- parsing looks only forward ----

  ghost predicate SameFrom(x: seq<byte>, y: seq<byte>, offset: nat) {
    |x| == |y| && forall i :: offset <= i < |x| ==> x[i] == y[i]
  }

  lemma {:induction false} SkipNameForward(x: seq<byte>, y: seq<byte>, offset: nat)
    requires SameFrom(x, y, offset)
    ensures SkipName(x, offset) == SkipName(y, offset)
    ensures offset <= |x| ==> SkipName(x, offset) >= offset
    decreases |x| - offset
  {
    if offset < |x| && x[offset] != 0 && x[offset] < 192 {
      SkipNameForward(x, y, offset + 1 + x[offset] as nat);
    }
  }

  /** A record is read from its own bytes up to RDLENGTH, all at or after `offset`. */
  lemma {:induction false} RecordAtForward(x: seq<byte>, y: seq<byte>, offset: nat)
    requires SameFrom(x, y, offset) && offset <= |x|
    ensures RecordAt(x, offset) == RecordAt(y, offset)
    ensures RecordAt(x, offset).Some? ==>
              offset <= RecordAt(x, offset).value.fixed && RecordAt(x, offset).value.End() <= |x|
  {
    SkipNameForward(x, y, offset);
  }

  lemma {:induction false} RecordsForward(x: seq<byte>, y: seq<byte>, offset: nat, n: nat)
    requires SameFrom(x, y, offset) && offset <= |x|
    ensures Records(x, offset, n) == Records(y, offset, n)
    decreases n
  {
    if n > 0 {
      RecordAtForward(x, y, offset);
      if RecordAt(x, offset).Some? {
        RecordsForward(x, y, RecordAt(x, offset).value.End(), n - 1);
      }
    }
  }

  /** Records follow one another, from `offset` on, inside a message of `size` bytes. */
  ghost predicate Chain(rrs: seq<RR>, offset: nat, size: nat) {
    && (forall k :: 0 <= k < |rrs| ==> offset <= rrs[k].fixed && rrs[k].End() <= size)
    && (forall j, k :: 0 <= j < k < |rrs| ==> rrs[j].End() <= rrs[k].fixed)
  }

  lemma {:induction false} RecordsChain(d: seq<byte>, offset: nat, n: nat)
    requires offset <= |d| && Records(d, offset, n).Some?
    ensures Chain(Records(d, offset, n).value, offset, |d|) && |Records(d, offset, n).value| == n
    decreases n
  {
    if n > 0 {
      RecordAtForward(d, d, offset);
      var rr := RecordAt(d, offset).value;
      RecordsChain(d, rr.End(), n - 1);
      var rest := Records(d, rr.End(), n - 1).value;
      assert Records(d, offset, n).value == [rr] + rest;
    }
  }

  lemma {:induction false} QuestionsBounds(d: seq<byte>, offset: nat, n: nat)
    requires offset <= |d| && SkipQuestions(d, offset, n).Some?
    ensures offset <= SkipQuestions(d, offset, n).value <= |d|
    decreases n
  {
    if n > 0 {
      SkipNameForward(d, d, offset);
      QuestionsBounds(d, SkipName(d, offset) + 4, n - 1);
    }
  }

  lemma {:induction false} ParseChain(d: seq<byte>)
    requires Parse(d).Some?
    ensures Chain(Parse(d).value, 12, |d|)
  {
    QuestionsBounds(d, 12, U16(d, 4));
    RecordsChain(d, SkipQuestions(d, 12, U16(d, 4)).value, RecordCount(d));
  }

  // ---- what the rewrite changes ----

  predicate InAddress(rr: RR, i: nat) {
    rr.IsAddress() && rr.Rdata() <= i < rr.End()
  }

  /** Bytes outside address RDATA are kept and every address is 127.0.0.1. */
  ghost predicate IsRewrite(d: seq<byte>, rrs: seq<RR>, out: seq<byte>) {
    && |out| == |d|
    && (forall i :: 0 <= i < |d| && (forall k :: 0 <= k < |rrs| ==> !InAddress(rrs[k], i)) ==> out[i] == d[i])
    && (forall k, i: nat :: 0 <= k < |rrs| && rrs[k].End() <= |d| && InAddress(rrs[k], i) ==>
        out[i] == LOCALHOST[i - rrs[k].Rdata()])
  }

  lemma {:induction false} PatchPointwise(d: seq<byte>, rr: RR, i: nat)
    requires i < |d| && rr.End() <= |d|
    ensures Patch(d, rr)[i] == if InAddress(rr, i) then LOCALHOST[i - rr.Rdata()] else d[i]
  {
  }

  lemma {:induction false} RewrittenIsRewrite(d: seq<byte>, rrs: seq<RR>, offset: nat)
    requires Chain(rrs, offset, |d|)
    ensures IsRewrite(d, rrs, Rewritten(d, rrs))
    decreases |rrs|
  {
    if rrs != [] {
      var init, last := rrs[..|rrs| - 1], rrs[|rrs| - 1];
      RewrittenIsRewrite(d, init, offset);
      var before, out := Rewritten(d, init), Rewritten(d, rrs);
      forall i | 0 <= i < |d| && (forall k :: 0 <= k < |rrs| ==> !InAddress(rrs[k], i))
        ensures out[i] == d[i]
      {
        PatchPointwise(before, last, i);
        assert forall k :: 0 <= k < |init| ==> init[k] == rrs[k];
      }
      forall k, i: nat | 0 <= k < |rrs| && rrs[k].End() <= |d| && InAddress(rrs[k], i)
        ensures out[i] == LOCALHOST[i - rrs[k].Rdata()]
      {
        PatchPointwise(before, last, i);
        if k < |init| {
          assert init[k] == rrs[k] && rrs[k].End() <= last.fixed;
        }
      }
    }
  }

  /** There is only one rewrite of a message. */
  lemma {:induction false} RewriteIsUnique(d: seq<byte>, rrs: seq<RR>, offset: nat, x: seq<byte>, y: seq<byte>)
    requires Chain(rrs, offset, |d|) && IsRewrite(d, rrs, x) && IsRewrite(d, rrs, y)
    ensures x == y
  {
    forall i | 0 <= i < |d|
      ensures x[i] == y[i]
    {
      if exists k :: 0 <= k < |rrs| && InAddress(rrs[k], i) {
        var k :| 0 <= k < |rrs| && InAddress(rrs[k], i);
        assert x[i] == LOCALHOST[i - rrs[k].Rdata()];
      }
    }
  }

  /** A message that differs only inside the address RDATA of its records parses to the same records. */
  lemma {:induction false} RecordsSurvive(d: seq<byte>, out: seq<byte>, offset: nat, n: nat)
    requires offset <= |d| && Records(d, offset, n).Some?
    requires |out| == |d|
    requires forall i :: offset <= i < |d| && (forall k :: 0 <= k < n ==> !InAddress(RecordsOf(d, offset, n)[k], i)) ==>
               out[i] == d[i]
    ensures Records(out, offset, n) == Records(d, offset, n)
    decreases n
  {
    if n > 0 {
      RecordAtForward(d, d, offset);
      var rr := RecordAt(d, offset).value;
      var rest := RecordsOf(d, rr.End(), n - 1);
      RecordsChain(d, offset, n);
      RecordsChain(d, rr.End(), n - 1);
      assert RecordsOf(d, offset, n) == [rr] + rest;
      FirstRecordKept(d, out, rr, rest, offset);
      SameRecord(d, out, offset);
      RecordsSurvive(d, out, rr.End(), n - 1);
    }
  }

  /** What one record leaves of the bytes that must not change: those before its RDATA, and those after it. */
  lemma {:induction false} FirstRecordKept(d: seq<byte>, out: seq<byte>, rr: RR, rest: seq<RR>, offset: nat)
    requires |out| == |d| && rr.End() <= |d|
    requires Chain([rr] + rest, offset, |d|)
    requires var rrs := [rr] + rest;
             forall i :: offset <= i < |d| && (forall k :: 0 <= k < |rrs| ==> !InAddress(rrs[k], i)) ==>
               out[i] == d[i]
    ensures forall i :: offset <= i < rr.Rdata() ==> out[i] == d[i]
    ensures forall i :: rr.End() <= i < |d| && (forall k :: 0 <= k < |rest| ==> !InAddress(rest[k], i)) ==>
              out[i] == d[i]
  {
    var rrs := [rr] + rest;
    assert rrs[0] == rr && forall k :: 0 <= k < |rest| ==> rrs[k + 1] == rest[k];
    forall i | offset <= i < rr.Rdata()
      ensures out[i] == d[i]
    {
      assert forall k :: 0 <= k < |rrs| ==> !InAddress(rrs[k], i);
    }
    forall i | rr.End() <= i < |d| && (forall k :: 0 <= k < |rest| ==> !InAddress(rest[k], i))
      ensures out[i] == d[i]
    {
      forall k | 0 <= k < |rrs|
        ensures !InAddress(rrs[k], i)
      {
        assert k > 0 ==> rrs[k] == rest[k - 1];
      }
    }
  }

  function RecordsOf(d: seq<byte>, offset: nat, n: nat): (r: seq<RR>)
    requires offset <= |d| && Records(d, offset, n).Some?
    ensures |r| == n
  {
    RecordsChain(d, offset, n);
    Records(d, offset, n).value
  }

  lemma {:induction false} SameRecord(d: seq<byte>, out: seq<byte>, offset: nat)
    requires offset <= |d| == |out| && RecordAt(d, offset).Some?
    requires forall i :: offset <= i < RecordAt(d, offset).value.Rdata() ==> out[i] == d[i]
    ensures RecordAt(out, offset) == RecordAt(d, offset)
  {
    SameName(d, out, offset);
    SkipNameForward(d, d, offset);
  }

  lemma {:induction false} SameName(d: seq<byte>, out: seq<byte>, offset: nat)
    requires |out| == |d|
    requires forall i :: offset <= i < SkipName(d, offset) && i < |d| ==> out[i] == d[i]
    ensures SkipName(out, offset) == SkipName(d, offset)
    decreases |d| - offset
  {
    SkipNameForward(d, d, offset);
    if offset < |d| {
      if d[offset] != 0 && d[offset] < 192 {
        var next := offset + 1 + d[offset] as nat;
        if next <= |d| {
          SkipNameForward(d, d, next);
        }
        SameName(d, out, next);
      }
    }
  }

  // ---- main results on the specification ----

  lemma {:induction false} QuestionsSurvive(d: seq<byte>, out: seq<byte>, offset: nat, n: nat)
    requires |out| == |d| && offset <= |d| && SkipQuestions(d, offset, n).Some?
    requires forall i :: offset <= i < SkipQuestions(d, offset, n).value && i < |d| ==> out[i] == d[i]
    ensures SkipQuestions(out, offset, n) == SkipQuestions(d, offset, n)
    decreases n
  {
    if n > 0 {
      SkipNameForward(d, d, offset);
      var next := SkipName(d, offset) + 4;
      QuestionsBounds(d, next, n - 1);
      SameName(d, out, offset);
      QuestionsSurvive(d, out, next, n - 1);
    }
  }

  /** The rewritten message has the same header, questions and record structure. */
  lemma {:induction false} ParseSurvives(d: seq<byte>, out: seq<byte>)
    requires Parse(d).Some? && IsRewrite(d, Parse(d).value, out)
    ensures Parse(out) == Parse(d)
  {
    hide SkipQuestions, Records;
    var offset := SkipQuestions(d, 12, U16(d, 4)).value;
    QuestionsBounds(d, 12, U16(d, 4));
    RecordsChain(d, offset, RecordCount(d));
    var rrs, n := Parse(d).value, RecordCount(d);
    BeforeRecordsKept(d, rrs, offset, out);
    QuestionsSurvive(d, out, 12, U16(d, 4));
    assert rrs == RecordsOf(d, offset, n);
    forall i | offset <= i < |d| && (forall k :: 0 <= k < n ==> !InAddress(RecordsOf(d, offset, n)[k], i))
      ensures out[i] == d[i]
    {
      assert forall k :: 0 <= k < |rrs| ==> !InAddress(rrs[k], i);
    }
    RecordsSurvive(d, out, offset, RecordCount(d));
  }

  lemma {:induction false} BeforeRecordsKept(d: seq<byte>, rrs: seq<RR>, offset: nat, out: seq<byte>)
    requires Chain(rrs, offset, |d|) && IsRewrite(d, rrs, out)
    ensures forall i :: 0 <= i < offset && i < |d| ==> out[i] == d[i]
  {
    forall i | 0 <= i < offset && i < |d|
      ensures out[i] == d[i]
    {
      assert forall k :: 0 <= k < |rrs| ==> !InAddress(rrs[k], i);
    }
  }

  /**
   The rewrite of a parseable message changes exactly the RDATA of its address records, keeps its
   record structure, and is the only message that does so; a malformed one comes back untouched.
   */
  lemma {:induction false} SpecRewrites(d: seq<byte>)
    ensures |Spec(d)| == |d|
    ensures Parse(d).None? ==> Spec(d) == d
    ensures Parse(d).Some? ==> IsRewrite(d, Parse(d).value, Spec(d))
    ensures Parse(d).Some? ==> forall out :: IsRewrite(d, Parse(d).value, out) ==> out == Spec(d)
    ensures Parse(Spec(d)) == Parse(d)
  {
    if Parse(d).Some? {
      var rrs := Parse(d).value;
      ParseChain(d);
      RewrittenIsRewrite(d, rrs, 12);
      ParseSurvives(d, Spec(d));
      forall out | IsRewrite(d, rrs, out)
        ensures out == Spec(d)
      {
        RewriteIsUnique(d, rrs, 12, out, Spec(d));
      }
    }
  }

  /** Rewriting twice is rewriting once. */
  lemma {:induction false} SpecIdempotent(d: seq<byte>)
    ensures Spec(Spec(d)) == Spec(d)
  {
    SpecRewrites(d);
    SpecRewrites(Spec(d));
    if Parse(d).Some? {
      var rrs, out := Parse(d).value, Spec(d);
      assert IsRewrite(out, rrs, out);
    }
  }

  // ---- messages built from their parts ----

  /** A name: labels, then a zero byte or a compression pointer. */
  datatype Name = Name(labels: seq<seq<byte>>, pointer: Option<(byte, byte)>)
  {
    ghost predicate Valid() {
      && (forall l :: l in labels ==> 1 <= |l| < 192)
      && (pointer.Some? ==> pointer.value.0 >= 192)
    }
  }

  function EncodeLabels(labels: seq<seq<byte>>): seq<byte>
    requires forall l :: l in labels ==> 1 <= |l| < 192
  {
    if labels == [] then [] else [|labels[0]| as byte] + labels[0] + EncodeLabels(labels[1..])
  }

  function EncodeName(n: Name): seq<byte>
    requires n.Valid()
  {
    EncodeLabels(n.labels) + (if n.pointer.None? then [0] else [n.pointer.value.0, n.pointer.value.1])
  }

  function Encode16(n: nat): (r: seq<byte>)
    requires n < 65536
    ensures |r| == 2
  {
    [(n / 256) as byte, (n % 256) as byte]
  }

  /** A question's type and class take four bytes; a record's type, class and TTL are kept as given. */
  datatype Question = Question(name: Name, typeClass: seq<byte>)
  datatype Record = Record(name: Name, rrtype: nat, rrclass: nat, ttl: seq<byte>, rdata: seq<byte>)
  {
    ghost predicate Valid() {
      name.Valid() && rrtype < 65536 && rrclass < 65536 && |ttl| == 4 && |rdata| < 65536
    }

    predicate IsAddress() {
      rrtype == 1 && rrclass == 1 && |rdata| == 4
    }
  }

  ghost predicate AllValid(rs: seq<Record>) {
    forall k :: 0 <= k < |rs| ==> rs[k].Valid()
  }

  function EncodeRecord(r: Record): seq<byte>
    requires r.Valid()
  {
    EncodeName(r.name) + Encode16(r.rrtype) + Encode16(r.rrclass) + r.ttl + Encode16(|r.rdata|) + r.rdata
  }

  function EncodeRecords(rs: seq<Record>): seq<byte>
    requires AllValid(rs)
  {
    if rs == [] then [] else EncodeRecord(rs[0]) + EncodeRecords(rs[1..])
  }

  function EncodeQuestions(qs: seq<Question>): seq<byte>
    requires forall q :: q in qs ==> q.name.Valid()
  {
    if qs == [] then [] else EncodeName(qs[0].name) + qs[0].typeClass + EncodeQuestions(qs[1..])
  }

  datatype Message = Message(idFlags: seq<byte>, questions: seq<Question>, answers: seq<Record>,
                             authority: seq<Record>, additional: seq<Record>)
  {
    ghost predicate Valid() {
      && |idFlags| == 4
      && (forall q :: q in questions ==> q.name.Valid() && |q.typeClass| == 4)
      && AllValid(answers) && AllValid(authority) && AllValid(additional)
      && |questions| < 65536 && |answers| < 65536 && |authority| < 65536 && |additional| < 65536
    }
  }

  function EncodeHeader(m: Message): (r: seq<byte>)
    requires m.Valid()
    ensures |r| == 12
  {
    m.idFlags + Encode16(|m.questions|) + Encode16(|m.answers|) + Encode16(|m.authority|) + Encode16(|m.additional|)
  }

  function Encode(m: Message): seq<byte>
    requires m.Valid()
  {
    EncodeHeader(m) + EncodeQuestions(m.questions) + EncodeRecords(AllRecords(m))
  }

  function LocalRecord(r: Record): Record {
    if r.IsAddress() then r.(rdata := LOCALHOST) else r
  }

  function LocalRecords(rs: seq<Record>): (r: seq<Record>)
    ensures |r| == |rs|
    ensures forall k :: 0 <= k < |rs| ==> r[k] == LocalRecord(rs[k])
    ensures AllValid(rs) ==> AllValid(r)
  {
    if rs == [] then [] else [LocalRecord(rs[0])] + LocalRecords(rs[1..])
  }

  /** The message with every address pointing at 127.0.0.1. */
  function Local(m: Message): Message {
    m.(answers := LocalRecords(m.answers), authority := LocalRecords(m.authority),
       additional := LocalRecords(m.additional))
  }

  lemma {:induction false} Decode16(x: seq<byte>, n: nat, y: seq<byte>)
    requires n < 65536
    ensures U16(x + Encode16(n) + y, |x|) == n
  {
  }

  lemma {:induction false} Joined(x: seq<byte>, n: seq<byte>, t: seq<byte>, rest: seq<byte>, y: seq<byte>)
    ensures x + (n + t + rest) + y == x + n + (t + rest + y) == (x + n + t) + rest + y
    ensures x + (n + t + rest) + y == x + n + t + (rest + y)
  {
  }

  lemma {:induction false} FirstLabel(x: seq<byte>, labels: seq<seq<byte>>, y: seq<byte>)
    requires labels != [] && forall l :: l in labels ==> 1 <= |l| < 192
    ensures forall l :: l in labels[1..] ==> 1 <= |l| < 192
    ensures var l, rest := labels[0], EncodeLabels(labels[1..]);
            && 1 <= |l| < 192 && |EncodeLabels(labels)| == 1 + |l| + |rest|
            && x + EncodeLabels(labels) + y == x + [|l| as byte] + l + (rest + y) == (x + [|l| as byte] + l) + rest + y
  {
    var l, rest := labels[0], EncodeLabels(labels[1..]);
    assert l in labels;
    assert EncodeLabels(labels) == [|l| as byte] + l + rest;
    hide EncodeLabels;
    Joined(x, [|l| as byte], l, rest, y);
  }

  lemma {:induction false} SkipLabel(x: seq<byte>, l: seq<byte>, y: seq<byte>)
    requires 1 <= |l| < 192
    ensures var d := x + [|l| as byte] + l + y;
            SkipName(d, |x|) == SkipName(d, |x| + 1 + |l|)
  {
    assert (x + [|l| as byte] + l + y)[|x|] == |l| as byte;
  }

  lemma {:induction false} SkipLabels(x: seq<byte>, labels: seq<seq<byte>>, y: seq<byte>)
    requires forall l :: l in labels ==> 1 <= |l| < 192
    ensures SkipName(x + EncodeLabels(labels) + y, |x|) ==
              SkipName(x + EncodeLabels(labels) + y, |x| + |EncodeLabels(labels)|)
    decreases |labels|
  {
    hide SkipName, EncodeLabels;
    if labels == [] {
      NoLabels();
    } else {
      var l := labels[0];
      FirstLabel(x, labels, y);
      SkipLabel(x, l, EncodeLabels(labels[1..]) + y);
      SkipLabels(x + [|l| as byte] + l, labels[1..], y);
    }
  }

  lemma NoLabels()
    ensures EncodeLabels([]) == []
  {
  }

  lemma {:induction false} SkipEncodedName(x: seq<byte>, n: Name, y: seq<byte>)
    requires n.Valid()
    ensures SkipName(x + EncodeName(n) + y, |x|) == |x| + |EncodeName(n)|
  {
    var end := EncodeName(n)[|EncodeLabels(n.labels)|..];
    assert x + EncodeName(n) + y == x + EncodeLabels(n.labels) + (end + y);
    SkipLabels(x, n.labels, end + y);
    assert (x + EncodeName(n) + y)[|x| + |EncodeLabels(n.labels)|] == end[0];
  }

  /** Where a record encoded at `offset` is found. */
  function Found(r: Record, offset: nat): RR
    requires r.Valid()
  {
    RR(offset + |EncodeName(r.name)|, r.rrtype, r.rrclass, |r.rdata|)
  }

  lemma {:induction false} RecordAtEncoded(x: seq<byte>, r: Record, y: seq<byte>)
    requires r.Valid()
    ensures RecordAt(x + EncodeRecord(r) + y, |x|) == Some(Found(r, |x|))
    ensures Found(r, |x|).End() == |x| + |EncodeRecord(r)|
  {
    hide EncodeName, SkipName, U16, Encode16;
    var n := EncodeName(r.name);
    var d := x + EncodeRecord(r) + y;
    FixedFields(x + n, Encode16(r.rrtype), Encode16(r.rrclass), r.ttl, Encode16(|r.rdata|), r.rdata + y);
    var t, c, l := Encode16(r.rrtype), Encode16(r.rrclass), Encode16(|r.rdata|);
    assert d == x + n + (t + c + r.ttl + l + (r.rdata + y));
    SkipEncodedName(x, r.name, t + c + r.ttl + l + (r.rdata + y));
    Decode16(x + n, r.rrtype, c + r.ttl + l + (r.rdata + y));
    Decode16(x + n + t, r.rrclass, r.ttl + l + (r.rdata + y));
    Decode16(x + n + t + c + r.ttl, |r.rdata|, r.rdata + y);
  }

  lemma {:induction false} FixedFields(x: seq<byte>, t: seq<byte>, c: seq<byte>, ttl: seq<byte>, l: seq<byte>,
                                       y: seq<byte>)
    ensures x + (t + c + ttl + l + y) == x + t + (c + ttl + l + y)
    ensures x + (t + c + ttl + l + y) == x + t + c + (ttl + l + y)
    ensures x + (t + c + ttl + l + y) == x + t + c + ttl + l + y
  {
  }

  lemma {:induction false} EncodeRecordsAppend(xs: seq<Record>, ys: seq<Record>)
    requires AllValid(xs) && AllValid(ys)
    ensures AllValid(xs + ys)
    ensures EncodeRecords(xs + ys) == EncodeRecords(xs) + EncodeRecords(ys)
  {
    hide EncodeRecord;
    if xs == [] {
      assert xs + ys == ys;
    } else {
      assert (xs + ys)[1..] == xs[1..] + ys;
      EncodeRecordsAppend(xs[1..], ys);
    }
  }

  function FoundAll(rs: seq<Record>, offset: nat): (r: seq<RR>)
    requires AllValid(rs)
    ensures |r| == |rs|
    decreases |rs|
  {
    if rs == [] then [] else [Found(rs[0], offset)] + FoundAll(rs[1..], offset + |EncodeRecord(rs[0])|)
  }

  lemma {:induction false} RecordsEncoded(x: seq<byte>, rs: seq<Record>, y: seq<byte>)
    requires AllValid(rs)
    ensures Records(x + EncodeRecords(rs) + y, |x|, |rs|) == Some(FoundAll(rs, |x|))
    decreases |rs|
  {
    hide EncodeRecord, EncodeName, RecordAt, Found;
    if rs != [] {
      var e, rest := EncodeRecord(rs[0]), EncodeRecords(rs[1..]);
      assert x + EncodeRecords(rs) + y == x + e + (rest + y);
      RecordAtEncoded(x, rs[0], rest + y);
      assert x + EncodeRecords(rs) + y == (x + e) + rest + y;
      RecordsEncoded(x + e, rs[1..], y);
    }
  }

  lemma {:induction false} FoundAllSnoc(rs: seq<Record>, offset: nat)
    requires rs != [] && AllValid(rs)
    ensures var init, last := rs[..|rs| - 1], rs[|rs| - 1];
            FoundAll(rs, offset) == FoundAll(init, offset) + [Found(last, offset + |EncodeRecords(init)|)]
    decreases |rs|
  {
    hide EncodeRecord, EncodeName, Found, FoundAll, EncodeRecords, AllValid;
    var init, last := rs[..|rs| - 1], rs[|rs| - 1];
    PartsAreValid(rs);
    FoundAllFirst(rs, offset);
    if |rs| == 1 {
      assert init == [] && rs[1..] == [];
      NothingFound(offset);
    } else {
      var tail, next := rs[1..], offset + |EncodeRecord(rs[0])|;
      FoundAllSnoc(tail, next);
      assert tail[..|tail| - 1] == init[1..] && tail[|tail| - 1] == last && init[0] == rs[0];
      FoundAllFirst(init, offset);
      PartsAreValid(init);
      var first, end := [Found(rs[0], offset)], [Found(last, next + |EncodeRecords(init[1..])|)];
      assert first + (FoundAll(init[1..], next) + end) == (first + FoundAll(init[1..], next)) + end;
    }
  }

  lemma {:induction false} PartsAreValid(rs: seq<Record>)
    requires rs != [] && AllValid(rs)
    ensures AllValid(rs[1..]) && AllValid(rs[..|rs| - 1]) && rs[0].Valid() && rs[|rs| - 1].Valid()
  {
  }

  lemma {:induction false} NothingFound(offset: nat)
    ensures FoundAll([], offset) == [] && EncodeRecords([]) == []
  {
  }

  lemma {:induction false} FoundAllFirst(rs: seq<Record>, offset: nat)
    requires rs != [] && AllValid(rs)
    ensures FoundAll(rs, offset) == [Found(rs[0], offset)] + FoundAll(rs[1..], offset + |EncodeRecord(rs[0])|)
    ensures |EncodeRecords(rs)| == |EncodeRecord(rs[0])| + |EncodeRecords(rs[1..])|
  {
    hide EncodeRecord, Found;
  }

  lemma {:induction false} PatchEncoded(x: seq<byte>, r: Record, y: seq<byte>)
    requires r.Valid()
    ensures Patch(x + EncodeRecord(r) + y, Found(r, |x|)) == x + EncodeRecord(LocalRecord(r)) + y
  {
    var head := EncodeName(r.name) + Encode16(r.rrtype) + Encode16(r.rrclass) + r.ttl + Encode16(|r.rdata|);
    var d := x + EncodeRecord(r) + y;
    assert d == x + head + r.rdata + y;
    if r.IsAddress() {
      assert d[..Found(r, |x|).Rdata()] == x + head;
      assert d[Found(r, |x|).End()..] == y;
      assert EncodeRecord(LocalRecord(r)) == head + LOCALHOST;
    }
  }

  lemma {:induction false} RewrittenEncoded(x: seq<byte>, rs: seq<Record>, y: seq<byte>)
    requires AllValid(rs)
    ensures Rewritten(x + EncodeRecords(rs) + y, FoundAll(rs, |x|)) == x + EncodeRecords(LocalRecords(rs)) + y
    ensures |EncodeRecords(LocalRecords(rs))| == |EncodeRecords(rs)|
    decreases |rs|
  {
    hide *;
    if rs == [] {
      NoRecords(x, y);
    } else {
      var init, last := rs[..|rs| - 1], rs[|rs| - 1];
      LocalRecordsSnoc(rs);
      EncodeSnoc(init, last);
      EncodeSnoc(LocalRecords(init), LocalRecord(last));
      var e := EncodeRecord(last);
      assert x + EncodeRecords(rs) + y == x + EncodeRecords(init) + (e + y);
      RewrittenEncoded(x, init, e + y);
      var x' := x + EncodeRecords(LocalRecords(init));
      assert x' + (e + y) == x' + e + y;
      PatchEncoded(x', last, y);
      FoundAllSnoc(rs, |x|);
      RewrittenSnoc(x + EncodeRecords(rs) + y, FoundAll(init, |x|), Found(last, |x'|));
      assert x' + EncodeRecord(LocalRecord(last)) + y == x + EncodeRecords(LocalRecords(rs)) + y;
    }
  }

  lemma {:induction false} NoRecords(x: seq<byte>, y: seq<byte>)
    ensures AllValid([]) && EncodeRecords([]) == [] && LocalRecords([]) == []
    ensures Rewritten(x + [] + y, FoundAll([], |x|)) == x + [] + y
  {
  }

  lemma {:induction false} RewrittenSnoc(d: seq<byte>, init: seq<RR>, last: RR)
    ensures Rewritten(d, init + [last]) == Patch(Rewritten(d, init), last)
  {
    assert (init + [last])[..|init|] == init;
  }

  lemma {:induction false} EncodeSnoc(init: seq<Record>, last: Record)
    requires AllValid(init) && last.Valid()
    ensures AllValid(init + [last]) && EncodeRecords(init + [last]) == EncodeRecords(init) + EncodeRecord(last)
  {
    hide EncodeRecord;
    EncodeRecordsAppend(init, [last]);
    var none: seq<Record> := [last][1..];
    assert EncodeRecords(none) == [];
    assert EncodeRecords([last]) == EncodeRecord(last) + EncodeRecords(none);
  }

  lemma {:induction false} LocalRecordsSnoc(rs: seq<Record>)
    requires rs != [] && AllValid(rs)
    ensures var init, last := rs[..|rs| - 1], rs[|rs| - 1];
            && AllValid(init) && AllValid(LocalRecords(init)) && AllValid(LocalRecords(rs))
            && last.Valid() && LocalRecord(last).Valid()
            && |EncodeRecord(LocalRecord(last))| == |EncodeRecord(last)|
            && rs == init + [last] && LocalRecords(rs) == LocalRecords(init) + [LocalRecord(last)]
  {
    hide EncodeName, LocalRecords;
    var init, last := rs[..|rs| - 1], rs[|rs| - 1];
    assert last.Valid() && AllValid(init);
    assert rs == init + [last];
    LocalRecordsAppend(init, [last]);
    OneLocalRecord(last);
  }

  lemma {:induction false} OneLocalRecord(r: Record)
    requires r.Valid()
    ensures LocalRecords([r]) == [LocalRecord(r)] && LocalRecord(r).Valid()
    ensures |EncodeRecord(LocalRecord(r))| == |EncodeRecord(r)|
  {
  }

  lemma {:induction false} FirstQuestion(x: seq<byte>, qs: seq<Question>, y: seq<byte>)
    requires qs != [] && forall q :: q in qs ==> q.name.Valid() && |q.typeClass| == 4
    ensures forall q :: q in qs[1..] ==> q.name.Valid() && |q.typeClass| == 4
    ensures qs[0].name.Valid()
    ensures var n, t, rest := EncodeName(qs[0].name), qs[0].typeClass, EncodeQuestions(qs[1..]);
            && |EncodeQuestions(qs)| == |n| + 4 + |rest| && |x + n + t| == |x| + |n| + 4
            && x + EncodeQuestions(qs) + y == x + n + (t + rest + y) == (x + n + t) + rest + y
  {
    var n, t, rest := EncodeName(qs[0].name), qs[0].typeClass, EncodeQuestions(qs[1..]);
    hide EncodeName;
    assert EncodeQuestions(qs) == n + t + rest;
    hide EncodeQuestions;
    Joined(x, n, t, rest, y);
  }

  lemma {:induction false} QuestionsEncoded(x: seq<byte>, qs: seq<Question>, y: seq<byte>)
    requires forall q :: q in qs ==> q.name.Valid() && |q.typeClass| == 4
    ensures SkipQuestions(x + EncodeQuestions(qs) + y, |x|, |qs|) == Some(|x| + |EncodeQuestions(qs)|)
    decreases |qs|
  {
    hide EncodeName, SkipName, EncodeQuestions;
    if qs == [] {
      NoQuestions();
    } else {
      FirstQuestion(x, qs, y);
      var n, t, rest := EncodeName(qs[0].name), qs[0].typeClass, EncodeQuestions(qs[1..]);
      SkipEncodedName(x, qs[0].name, t + rest + y);
      QuestionsEncoded(x + n + t, qs[1..], y);
    }
  }

  lemma NoQuestions()
    ensures EncodeQuestions([]) == []
  {
  }

  lemma {:induction false} HeaderCounts(m: Message, rest: seq<byte>)
    requires m.Valid()
    ensures var d := EncodeHeader(m) + rest;
            && U16(d, 4) == |m.questions| && U16(d, 6) == |m.answers|
            && U16(d, 8) == |m.authority| && U16(d, 10) == |m.additional|
  {
    var q, a, u, z := Encode16(|m.questions|), Encode16(|m.answers|), Encode16(|m.authority|), Encode16(|m.additional|);
    var d := EncodeHeader(m) + rest;
    assert d == m.idFlags + q + (a + u + z + rest);
    Decode16(m.idFlags, |m.questions|, a + u + z + rest);
    assert d == (m.idFlags + q) + a + (u + z + rest);
    Decode16(m.idFlags + q, |m.answers|, u + z + rest);
    assert d == (m.idFlags + q + a) + u + (z + rest);
    Decode16(m.idFlags + q + a, |m.authority|, z + rest);
    assert d == (m.idFlags + q + a + u) + z + rest;
    Decode16(m.idFlags + q + a + u, |m.additional|, rest);
  }

  /** All records of a message, in order of the three sections. */
  function AllRecords(m: Message): seq<Record> {
    m.answers + m.authority + m.additional
  }

  /** Parsing from the counts in the header, whatever the message is made of. */
  lemma {:induction false} ParseParts(d: seq<byte>, offset: nat, rrs: seq<RR>)
    requires |d| >= 12
    requires SkipQuestions(d, 12, U16(d, 4)) == Some(offset)
    requires Records(d, offset, RecordCount(d)) == Some(rrs)
    ensures Parse(d) == Some(rrs)
  {
  }

  /** Every message built from valid parts parses to its records, in all three sections. */
  lemma {:induction false} ParseEncoded(m: Message)
    requires m.Valid()
    ensures Parse(Encode(m)) == Some(FoundAll(AllRecords(m), 12 + |EncodeQuestions(m.questions)|))
  {
    hide *;
    RecordsAreValid(m);
    var h, q, e := EncodeHeader(m), EncodeQuestions(m.questions), EncodeRecords(AllRecords(m));
    EncodedParts(m);
    HeaderCounts(m, q + e);
    QuestionsEncoded(h, m.questions, e);
    RecordsEncoded(h + q, AllRecords(m), []);
    Regrouped(h, q, e);
    ParseParts(Encode(m), |h + q|, FoundAll(AllRecords(m), |h + q|));
  }

  lemma {:induction false} Regrouped(h: seq<byte>, q: seq<byte>, e: seq<byte>)
    ensures h + q + e == h + (q + e) == (h + q) + e + []
  {
  }

  lemma {:induction false} RecordsAreValid(m: Message)
    requires m.Valid()
    ensures AllValid(AllRecords(m))
    ensures forall q :: q in m.questions ==> q.name.Valid() && |q.typeClass| == 4
    ensures |m.questions| < 65536
  {
  }

  lemma {:induction false} EncodedParts(m: Message)
    requires m.Valid() && AllValid(AllRecords(m))
    requires forall q :: q in m.questions ==> q.name.Valid()
    ensures Encode(m) == EncodeHeader(m) + EncodeQuestions(m.questions) + EncodeRecords(AllRecords(m))
    ensures |Encode(m)| >= 12
    ensures |AllRecords(m)| == |m.answers| + |m.authority| + |m.additional|
    ensures forall d: seq<byte> :: |d| >= 12 ==> RecordCount(d) == U16(d, 6) + U16(d, 8) + U16(d, 10)
  {
    hide EncodeHeader, EncodeQuestions, EncodeRecords;
  }

  /** Rewriting an encoded message is encoding the message with its addresses replaced. */
  lemma {:induction false} RewriteCommutesWithEncode(m: Message)
    requires m.Valid()
    ensures Local(m).Valid()
    ensures Spec(Encode(m)) == Encode(Local(m))
  {
    hide *;
    RecordsAreValid(m);
    LocalParts(m);
    RecordsAreValid(Local(m));
    var h, q := EncodeHeader(m), EncodeQuestions(m.questions);
    ParseEncoded(m);
    SpecOfParse(Encode(m), FoundAll(AllRecords(m), 12 + |q|));
    RewrittenEncoded(h + q, AllRecords(m), []);
    EncodedParts(m);
    EncodedParts(Local(m));
    Regrouped(h, q, EncodeRecords(AllRecords(m)));
    Regrouped(h, q, EncodeRecords(LocalRecords(AllRecords(m))));
  }

  lemma {:induction false} SpecOfParse(d: seq<byte>, rrs: seq<RR>)
    requires Parse(d) == Some(rrs)
    ensures Spec(d) == Rewritten(d, rrs)
  {
  }

  lemma {:induction false} LocalRecordsAppend(xs: seq<Record>, ys: seq<Record>)
    ensures LocalRecords(xs + ys) == LocalRecords(xs) + LocalRecords(ys)
  {
    var l := LocalRecords(xs + ys);
    forall k | 0 <= k < |l|
      ensures l[k] == (LocalRecords(xs) + LocalRecords(ys))[k]
    {
    }
  }

  lemma {:induction false} LocalParts(m: Message)
    requires m.Valid() && AllValid(AllRecords(m))
    ensures Local(m).Valid() && AllValid(LocalRecords(AllRecords(m)))
    ensures AllRecords(Local(m)) == LocalRecords(AllRecords(m))
    ensures EncodeHeader(Local(m)) == EncodeHeader(m)
    ensures Local(m).questions == m.questions
  {
    hide AllValid, Encode16, LocalRecords;
    LocalRecordsAppend(m.answers, m.authority);
    LocalRecordsAppend(m.answers + m.authority, m.additional);
  }

  // ---- the script itself ----

  /** Advances past a name in the buffer being rewritten. */
  method SkipNameIn(data: array<byte>, start: nat) returns (offset: nat)
    ensures offset == SkipName(data[..], start)
  {
    offset := start;
    while offset < data.Length
      invariant SkipName(data[..], start) == SkipName(data[..], offset)
      decreases data.Length - offset
    {
      var length := data[offset];
      if length == 0 {
        return offset + 1;
      }
      if length >= 192 {  // both top bits set
        return offset + 2;
      }
      offset := offset + 1 + length as nat;
    }
    return data.Length;
  }

  method ReadU16(data: array<byte>, o: nat) returns (v: nat)
    requires o + 2 <= data.Length
    ensures v == U16(data[..], o)
  {
    v := data[o] as nat * 256 + data[o + 1] as nat;
  }

  method WriteLocalhost(data: array<byte>, at: nat)
    requires at + 4 <= data.Length
    modifies data
    ensures data[..] == old(data[..at]) + LOCALHOST + old(data[at + 4..])
  {
    data[at], data[at + 1], data[at + 2], data[at + 3] := 127, 0, 0, 1;
  }

  /** One turn of the record loop: parses the record at `offset` in the partly rewritten buffer and rewrites it. */
  method RewriteRecord(out: array<byte>, offset: nat, ghost data: seq<byte>) returns (rr: Option<RR>)
    requires offset <= out.Length && SameFrom(out[..], data, offset)
    modifies out
    ensures rr == RecordAt(data, offset)
    ensures rr.Some? ==> out[..] == Patch(old(out[..]), rr.value)
    ensures rr.Some? ==> offset <= rr.value.End() <= out.Length && SameFrom(out[..], data, rr.value.End())
  {
    RecordAtForward(out[..], data, offset);
    var fixed := SkipNameIn(out, offset);
    if fixed + 10 > out.Length {
      return None;
    }
    var rrtype := ReadU16(out, fixed);
    var rrclass := ReadU16(out, fixed + 2);
    var rdlength := ReadU16(out, fixed + 8);
    var found := RR(fixed, rrtype, rrclass, rdlength);
    if found.End() > out.Length {
      return None;
    }
    if found.IsAddress() {
      WriteLocalhost(out, found.Rdata());
    }
    return Some(found);
  }

  method SkipQuestionsIn(out: array<byte>, n: nat) returns (offset: Option<nat>)
    requires out.Length >= 12
    ensures offset == SkipQuestions(out[..], 12, n)
    ensures offset.Some? ==> 12 <= offset.value <= out.Length
  {
    var at: nat := 12;
    for k := 0 to n
      invariant SkipQuestions(out[..], 12, n) == SkipQuestions(out[..], at, n - k)
      invariant 12 <= at <= out.Length
    {
      SkipNameForward(out[..], out[..], at);
      at := SkipNameIn(out, at);
      at := at + 4;
      if at > out.Length {
        return None;
      }
    }
    return Some(at);
  }

  const COUNTER := "dns_a_rewrites"

  /** The shared variables after a run that rewrote `rewrites` records. */
  function Counted(variables: map<string, nat>, rewrites: nat): map<string, nat> {
    if rewrites == 0 then variables
    else variables[COUNTER := (if COUNTER in variables then variables[COUNTER] else 0) + rewrites]
  }

  /** The record loop: rewrites as it parses, and gives up at the first record that does not fit. */
  method RewriteRecords(out: array<byte>, start: nat, total: nat, ghost data: seq<byte>)
    returns (parsed: bool, rewrites: nat, ghost rrs: seq<RR>)
    requires start <= out.Length && out[..] == data
    modifies out
    ensures parsed == Records(data, start, total).Some?
    ensures parsed ==>
              rrs == Records(data, start, total).value && out[..] == Rewritten(data, rrs)
              && rewrites == AddressCount(rrs)
  {
    hide *;
    var offset: nat := start;
    rewrites, rrs := 0, [];
    NothingDone(data, start, total);
    for k := 0 to total
      invariant Records(data, start, total) == Onto(rrs, Records(data, offset, total - k))
      invariant offset <= out.Length && SameFrom(out[..], data, offset)
      invariant out[..] == Rewritten(data, rrs) && rewrites == AddressCount(rrs)
    {
      var rr := RewriteRecord(out, offset, data);
      RecordsUnfold(data, rrs, offset, total - k);
      if rr.None? {
        return false, 0, [];
      }
      RewrittenSnoc(data, rrs, rr.value);
      if rr.value.IsAddress() {
        rewrites := rewrites + 1;
      }
      rrs := rrs + [rr.value];
      offset := rr.value.End();
    }
    AllDone(data, rrs, offset);
    return true, rewrites, rrs;
  }

  lemma {:induction false} NothingDone(d: seq<byte>, start: nat, n: nat)
    ensures Records(d, start, n) == Onto([], Records(d, start, n))
    ensures Rewritten(d, []) == d && AddressCount([]) == 0
    ensures SameFrom(d, d, start)
  {
    OntoNothing(Records(d, start, n));
  }

  lemma {:induction false} AllDone(d: seq<byte>, rrs: seq<RR>, offset: nat)
    ensures Onto(rrs, Records(d, offset, 0)) == Some(rrs)
  {
    assert rrs + [] == rrs;
  }

  /** Nothing of the partly rewritten buffer is returned unless the whole message parses. */
  method Apply(data: seq<byte>, variables: map<string, nat>) returns (result: seq<byte>, variables': map<string, nat>)
    ensures result == Spec(data)
    ensures variables' == Counted(variables, if Parse(data).Some? then AddressCount(Parse(data).value) else 0)
  {
    hide SkipQuestions, Records, AddressCount, Rewritten, U16;
    if |data| < 12 {
      return data, variables;
    }
    var out := new byte[|data|](i requires 0 <= i < |data| => data[i]);
    assert out[..] == data;
    var qdcount := ReadU16(out, 4);
    var ancount := ReadU16(out, 6);
    var nscount := ReadU16(out, 8);
    var arcount := ReadU16(out, 10);
    var total := ancount + nscount + arcount;
    if total == 0 {
      NoRecordsNoRewrite(data);
      return data, variables;
    }
    var start := SkipQuestionsIn(out, qdcount);
    if start.None? {
      return data, variables;
    }
    var parsed, rewrites;
    ghost var rrs;
    parsed, rewrites, rrs := RewriteRecords(out, start.value, total, data);
    if !parsed {
      return data, variables;
    }
    return out[..], Counted(variables, rewrites);
  }

  lemma {:induction false} NoRecordsNoRewrite(d: seq<byte>)
    requires |d| >= 12 && RecordCount(d) == 0
    ensures Spec(d) == d && (Parse(d).Some? ==> AddressCount(Parse(d).value) == 0)
  {
  }

  lemma {:induction false} RecordsUnfold(d: seq<byte>, done: seq<RR>, offset: nat, n: nat)
    requires n > 0
    ensures RecordAt(d, offset).None? ==> Onto(done, Records(d, offset, n)).None?
    ensures RecordAt(d, offset).Some? ==>
              var rr := RecordAt(d, offset).value;
              && Onto(done, Records(d, offset, n)) == Onto(done + [rr], Records(d, rr.End(), n - 1))
              && AddressCount(done + [rr]) == AddressCount(done) + if rr.IsAddress() then 1 else 0
  {
    if RecordAt(d, offset).Some? {
      var rr := RecordAt(d, offset).value;
      assert (done + [rr])[..|done|] == done;
      var rest := Records(d, rr.End(), n - 1);
      if rest.Some? {
        assert done + ([rr] + rest.value) == (done + [rr]) + rest.value;
      }
    }
  }
}

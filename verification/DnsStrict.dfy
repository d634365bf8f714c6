/**
 The DNS script against a parser that keeps to section 4.1.4 of RFC 1035, where a label is at most 63
 bytes long and lengths of 64 to 191 are reserved.
 */
module DnsStrict {
  import opened Bytes
  import opened Options
  import opened Dns

  // ---- the strict parser ----

  /** Offset after a name that lies inside the message and has no reserved length. */
  function StrictName(d: seq<byte>, offset: nat): (r: Option<nat>)
    decreases |d| - offset
  {
    if offset >= |d| then None
    else if d[offset] == 0 then Some(offset + 1)
    else if d[offset] >= 192 then if offset + 2 <= |d| then Some(offset + 2) else None
    else if d[offset] >= 64 then None
    else StrictName(d, offset + 1 + d[offset] as nat)
  }

  function StrictQuestions(d: seq<byte>, offset: nat, n: nat): Option<nat>
    decreases n
  {
    if n == 0 then Some(offset)
    else match StrictName(d, offset)
      case None => None
      case Some(end) => if end + 4 > |d| then None else StrictQuestions(d, end + 4, n - 1)
  }

  function StrictRecord(d: seq<byte>, offset: nat): Option<RR> {
    match StrictName(d, offset)
    case None => None
    case Some(fixed) =>
      if fixed + 10 > |d| then None
      else
        var rr := RR(fixed, U16(d, fixed), U16(d, fixed + 2), U16(d, fixed + 8));
        if rr.End() > |d| then None else Some(rr)
  }

  function StrictRecords(d: seq<byte>, offset: nat, n: nat): Option<seq<RR>>
    decreases n
  {
    if n == 0 then Some([])
    else match StrictRecord(d, offset)
      case None => None
      case Some(rr) => Onto([rr], StrictRecords(d, rr.End(), n - 1))
  }

  /** All records of a message, or nothing when it is malformed. */
  function StrictParse(d: seq<byte>): Option<seq<RR>> {
    if |d| < 12 then None
    else match StrictQuestions(d, 12, U16(d, 4))
      case None => None
      case Some(offset) => StrictRecords(d, offset, RecordCount(d))
  }

  /** A rewrite that leaves every malformed message alone. */
  function StrictSpec(d: seq<byte>): seq<byte> {
    match StrictParse(d)
    case None => d
    case Some(rrs) => Rewritten(d, rrs)
  }

  // ---- whatever the strict parser accepts, the script parses alike ----

  lemma {:induction false} StrictNameSkips(d: seq<byte>, offset: nat)
    requires StrictName(d, offset).Some?
    ensures StrictName(d, offset) == Some(SkipName(d, offset))
    decreases |d| - offset
  {
    if 0 < d[offset] < 64 {
      StrictNameSkips(d, offset + 1 + d[offset] as nat);
    }
  }

  lemma {:induction false} StrictQuestionsSkip(d: seq<byte>, offset: nat, n: nat)
    requires StrictQuestions(d, offset, n).Some?
    ensures StrictQuestions(d, offset, n) == SkipQuestions(d, offset, n)
    decreases n
  {
    hide StrictName, SkipName;
    if n > 0 {
      StrictNameSkips(d, offset);
      StrictQuestionsSkip(d, StrictName(d, offset).value + 4, n - 1);
    }
  }

  lemma {:induction false} StrictRecordsFound(d: seq<byte>, offset: nat, n: nat)
    requires StrictRecords(d, offset, n).Some?
    ensures StrictRecords(d, offset, n) == Records(d, offset, n)
    decreases n
  {
    hide StrictName, SkipName;
    if n > 0 {
      StrictNameSkips(d, offset);
      StrictRecordsFound(d, StrictRecord(d, offset).value.End(), n - 1);
    }
  }

  lemma {:induction false} StrictParseAgrees(d: seq<byte>)
    requires StrictParse(d).Some?
    ensures StrictParse(d) == Parse(d)
  {
    hide StrictQuestions, StrictRecords, SkipQuestions, Records;
    StrictQuestionsSkip(d, 12, U16(d, 4));
    StrictRecordsFound(d, StrictQuestions(d, 12, U16(d, 4)).value, RecordCount(d));
  }

  // ---- when the script does what the strict parser prescribes ----

  /** An address record of the list holds something other than 127.0.0.1. */
  predicate HoldsForeign(d: seq<byte>, rrs: seq<RR>) {
    exists k ::
      0 <= k < |rrs| && rrs[k].IsAddress() && rrs[k].End() <= |d| && d[rrs[k].Rdata()..rrs[k].End()] != LOCALHOST
  }

  /** A message with some address to replace, as the script parses it. */
  predicate HasForeign(d: seq<byte>) {
    Parse(d).Some? && HoldsForeign(d, Parse(d).value)
  }

  lemma {:induction false} UnchangedIsLocal(d: seq<byte>, rrs: seq<RR>)
    requires IsRewrite(d, rrs, d)
    ensures !HoldsForeign(d, rrs)
  {
    forall k | 0 <= k < |rrs| && rrs[k].IsAddress() && rrs[k].End() <= |d|
      ensures d[rrs[k].Rdata()..rrs[k].End()] == LOCALHOST
    {
      forall j: nat | j < 4
        ensures d[rrs[k].Rdata() + j] == LOCALHOST[j]
      {
        assert InAddress(rrs[k], rrs[k].Rdata() + j);
      }
    }
  }

  lemma {:induction false} LocalIsUnchanged(d: seq<byte>, rrs: seq<RR>)
    requires !HoldsForeign(d, rrs)
    ensures IsRewrite(d, rrs, d)
  {
    forall k, i: nat | 0 <= k < |rrs| && rrs[k].End() <= |d| && InAddress(rrs[k], i)
      ensures d[i] == LOCALHOST[i - rrs[k].Rdata()]
    {
      assert d[rrs[k].Rdata()..rrs[k].End()] == LOCALHOST;
    }
  }

  /** The script changes a message exactly when it finds an address to replace. */
  lemma {:induction false} ChangedIffForeign(d: seq<byte>)
    ensures Spec(d) != d <==> HasForeign(d)
  {
    hide Parse, IsRewrite, HoldsForeign;
    SpecRewrites(d);
    if Parse(d).Some? {
      if HoldsForeign(d, Parse(d).value) {
        if IsRewrite(d, Parse(d).value, d) {
          UnchangedIsLocal(d, Parse(d).value);
        }
      } else {
        LocalIsUnchanged(d, Parse(d).value);
      }
    }
  }

  /**
   The script does what the standard's message format prescribes exactly when the strict parser accepts the
   message or there is no address to replace: on every other message it rewrites what it should leave alone.
   */
  lemma {:induction false} StrictIff(d: seq<byte>)
    ensures Spec(d) == StrictSpec(d) <==> StrictParse(d).Some? || !HasForeign(d)
  {
    hide Parse, StrictParse, HoldsForeign, Rewritten;
    if StrictParse(d).Some? {
      StrictParseAgrees(d);
    }
    ChangedIffForeign(d);
  }

  // ---- which messages the strict parser accepts ----

  predicate ShortLabels(labels: seq<seq<byte>>) {
    forall k :: 0 <= k < |labels| ==> |labels[k]| < 64
  }

  ghost predicate ShortNames(rs: seq<Record>) {
    forall k :: 0 <= k < |rs| ==> ShortLabels(rs[k].name.labels)
  }

  ghost predicate ShortQuestions(qs: seq<Question>) {
    forall k :: 0 <= k < |qs| ==> ShortLabels(qs[k].name.labels)
  }

  lemma {:induction false} OneLabel(x: seq<byte>, l: seq<byte>, y: seq<byte>)
    requires 1 <= |l| < 192
    ensures var d := x + [|l| as byte] + l + y;
            StrictName(d, |x|) == if |l| < 64 then StrictName(d, |x| + 1 + |l|) else None
  {
    assert (x + [|l| as byte] + l + y)[|x|] == |l| as byte;
  }

  lemma {:induction false} FirstIsShort(labels: seq<seq<byte>>)
    requires labels != []
    ensures ShortLabels(labels) <==> |labels[0]| < 64 && ShortLabels(labels[1..])
  {
  }

  lemma {:induction false} StrictLabels(x: seq<byte>, labels: seq<seq<byte>>, y: seq<byte>)
    requires forall l :: l in labels ==> 1 <= |l| < 192
    ensures var d := x + EncodeLabels(labels) + y;
            StrictName(d, |x|) ==
              if ShortLabels(labels) then StrictName(d, |x| + |EncodeLabels(labels)|) else None
    decreases |labels|
  {
    hide StrictName, EncodeLabels, ShortLabels;
    if labels == [] {
      NoLabels();
      NoneIsShort();
    } else {
      var l := labels[0];
      FirstLabel(x, labels, y);
      FirstIsShort(labels);
      OneLabel(x, l, EncodeLabels(labels[1..]) + y);
      StrictLabels(x + [|l| as byte] + l, labels[1..], y);
    }
  }

  lemma NoneIsShort()
    ensures ShortLabels([])
  {
  }

  lemma {:induction false} NameEnds(d: seq<byte>, offset: nat, end: seq<byte>, y: seq<byte>)
    requires offset <= |d| && d[..offset] + end + y == d
    requires end == [0] || (|end| == 2 && end[0] >= 192)
    ensures StrictName(d, offset) == Some(offset + |end|)
  {
    assert (d[..offset] + end + y)[offset] == end[0];
  }

  lemma {:induction false} NameSplits(x: seq<byte>, n: Name, y: seq<byte>) returns (end: seq<byte>)
    requires n.Valid()
    ensures forall l :: l in n.labels ==> 1 <= |l| < 192
    ensures end == [0] || (|end| == 2 && end[0] >= 192)
    ensures var d, o := x + EncodeName(n) + y, |x| + |EncodeLabels(n.labels)|;
            && |EncodeName(n)| == |EncodeLabels(n.labels)| + |end|
            && d == x + EncodeLabels(n.labels) + (end + y)
            && o <= |d| && d[..o] + end + y == d
  {
    hide EncodeLabels;
    end := if n.pointer.None? then [0] else [n.pointer.value.0, n.pointer.value.1];
    var head := x + EncodeLabels(n.labels);
    assert x + EncodeName(n) + y == head + (end + y);
    assert (head + (end + y))[..|head|] == head;
  }

  lemma {:induction false} StrictEncodedName(x: seq<byte>, n: Name, y: seq<byte>)
    requires n.Valid()
    ensures StrictName(x + EncodeName(n) + y, |x|) ==
              if ShortLabels(n.labels) then Some(|x| + |EncodeName(n)|) else None
  {
    hide *;
    var end := NameSplits(x, n, y);
    StrictLabels(x, n.labels, end + y);
    NameEnds(x + EncodeName(n) + y, |x| + |EncodeLabels(n.labels)|, end, y);
  }

  lemma {:induction false} ShortFirst(qs: seq<Question>)
    requires qs != []
    ensures ShortQuestions(qs) <==> ShortLabels(qs[0].name.labels) && ShortQuestions(qs[1..])
  {
    hide ShortLabels;
  }

  lemma {:induction false} StrictQuestionsEncoded(x: seq<byte>, qs: seq<Question>, y: seq<byte>)
    requires forall q :: q in qs ==> q.name.Valid() && |q.typeClass| == 4
    ensures StrictQuestions(x + EncodeQuestions(qs) + y, |x|, |qs|) ==
              if ShortQuestions(qs) then Some(|x| + |EncodeQuestions(qs)|) else None
    decreases |qs|
  {
    hide EncodeName, StrictName, EncodeQuestions, ShortLabels, ShortQuestions;
    if qs == [] {
      NoQuestions();
      NoneAreShort();
    } else {
      FirstQuestion(x, qs, y);
      ShortFirst(qs);
      var n, t, rest := EncodeName(qs[0].name), qs[0].typeClass, EncodeQuestions(qs[1..]);
      StrictEncodedName(x, qs[0].name, t + rest + y);
      StrictQuestionsEncoded(x + n + t, qs[1..], y);
    }
  }

  lemma NoneAreShort()
    ensures ShortQuestions([])
  {
  }

  lemma {:induction false} StrictRecordEncoded(x: seq<byte>, r: Record, y: seq<byte>)
    requires r.Valid()
    ensures StrictRecord(x + EncodeRecord(r) + y, |x|) ==
              if ShortLabels(r.name.labels) then Some(Found(r, |x|)) else None
  {
    hide EncodeName, StrictName, SkipName, ShortLabels, U16, Encode16;
    var n := EncodeName(r.name);
    var fields := Encode16(r.rrtype) + Encode16(r.rrclass) + r.ttl + Encode16(|r.rdata|) + r.rdata;
    assert x + EncodeRecord(r) + y == x + n + (fields + y);
    StrictEncodedName(x, r.name, fields + y);
    SkipEncodedName(x, r.name, fields + y);
    RecordAtEncoded(x, r, y);
  }

  lemma {:induction false} StrictRecordsEncoded(x: seq<byte>, rs: seq<Record>, y: seq<byte>)
    requires AllValid(rs)
    ensures StrictRecords(x + EncodeRecords(rs) + y, |x|, |rs|) ==
              if ShortNames(rs) then Some(FoundAll(rs, |x|)) else None
    decreases |rs|
  {
    hide EncodeRecord, EncodeName, StrictRecord, Found, ShortLabels;
    if rs != [] {
      var e, rest := EncodeRecord(rs[0]), EncodeRecords(rs[1..]);
      assert x + EncodeRecords(rs) + y == x + e + (rest + y);
      StrictRecordEncoded(x, rs[0], rest + y);
      RecordAtEncoded(x, rs[0], rest + y);
      assert x + EncodeRecords(rs) + y == (x + e) + rest + y;
      assert ShortNames(rs) <==> ShortLabels(rs[0].name.labels) && ShortNames(rs[1..]);
      StrictRecordsEncoded(x + e, rs[1..], y);
    }
  }

  /** No name of the message has a label longer than 63 bytes. */
  ghost predicate Short(m: Message) {
    ShortQuestions(m.questions) && ShortNames(AllRecords(m))
  }

  lemma {:induction false} ShortParts(m: Message)
    ensures Short(m) <==> ShortQuestions(m.questions) && ShortNames(AllRecords(m))
  {
  }

  lemma {:induction false} StrictParts(d: seq<byte>)
    requires |d| >= 12
    ensures StrictQuestions(d, 12, U16(d, 4)).None? ==> StrictParse(d).None?
    ensures StrictQuestions(d, 12, U16(d, 4)).Some? ==>
              StrictParse(d) == StrictRecords(d, StrictQuestions(d, 12, U16(d, 4)).value, RecordCount(d))
  {
    hide StrictQuestions, StrictRecords, U16;
  }

  /** Of all messages built from valid parts, the strict parser accepts exactly those with short labels. */
  lemma {:induction false} StrictParseEncoded(m: Message)
    requires m.Valid()
    ensures StrictParse(Encode(m)) == if Short(m) then Parse(Encode(m)) else None
  {
    hide *;
    ShortParts(m);
    RecordsAreValid(m);
    var h, q, e := EncodeHeader(m), EncodeQuestions(m.questions), EncodeRecords(AllRecords(m));
    EncodedParts(m);
    HeaderCounts(m, q + e);
    Regrouped(h, q, e);
    StrictQuestionsEncoded(h, m.questions, e);
    StrictRecordsEncoded(h + q, AllRecords(m), []);
    StrictParts(Encode(m));
    ParseEncoded(m);
  }

  /** An encoded message is rewritten as the standard prescribes when all its labels are short. */
  lemma {:induction false} ShortIsStrict(m: Message)
    requires m.Valid() && Short(m)
    ensures Local(m).Valid()
    ensures StrictSpec(Encode(m)) == Encode(Local(m))
  {
    hide *;
    RewriteCommutesWithEncode(m);
    StrictParseEncoded(m);
    ParseEncoded(m);
    StrictIff(Encode(m));
  }

  // ---- encoded messages, and a reserved length that is taken for a label ----

  lemma {:induction false} RecordKept(r: Record)
    requires r.Valid()
    ensures LocalRecord(r).Valid() && |EncodeRecord(LocalRecord(r))| == |EncodeRecord(r)|
    ensures EncodeRecord(LocalRecord(r)) == EncodeRecord(r) ==> LocalRecord(r) == r
  {
    hide EncodeName, Encode16;
    var head := EncodeName(r.name) + Encode16(r.rrtype) + Encode16(r.rrclass) + r.ttl + Encode16(|r.rdata|);
    assert (head + r.rdata)[|head|..] == r.rdata;
    assert (head + LocalRecord(r).rdata)[|head|..] == LocalRecord(r).rdata;
  }

  lemma {:induction false} RecordsKept(rs: seq<Record>)
    requires AllValid(rs) && AllValid(LocalRecords(rs))
    requires EncodeRecords(LocalRecords(rs)) == EncodeRecords(rs)
    ensures LocalRecords(rs) == rs
    decreases |rs|
  {
    hide EncodeRecord, LocalRecord;
    if rs != [] {
      var r, e, e' := rs[0], EncodeRecords(rs[1..]), EncodeRecords(LocalRecords(rs[1..]));
      assert LocalRecords(rs)[1..] == LocalRecords(rs[1..]);
      RecordKept(r);
      assert (EncodeRecord(r) + e)[..|EncodeRecord(r)|] == EncodeRecord(r);
      assert (EncodeRecord(LocalRecord(r)) + e')[..|EncodeRecord(r)|] == EncodeRecord(LocalRecord(r));
      assert (EncodeRecord(r) + e)[|EncodeRecord(r)|..] == e;
      assert (EncodeRecord(LocalRecord(r)) + e')[|EncodeRecord(r)|..] == e';
      RecordsKept(rs[1..]);
    }
  }

  lemma {:induction false} SameTail(x: seq<byte>, y: seq<byte>, z: seq<byte>)
    requires x + y == x + z
    ensures y == z
  {
    assert (x + y)[|x|..] == y && (x + z)[|x|..] == z;
  }

  lemma {:induction false} SectionsKept(m: Message)
    requires LocalRecords(AllRecords(m)) == AllRecords(m) && AllRecords(Local(m)) == AllRecords(m)
    ensures Local(m) == m
  {
    hide LocalRecords;
    var a, u, z := m.answers, m.authority, m.additional;
    assert AllRecords(m)[..|a|] == a && AllRecords(Local(m))[..|a|] == LocalRecords(a);
    assert AllRecords(m)[|a|..|a| + |u|] == u && AllRecords(Local(m))[|a|..|a| + |u|] == LocalRecords(u);
    assert AllRecords(m)[|a| + |u|..] == z && AllRecords(Local(m))[|a| + |u|..] == LocalRecords(z);
  }

  /** Replacing addresses changes the encoding whenever it changes the message. */
  lemma {:induction false} MessageKept(m: Message)
    requires m.Valid() && Local(m).Valid() && Encode(Local(m)) == Encode(m)
    ensures Local(m) == m
  {
    hide *;
    RecordsAreValid(m);
    LocalParts(m);
    RecordsAreValid(Local(m));
    EncodedParts(m);
    EncodedParts(Local(m));
    SameTail(EncodeHeader(m) + EncodeQuestions(m.questions), EncodeRecords(AllRecords(m)),
             EncodeRecords(LocalRecords(AllRecords(m))));
    RecordsKept(AllRecords(m));
    SectionsKept(m);
  }

  /**
   On an encoded message the script does what the standard prescribes exactly when every label has at most
   63 bytes or every address is 127.0.0.1 already.
   */
  lemma {:induction false} EncodedStrictIff(m: Message)
    requires m.Valid()
    ensures Spec(Encode(m)) == StrictSpec(Encode(m)) <==> Short(m) || Local(m) == m
  {
    hide *;
    RewriteCommutesWithEncode(m);
    StrictParseEncoded(m);
    ParseEncoded(m);
    if Short(m) {
      StrictIff(Encode(m));
    } else {
      Refused(Encode(m));
      if Encode(Local(m)) == Encode(m) {
        MessageKept(m);
      }
    }
  }

  lemma {:induction false} Refused(d: seq<byte>)
    requires StrictParse(d).None?
    ensures StrictSpec(d) == d
  {
  }

  /** One answer, named by a single label of 64 bytes, with the address 1.2.3.4. */
  function LongLabel(): (m: Message)
    ensures m.Valid()
  {
    Message([0, 0, 128, 0], [], [LongAnswer()], [], [])
  }

  function LongAnswer(): (r: Record)
    ensures r.Valid() && |r.name.labels| == 1 && |r.name.labels[0]| == 64
    ensures r.rrtype == 1 && r.rrclass == 1 && r.rdata == [1, 2, 3, 4]
  {
    var long := seq(64, i => 97);
    Record(Name([long], None), 1, 1, [0, 0, 0, 0], [1, 2, 3, 4])
  }

  lemma {:induction false} OneAnswer(m: Message, r: Record)
    requires m.Valid() && m.questions == [] && m.answers == [r] && m.authority == [] && m.additional == []
    requires r.Valid()
    ensures AllRecords(m) == [r] && Encode(m) == EncodeHeader(m) + EncodeRecord(r)
    ensures Local(m).answers == [LocalRecord(r)]
  {
    hide EncodeHeader, EncodeRecord;
    var none: seq<Record> := [r][1..];
    assert EncodeRecords([r]) == EncodeRecord(r) + EncodeRecords(none);
  }

  lemma {:induction false} RecordStarts(r: Record)
    requires r.Valid() && r.name.labels != []
    ensures EncodeRecord(r) != [] && EncodeRecord(r)[0] as nat == |r.name.labels[0]|
  {
    hide Encode16;
    var n := EncodeName(r.name);
    assert n[0] as nat == |r.name.labels[0]|;
  }

  /** The byte after the header is 64, a reserved length: the message is malformed, and its address is rewritten. */
  lemma ReservedLengthIsRewritten()
    ensures var d := Encode(LongLabel());
            |d| > 12 && d[12] == 64 && StrictParse(d).None? && StrictSpec(d) == d && Spec(d) != d
  {
    hide LongAnswer, EncodeRecord, Encode, EncodeHeader, StrictParse, Spec, Parse, LocalRecords, StrictSpec;
    var m, r := LongLabel(), LongAnswer();
    OneAnswer(m, r);
    RecordStarts(r);
    assert !ShortLabels(r.name.labels) && AllRecords(m)[0] == r;
    assert !ShortNames(AllRecords(m));
    assert LocalRecord(r) != r;
    StrictParseEncoded(m);
    Refused(Encode(m));
    EncodedStrictIff(m);
  }
}

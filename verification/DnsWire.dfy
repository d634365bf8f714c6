/** What the DNS script does, told in the bytes of the message. */
module DnsWire {
  import opened Bytes
  import opened Dns
  import opened Options

  /** TYPE 1, CLASS 1 and RDLENGTH 4 stand at `fixed`, around a TTL of any value. */
  predicate HoldsAddress(d: seq<byte>, fixed: nat)
    requires fixed + 10 <= |d|
  {
    && d[fixed] == 0 && d[fixed + 1] == 1 && d[fixed + 2] == 0 && d[fixed + 3] == 1
    && d[fixed + 8] == 0 && d[fixed + 9] == 4
  }

  /** The fields of a record are the big-endian numbers in the message, and its RDATA starts ten bytes on. */
  ghost predicate ReadsAs(d: seq<byte>, rr: RR) {
    var f := rr.fixed;
    && f + 10 <= rr.End() <= |d|
    && rr.rrtype == 256 * d[f] as nat + d[f + 1] as nat
    && rr.rrclass == 256 * d[f + 2] as nat + d[f + 3] as nat
    && rr.rdlength == 256 * d[f + 8] as nat + d[f + 9] as nat
    && rr.Rdata() == f + 10 && rr.End() == f + 10 + rr.rdlength
    && (rr.IsAddress() <==> HoldsAddress(d, f))
  }

  lemma {:induction false} RecordReadsAs(d: seq<byte>, offset: nat)
    requires RecordAt(d, offset).Some?
    ensures ReadsAs(d, RecordAt(d, offset).value)
  {
    hide SkipName;
  }

  lemma {:induction false} RecordsReadAs(d: seq<byte>, offset: nat, n: nat)
    requires Records(d, offset, n).Some?
    ensures forall k :: 0 <= k < |Records(d, offset, n).value| ==> ReadsAs(d, Records(d, offset, n).value[k])
    decreases n
  {
    hide RecordAt, ReadsAs;
    if n > 0 {
      var rr := RecordAt(d, offset).value;
      RecordReadsAs(d, offset);
      RecordsReadAs(d, rr.End(), n - 1);
    }
  }

  /** Every record of a parsed message is what its bytes say. */
  lemma {:induction false} ParseReads(d: seq<byte>)
    requires Parse(d).Some?
    ensures forall k :: 0 <= k < |Parse(d).value| ==> ReadsAs(d, Parse(d).value[k])
  {
    hide SkipQuestions, Records, ReadsAs;
    RecordsReadAs(d, SkipQuestions(d, 12, U16(d, 4)).value, RecordCount(d));
  }

  /**
   In a message that parses, the four bytes behind each TYPE 1, CLASS 1 and RDLENGTH 4 become 127, 0, 0 and 1,
   all other RDATA stays, and so does every byte outside the RDATA of the records.
   */
  lemma {:induction false} AddressBytes(d: seq<byte>)
    requires Parse(d).Some?
    ensures |Spec(d)| == |d|
    ensures forall k :: 0 <= k < |Parse(d).value| ==> RdataIsLocal(d, Parse(d).value[k], Spec(d))
    ensures forall i :: 0 <= i < |d| && OutsideRdata(Parse(d).value, i) ==> Spec(d)[i] == d[i]
  {
    ParseReads(d);
    ParseChain(d);
    SpecRewrites(d);
    hide Parse, Spec, ReadsAs;
    var rrs, out := Parse(d).value, Spec(d);
    forall k | 0 <= k < |rrs|
      ensures RdataIsLocal(d, rrs[k], out)
    {
      RdataOfOne(d, rrs, k, out);
    }
  }

  ghost predicate RdataIsLocal(d: seq<byte>, rr: RR, out: seq<byte>) {
    && |out| == |d| && rr.fixed + 10 <= rr.End() <= |d|
    && if HoldsAddress(d, rr.fixed)
       then rr.End() == rr.fixed + 14 && out[rr.fixed + 10..rr.fixed + 14] == [127, 0, 0, 1]
       else out[rr.fixed + 10..rr.End()] == d[rr.fixed + 10..rr.End()]
  }

  ghost predicate OutsideRdata(rrs: seq<RR>, i: nat) {
    forall k :: 0 <= k < |rrs| ==> !(rrs[k].fixed + 10 <= i < rrs[k].End())
  }

  lemma {:induction false} RdataOfOne(d: seq<byte>, rrs: seq<RR>, k: nat, out: seq<byte>)
    requires k < |rrs| && Chain(rrs, 12, |d|) && IsRewrite(d, rrs, out) && ReadsAs(d, rrs[k])
    ensures RdataIsLocal(d, rrs[k], out)
  {
    var rr := rrs[k];
    if HoldsAddress(d, rr.fixed) {
      forall j: nat | j < 4
        ensures out[rr.Rdata() + j] == LOCALHOST[j]
      {
        assert InAddress(rr, rr.Rdata() + j);
      }
    } else {
      forall i | rr.Rdata() <= i < rr.End()
        ensures out[i] == d[i]
      {
        NoOtherAddress(d, rrs, k, i);
      }
    }
  }

  /** The RDATA of a record that is no address has no address in it. */
  lemma {:induction false} NoOtherAddress(d: seq<byte>, rrs: seq<RR>, k: nat, i: nat)
    requires k < |rrs| && Chain(rrs, 12, |d|) && !rrs[k].IsAddress() && rrs[k].Rdata() <= i < rrs[k].End()
    ensures forall j :: 0 <= j < |rrs| ==> !InAddress(rrs[j], i)
  {
  }

  /** The rewrites that are counted: one for each record that holds an address. */
  ghost function Addresses(d: seq<byte>): (r: set<nat>) {
    if Parse(d).None? then {} else AddressIndices(Parse(d).value)
  }

  ghost function AddressIndices(rrs: seq<RR>): set<nat> {
    set k: nat | k < |rrs| && rrs[k].IsAddress()
  }

  lemma {:induction false} CountOfIndices(rrs: seq<RR>)
    ensures AddressCount(rrs) == |AddressIndices(rrs)|
    decreases |rrs|
  {
    if rrs != [] {
      var n := |rrs| - 1;
      var init := rrs[..n];
      CountOfIndices(init);
      assert AddressIndices(rrs) == AddressIndices(init) + (if rrs[n].IsAddress() then {n} else {});
    }
  }

  /**
   What becomes of the shared variables: without an address they stay as they are, and otherwise
   `dns_a_rewrites` grows by their number, from nothing if it was not there, and no other variable is touched.
   */
  lemma {:induction false} VariablesCount(variables: map<string, nat>, d: seq<byte>)
    ensures var after := Counted(variables, if Parse(d).Some? then AddressCount(Parse(d).value) else 0);
            && (Addresses(d) == {} ==> after == variables)
            && (forall name :: name != "dns_a_rewrites" ==>
                (name in after <==> name in variables) && (name in after ==> after[name] == variables[name]))
            && (Addresses(d) != {} ==>
                "dns_a_rewrites" in after
                && after["dns_a_rewrites"] ==
                     |Addresses(d)| + if "dns_a_rewrites" in variables then variables["dns_a_rewrites"] else 0)
  {
    if Parse(d).Some? {
      CountOfIndices(Parse(d).value);
    }
  }

  /** A byte of 192 or more is one whose top two bits are set. */
  lemma {:induction false} PointerBits(b: byte)
    ensures (b as bv8) & 0xC0 == 0xC0 <==> b >= 192
  {
    var v := b as bv8;
    assert v & 0xC0 == 0xC0 <==> v >= 0xC0;
  }

  // ---- the message the script comes with ----

  /** A response for example.com with one address: the name again by a pointer, TTL 300. */
  const SAMPLE_HEAD: seq<byte> := [
    0x12, 0x34, 0x81, 0x80, 0, 1, 0, 1, 0, 0, 0, 0,
    7, 101, 120, 97, 109, 112, 108, 101, 3, 99, 111, 109, 0, 0, 1, 0, 1,
    0xC0, 12, 0, 1, 0, 1, 0, 0, 1, 44, 0, 4]

  /** Whatever address the sample answers with, the script answers 127.0.0.1 and counts one. */
  lemma {:induction false} SampleRewritten(address: seq<byte>)
    requires |address| == 4
    ensures Spec(SAMPLE_HEAD + address) == SAMPLE_HEAD + [127, 0, 0, 1]
    ensures Parse(SAMPLE_HEAD + address) == Some([RR(31, 1, 1, 4)])
  {
    var d := SAMPLE_HEAD + address;
    SampleName(d);
    hide SkipName;
    assert SkipQuestions(d, 12, 1) == SkipQuestions(d, 29, 0);
    var rr := RR(31, 1, 1, 4);
    assert RecordAt(d, 29) == Some(rr);
    assert Records(d, 45, 0) == Some([]);
    assert Records(d, 29, 1) == Some([rr]) by { assert [rr] + [] == [rr]; }
    assert U16(d, 4) == 1 && RecordCount(d) == 1;
    ParseParts(d, 29, [rr]);
    assert [rr][..0] == [];
    assert Rewritten(d, [rr]) == Patch(Rewritten(d, []), rr);
  }

  lemma {:induction false} SampleName(d: seq<byte>)
    requires |d| >= 41 && d[..41] == SAMPLE_HEAD
    ensures SkipName(d, 12) == 25 && SkipName(d, 29) == 31
  {
    assert d[12] == 7 && d[20] == 3 && d[24] == 0 && d[29] == 0xC0;
    assert SkipName(d, 24) == 25 && SkipName(d, 20) == SkipName(d, 24) && SkipName(d, 12) == SkipName(d, 20);
  }
}

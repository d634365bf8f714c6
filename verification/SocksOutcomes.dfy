/** The SOCKS5 handshake byte by byte: every way it can end, what it has written by then, and the wire format. */
module SocksOutcomes {
  import opened Bytes
  import opened Options
  import opened Socks5

  /** Why a greeting of these bytes fails, or nothing when it is answered; and what is written. */
  lemma {:induction false} GreetingOutcomes(input: seq<byte>, login: Option<Login>)
    ensures |input| < 2 ==> Handshake(input, login, []) == Failed(EndOfInput, [], [])
    ensures |input| >= 2 && input[0] != 5 ==> Handshake(input, login, []) == Failed(Refused(1), input[2..], [])
    ensures |input| >= 2 && input[0] == 5 && |input| < 2 + input[1] as nat ==>
              Handshake(input, login, []) == Failed(EndOfInput, [], [])
    ensures |input| >= 2 && input[0] == 5 && |input| >= 2 + input[1] as nat ==>
              var n := input[1] as nat;
              var rest := input[2 + n..];
              if login.None? then
                if 0 in input[2..2 + n] then Handshake(input, login, []) == ReadRequest(rest, [5, 0])
                else Handshake(input, login, []) == Failed(Refused(2), rest, [5, 255])
              else if 2 in input[2..2 + n] then
                Handshake(input, login, []) ==
                  match Authenticate(rest, login.value, [5, 2])
                  case Failed(f, i, o) => Failed(f, i, o)
                  case Done(_, i, o) => ReadRequest(i, o)
              else Handshake(input, login, []) == Failed(Refused(2), rest, [5, 255])
  {
    hide ReadRequest, Authenticate;
    if |input| >= 2 {
      var i, n := input[2..], input[1] as nat;
      assert input[..2][0] == input[0] && input[..2][1] == input[1];
      if n <= |i| {
        assert i[..n] == input[2..2 + n] && i[n..] == input[2 + n..];
        assert [] + [5 as byte, 255] == [5, 255] && [] + [5 as byte, 0] == [5, 0] && [] + [5 as byte, 2] == [5, 2];
      }
    }
  }

  /** A sub-negotiation of another version is refused without an answer; wrong credentials are answered and refused. */
  lemma {:induction false} LoginOutcomes(input: seq<byte>, login: Login, output: seq<byte>)
    ensures input == [] ==> Authenticate(input, login, output) == Failed(EndOfInput, [], output)
    ensures input != [] && input[0] != 1 ==>
              Authenticate(input, login, output) == Failed(Refused(2), input[1..], output)
    ensures input != [] && input[0] == 1 && !HoldsLogin(input) ==>
              Authenticate(input, login, output) == Failed(EndOfInput, [], output)
    ensures input != [] && input[0] == 1 && HoldsLogin(input) ==>
              var u := input[1] as nat;
              var p := input[2 + u] as nat;
              var rest := input[3 + u + p..];
              if login.decode(input[2..2 + u]) == login.user && login.decode(input[3 + u..3 + u + p]) == login.pass
              then Authenticate(input, login, output) == Done((), rest, output + [1, 0])
              else Authenticate(input, login, output) == Failed(Refused(2), rest, output + [1, 1])
  {
    hide ReadCounted;
    if input != [] {
      assert input[..1][0] == input[0];
      var i := input[1..];
      CountedOutcomes(i, output);
      if i != [] {
        var u := i[0] as nat;
        if 1 + u <= |i| {
          var i1 := i[1 + u..];
          assert i[1..1 + u] == input[2..2 + u] && i1 == input[2 + u..];
          CountedOutcomes(i1, output);
          if i1 != [] {
            var p := i1[0] as nat;
            if 1 + p <= |i1| {
              assert i1[1..1 + p] == input[3 + u..3 + u + p] && i1[1 + p..] == input[3 + u + p..];
            }
          }
        }
      }
    }
  }

  /** Version, user name and password are all there. */
  predicate HoldsLogin(input: seq<byte>) {
    |input| >= 2 && |input| >= 3 + input[1] as nat && |input| >= 3 + input[1] as nat + input[2 + input[1] as nat] as nat
  }

  lemma {:induction false} CountedOutcomes(input: seq<byte>, output: seq<byte>)
    ensures ReadCounted(input, output) ==
              if input != [] && |input| >= 1 + input[0] as nat
              then Done(input[1..1 + input[0] as nat], input[1 + input[0] as nat..], output)
              else Failed(EndOfInput, [], output)
  {
    if input != [] {
      assert input[..1][0] == input[0];
      var i, n := input[1..], input[0] as nat;
      if n <= |i| {
        assert i[..n] == input[1..1 + n] && i[n..] == input[1 + n..];
      }
    }
  }

  /** How many bytes an address takes behind the four bytes of the request, its own length byte included. */
  function AddressSize(input: seq<byte>): Option<nat>
    requires |input| >= 4
  {
    if input[3] == 1 then Some(4) else if input[3] == 4 then Some(16)
    else if input[3] == 3 && |input| > 4 then Some(1 + input[4] as nat) else None
  }

  function AddressAt(input: seq<byte>): Host
    requires |input| >= 4 && AddressSize(input).Some? && |input| >= 4 + AddressSize(input).value
  {
    var end := 4 + AddressSize(input).value;
    if input[3] == 1 then V4(input[4..end]) else if input[3] == 4 then V6(input[4..end]) else Domain(input[5..end])
  }

  /** A request is refused for its version, its command or its address type, in this order, and nothing is written. */
  lemma {:induction false} RequestOutcomes(input: seq<byte>, output: seq<byte>)
    ensures |input| < 4 ==> ReadRequest(input, output) == Failed(EndOfInput, [], output)
    ensures |input| >= 4 && input[0] != 5 ==> ReadRequest(input, output) == Failed(Refused(1), input[4..], output)
    ensures |input| >= 4 && input[0] == 5 && input[1] != 1 ==>
              ReadRequest(input, output) == Failed(Refused(7), input[4..], output)
    ensures |input| >= 4 && input[0] == 5 && input[1] == 1 && input[3] !in {1, 3, 4} ==>
              ReadRequest(input, output) == Failed(Refused(8), input[4..], output)
    ensures |input| >= 4 && input[0] == 5 && input[1] == 1 && input[3] in {1, 3, 4} ==>
              if AddressSize(input).Some? && |input| >= 6 + AddressSize(input).value then
                var end := 4 + AddressSize(input).value;
                ReadRequest(input, output) ==
                  Done(Target(AddressAt(input), 256 * input[end] as nat + input[end + 1] as nat), input[end + 2..],
                       output)
              else ReadRequest(input, output) == Failed(EndOfInput, [], output)
  {
    if |input| >= 4 {
      var i := input[4..];
      assert forall k :: 0 <= k < 4 ==> input[..4][k] == input[k];
      HostOutcomes(input, output);
      if input[3] in {1, 3, 4} && AddressSize(input).Some? && |input| >= 4 + AddressSize(input).value {
        var end := 4 + AddressSize(input).value;
        hide ReadHost, AddressSize, AddressAt;
        PortOutcome(input, end, output);
      }
    }
  }

  lemma {:induction false} PortOutcome(input: seq<byte>, end: nat, output: seq<byte>)
    requires end <= |input|
    ensures Read(input[end..], 2, output) ==
              if |input| >= end + 2 then Done(input[end..end + 2], input[end + 2..], output)
              else Failed(EndOfInput, [], output)
    ensures |input| >= end + 2 ==> FromBig(input[end..end + 2]) == 256 * input[end] as nat + input[end + 1] as nat
  {
    if |input| >= end + 2 {
      assert input[end..][..2] == input[end..end + 2] && input[end..][2..] == input[end + 2..];
      var b := input[end..end + 2];
      assert b[..1] == [b[0]] && b[..1][..0] == [] && FromBig(b[..1]) == b[0] as nat;
    }
  }

  lemma {:induction false} HostOutcomes(input: seq<byte>, output: seq<byte>)
    requires |input| >= 4
    ensures input[3] !in {1, 3, 4} ==> ReadHost(input[4..], input[3], output) == Failed(Refused(8), input[4..], output)
    ensures input[3] in {1, 3, 4} ==>
              ReadHost(input[4..], input[3], output) ==
                if AddressSize(input).Some? && |input| >= 4 + AddressSize(input).value
                then Done(AddressAt(input), input[4 + AddressSize(input).value..], output)
                else Failed(EndOfInput, [], output)
  {
    var i := input[4..];
    if input[3] == 3 {
      CountedOutcomes(i, output);
      if i != [] && |i| >= 1 + i[0] as nat {
        var n := i[0] as nat;
        assert i[1..1 + n] == input[5..5 + n] && i[1 + n..] == input[5 + n..];
      }
    } else {
      var n := if input[3] == 1 then 4 else 16;
      if |i| >= n {
        assert i[..n] == input[4..4 + n] && i[n..] == input[4 + n..];
      }
    }
  }

  /** What a client sends, number by number. */
  lemma {:induction false} WireFormat(c: Client)
    requires ValidClient(c)
    ensures Encode(c) ==
              [5, |c.methods| as byte] + c.methods
              + (match c.credentials
                 case None => []
                 case Some((user, pass)) => [1, |user| as byte] + user + [|pass| as byte] + pass)
              + [5, 1, c.reserved]
              + (match c.target.host
                 case V4(a) => [1] + a
                 case V6(a) => [4] + a
                 case Domain(name) => [3, |name| as byte] + name)
              + [(c.target.port / 256) as byte, (c.target.port % 256) as byte]
  {
    PortBytes(c.target.port);
  }

  lemma {:induction false} PortBytes(n: nat)
    requires n < 65536
    ensures ToBig(n, 2) == [(n / 256) as byte, (n % 256) as byte]
  {
    assert ToBig(n / 256, 1) == ToBig(n / 256 / 256, 0) + [(n / 256 % 256) as byte];
  }
}

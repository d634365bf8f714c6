/**
 The SOCKS5 handshake of the proxy side: greeting, optional user name and password, and the CONNECT
 request (sections 3 to 6 of RFC 1928, section 2 of RFC 1929), read from a stream of bytes.
 */
module Socks5 {
  import opened Bytes
  import opened Options

  const VERSION: byte := 5
  const AUTH_NONE: byte := 0
  const AUTH_USERPASS: byte := 2
  const NO_ACCEPTABLE: byte := 0xFF
  const CONNECT: byte := 1
  const ATYP_IPV4: byte := 1
  const ATYP_DOMAIN: byte := 3
  const ATYP_IPV6: byte := 4
  const GENERAL_FAILURE: byte := 1
  const NOT_ALLOWED: byte := 2
  const COMMAND_NOT_SUPPORTED: byte := 7
  const ATYP_NOT_SUPPORTED: byte := 8

  /** A destination, before it is turned into text. */
  datatype Host = V4(address: seq<byte>) | V6(address: seq<byte>) | Domain(name: seq<byte>)

  datatype Target = Target(host: Host, port: nat)

  /** Why a handshake ends early: it is refused with a reply code, or the client stops sending. */
  datatype Failure = Refused(reply: byte) | EndOfInput

  /** A step of the handshake: what it yields, what is left to read, and all that was written. */
  datatype Stage<+T> = Done(value: T, input: seq<byte>, output: seq<byte>)
                     | Failed(failure: Failure, input: seq<byte>, output: seq<byte>)

  /** The credentials the proxy asks for, and how it turns received bytes into text. */
  datatype Login = Login(user: string, pass: string, decode: seq<byte> -> string)

  // ---- the handshake as a function of the bytes ----

  /** `readexactly`; a short stream is used up. */
  function Read(input: seq<byte>, n: nat, output: seq<byte>): Stage<seq<byte>> {
    if n <= |input| then Done(input[..n], input[n..], output) else Failed(EndOfInput, [], output)
  }

  /** A length byte and that many bytes. */
  function ReadCounted(input: seq<byte>, output: seq<byte>): Stage<seq<byte>> {
    match Read(input, 1, output)
    case Failed(f, i, o) => Failed(f, i, o)
    case Done(n, i, o) => Read(i, n[0] as nat, o)
  }

  function Greet(input: seq<byte>, chosen: byte, output: seq<byte>): Stage<()> {
    match Read(input, 2, output)
    case Failed(f, i, o) => Failed(f, i, o)
    case Done(header, i, o) =>
      if header[0] != VERSION then Failed(Refused(GENERAL_FAILURE), i, o)
      else match Read(i, header[1] as nat, o)
        case Failed(f, i', o') => Failed(f, i', o')
        case Done(methods, i', o') =>
          if chosen !in methods then Failed(Refused(NOT_ALLOWED), i', o' + [VERSION, NO_ACCEPTABLE])
          else Done((), i', o' + [VERSION, chosen])
  }

  function Authenticate(input: seq<byte>, login: Login, output: seq<byte>): Stage<()> {
    match Read(input, 1, output)
    case Failed(f, i, o) => Failed(f, i, o)
    case Done(version, i, o) =>
      if version[0] != 1 then Failed(Refused(NOT_ALLOWED), i, o)
      else match ReadCounted(i, o)
        case Failed(f, i1, o1) => Failed(f, i1, o1)
        case Done(user, i1, o1) =>
          match ReadCounted(i1, o1)
          case Failed(f, i2, o2) => Failed(f, i2, o2)
          case Done(pass, i2, o2) =>
            if login.decode(user) == login.user && login.decode(pass) == login.pass then Done((), i2, o2 + [1, 0])
            else Failed(Refused(NOT_ALLOWED), i2, o2 + [1, 1])
  }

  function ReadHost(input: seq<byte>, atyp: byte, output: seq<byte>): Stage<Host> {
    if atyp == ATYP_IPV4 then
      match Read(input, 4, output) { case Failed(f, i, o) => Failed(f, i, o) case Done(a, i, o) => Done(V4(a), i, o) }
    else if atyp == ATYP_IPV6 then
      match Read(input, 16, output) { case Failed(f, i, o) => Failed(f, i, o) case Done(a, i, o) => Done(V6(a), i, o) }
    else if atyp == ATYP_DOMAIN then
      match ReadCounted(input, output) {
        case Failed(f, i, o) => Failed(f, i, o)
        case Done(a, i, o) => Done(Domain(a), i, o)
      }
    else Failed(Refused(ATYP_NOT_SUPPORTED), input, output)
  }

  function ReadRequest(input: seq<byte>, output: seq<byte>): Stage<Target> {
    match Read(input, 4, output)
    case Failed(f, i, o) => Failed(f, i, o)
    case Done(header, i, o) =>
      if header[0] != VERSION then Failed(Refused(GENERAL_FAILURE), i, o)
      else if header[1] != CONNECT then Failed(Refused(COMMAND_NOT_SUPPORTED), i, o)
      else match ReadHost(i, header[3], o)
        case Failed(f, i1, o1) => Failed(f, i1, o1)
        case Done(host, i1, o1) =>
          match Read(i1, 2, o1)
          case Failed(f, i2, o2) => Failed(f, i2, o2)
          case Done(port, i2, o2) => Done(Target(host, FromBig(port)), i2, o2)
  }

  function Chosen(login: Option<Login>): byte {
    if login.Some? then AUTH_USERPASS else AUTH_NONE
  }

  function Handshake(input: seq<byte>, login: Option<Login>, output: seq<byte>): Stage<Target> {
    match Greet(input, Chosen(login), output)
    case Failed(f, i, o) => Failed(f, i, o)
    case Done(_, i, o) =>
      if login.None? then ReadRequest(i, o)
      else match Authenticate(i, login.value, o)
        case Failed(f, i1, o1) => Failed(f, i1, o1)
        case Done(_, i1, o1) => ReadRequest(i1, o1)
  }

  // ---- what a client sends ----

  /** Everything a client says before its data. `credentials` only when it is asked for them. */
  datatype Client = Client(methods: seq<byte>, credentials: Option<(seq<byte>, seq<byte>)>, reserved: byte,
                           target: Target)

  predicate ValidHost(h: Host) {
    match h
    case V4(a) => |a| == 4
    case V6(a) => |a| == 16
    case Domain(n) => |n| < 256
  }

  predicate ValidTarget(t: Target) {
    ValidHost(t.host) && t.port < 65536
  }

  predicate ValidClient(c: Client) {
    && |c.methods| < 256 && ValidTarget(c.target)
    && (c.credentials.Some? ==> |c.credentials.value.0| < 256 && |c.credentials.value.1| < 256)
  }

  function Counted(s: seq<byte>): seq<byte>
    requires |s| < 256
  {
    [|s| as byte] + s
  }

  /** ATYP, address and port, in a request as in a reply. */
  function EncodeTarget(t: Target): seq<byte>
    requires ValidTarget(t)
  {
    (match t.host
     case V4(a) => [ATYP_IPV4] + a
     case V6(a) => [ATYP_IPV6] + a
     case Domain(n) => [ATYP_DOMAIN] + Counted(n)) + ToBig(t.port, 2)
  }

  function EncodeLogin(c: Option<(seq<byte>, seq<byte>)>): seq<byte>
    requires c.Some? ==> |c.value.0| < 256 && |c.value.1| < 256
  {
    if c.None? then [] else [1 as byte] + (Counted(c.value.0) + Counted(c.value.1))
  }

  function Encode(c: Client): seq<byte>
    requires ValidClient(c)
  {
    [VERSION] + Counted(c.methods) + EncodeLogin(c.credentials) + [VERSION, CONNECT, c.reserved]
      + EncodeTarget(c.target)
  }

  /** The client offers the method it is asked for, and its credentials are the right ones. */
  predicate Acceptable(c: Client, login: Option<Login>) {
    && Chosen(login) in c.methods && (c.credentials.Some? <==> login.Some?)
    && (login.Some? ==> login.value.decode(c.credentials.value.0) == login.value.user
                        && login.value.decode(c.credentials.value.1) == login.value.pass)
  }

  function Answer(login: Option<Login>): seq<byte> {
    [VERSION, Chosen(login)] + if login.Some? then [1, 0] else []
  }

  // ---- reading undoes encoding, and nothing else is accepted ----

  lemma {:induction false} ReadPrefix(s: seq<byte>, rest: seq<byte>, output: seq<byte>)
    ensures Read(s + rest, |s|, output) == Done(s, rest, output)
  {
    assert (s + rest)[..|s|] == s && (s + rest)[|s|..] == rest;
  }

  lemma {:induction false} ReadCountedPrefix(s: seq<byte>, rest: seq<byte>, output: seq<byte>)
    requires |s| < 256
    ensures ReadCounted(Counted(s) + rest, output) == Done(s, rest, output)
  {
    var n := [|s| as byte];
    ReadPrefix(n, s + rest, output);
    ReadPrefix(s, rest, output);
    assert Counted(s) + rest == n + (s + rest);
  }

  lemma {:induction false} ReadSplits(input: seq<byte>, n: nat, output: seq<byte>)
    requires Read(input, n, output).Done?
    ensures var r := Read(input, n, output);
            |r.value| == n && input == r.value + r.input && r.output == output
  {
  }

  lemma {:induction false} ReadCountedSplits(input: seq<byte>, output: seq<byte>)
    requires ReadCounted(input, output).Done?
    ensures var r := ReadCounted(input, output);
            |r.value| < 256 && input == Counted(r.value) + r.input && r.output == output
  {
    var first := Read(input, 1, output);
    ReadSplits(input, 1, output);
    ReadSplits(first.input, first.value[0] as nat, output);
    var r := ReadCounted(input, output);
    assert first.value == [|r.value| as byte];
    assert input == first.value + (r.value + r.input);
  }

  lemma {:induction false} GreetReads(methods: seq<byte>, chosen: byte, rest: seq<byte>, output: seq<byte>)
    requires |methods| < 256 && chosen in methods
    ensures Greet([VERSION] + Counted(methods) + rest, chosen, output) == Done((), rest, output + [VERSION, chosen])
  {
    var header := [VERSION, |methods| as byte];
    assert [VERSION] + Counted(methods) + rest == header + (methods + rest);
    ReadPrefix(header, methods + rest, output);
    ReadPrefix(methods, rest, output);
  }

  lemma {:induction false} GreetSplits(input: seq<byte>, chosen: byte, output: seq<byte>) returns (methods: seq<byte>)
    requires Greet(input, chosen, output).Done?
    ensures |methods| < 256 && chosen in methods
    ensures input == [VERSION] + Counted(methods) + Greet(input, chosen, output).input
    ensures Greet(input, chosen, output).output == output + [VERSION, chosen]
  {
    var header := Read(input, 2, output);
    ReadSplits(input, 2, output);
    var body := Read(header.input, header.value[1] as nat, output);
    ReadSplits(header.input, header.value[1] as nat, output);
    methods := body.value;
    assert header.value == [VERSION, |methods| as byte];
    assert input == header.value + (methods + body.input);
  }

  lemma {:induction false} LoginReads(c: (seq<byte>, seq<byte>), login: Login, rest: seq<byte>, output: seq<byte>)
    requires |c.0| < 256 && |c.1| < 256 && login.decode(c.0) == login.user && login.decode(c.1) == login.pass
    ensures Authenticate(EncodeLogin(Some(c)) + rest, login, output) == Done((), rest, output + [1, 0])
  {
    var one := [1 as byte];
    assert EncodeLogin(Some(c)) + rest == one + (Counted(c.0) + (Counted(c.1) + rest));
    ReadPrefix(one, Counted(c.0) + (Counted(c.1) + rest), output);
    ReadCountedPrefix(c.0, Counted(c.1) + rest, output);
    ReadCountedPrefix(c.1, rest, output);
    hide ReadCounted, Read, Counted;
  }

  lemma {:induction false} LoginSplits(input: seq<byte>, login: Login, output: seq<byte>)
    returns (c: (seq<byte>, seq<byte>))
    requires Authenticate(input, login, output).Done?
    ensures |c.0| < 256 && |c.1| < 256 && login.decode(c.0) == login.user && login.decode(c.1) == login.pass
    ensures input == EncodeLogin(Some(c)) + Authenticate(input, login, output).input
    ensures Authenticate(input, login, output).output == output + [1, 0]
  {
    hide ReadCounted, Read, Counted;
    var version := Read(input, 1, output);
    ReadSplits(input, 1, output);
    var user := ReadCounted(version.input, output);
    ReadCountedSplits(version.input, output);
    var pass := ReadCounted(user.input, output);
    ReadCountedSplits(user.input, output);
    c := (user.value, pass.value);
    assert version.value == [1];
    assert input == version.value + (Counted(user.value) + (Counted(pass.value) + pass.input));
  }

  lemma {:induction false} RequestReads(reserved: byte, t: Target, rest: seq<byte>, output: seq<byte>)
    requires ValidTarget(t)
    ensures ReadRequest([VERSION, CONNECT, reserved] + EncodeTarget(t) + rest, output) == Done(t, rest, output)
  {
    var port := ToBig(t.port, 2);
    var atyp := EncodeTarget(t)[0];
    var address := EncodeTarget(t)[1..|EncodeTarget(t)| - 2];
    var header := [VERSION, CONNECT, reserved, atyp];
    assert [VERSION, CONNECT, reserved] + EncodeTarget(t) + rest == header + (address + (port + rest));
    ReadPrefix(header, address + (port + rest), output);
    HostReads(t.host, atyp, address, port + rest, output);
    ReadPrefix(port, rest, output);
    assert Limit(2) == 65536 by {
      assert Limit(1) == 256 && Limit(0) == 1;
    }
    BigRoundTrip(t.port, 2);
    hide Read, ReadHost, EncodeTarget;
  }

  lemma {:induction false} HostReads(h: Host, atyp: byte, address: seq<byte>, rest: seq<byte>, output: seq<byte>)
    requires ValidHost(h)
    requires match h
             case V4(a) => atyp == ATYP_IPV4 && address == a
             case V6(a) => atyp == ATYP_IPV6 && address == a
             case Domain(n) => atyp == ATYP_DOMAIN && address == Counted(n)
    ensures ReadHost(address + rest, atyp, output) == Done(h, rest, output)
  {
    if h.Domain? {
      ReadCountedPrefix(h.name, rest, output);
    } else {
      ReadPrefix(address, rest, output);
    }
    hide Read, ReadCounted, Counted;
  }

  lemma {:induction false} HostSplits(input: seq<byte>, atyp: byte, output: seq<byte>) returns (address: seq<byte>)
    requires ReadHost(input, atyp, output).Done?
    ensures var r := ReadHost(input, atyp, output);
            && ValidHost(r.value) && input == address + r.input && r.output == output
            && (match r.value
                case V4(a) => atyp == ATYP_IPV4 && address == a
                case V6(a) => atyp == ATYP_IPV6 && address == a
                case Domain(n) => atyp == ATYP_DOMAIN && address == Counted(n))
  {
    if atyp == ATYP_DOMAIN {
      ReadCountedSplits(input, output);
      address := Counted(ReadCounted(input, output).value);
    } else {
      var n := if atyp == ATYP_IPV4 then 4 else 16;
      ReadSplits(input, n, output);
      address := Read(input, n, output).value;
    }
    hide Read, ReadCounted, Counted;
  }

  lemma {:induction false} RequestSplits(input: seq<byte>, output: seq<byte>) returns (reserved: byte)
    requires ReadRequest(input, output).Done?
    ensures var r := ReadRequest(input, output);
            ValidTarget(r.value) && input == [VERSION, CONNECT, reserved] + EncodeTarget(r.value) + r.input
            && r.output == output
  {
    hide Read, ReadHost, ReadCounted, Counted, FromBig, ToBig, Limit, EncodeTarget;
    var header := Read(input, 4, output);
    ReadSplits(input, 4, output);
    reserved := header.value[2];
    var host := ReadHost(header.input, header.value[3], output);
    var address := HostSplits(header.input, header.value[3], output);
    var port := Read(host.input, 2, output);
    ReadSplits(host.input, 2, output);
    PortBack(port.value);
    var t := Target(host.value, FromBig(port.value));
    TargetIs(t, header.value[3], address, port.value);
    assert ReadRequest(input, output) == Done(t, port.input, output);
    hide ReadRequest, ValidHost;
    assert header.value == [VERSION, CONNECT, reserved, header.value[3]];
    assert input == header.value + (address + (port.value + port.input));
    assert header.value + (address + (port.value + port.input))
           == [VERSION, CONNECT, reserved] + ([header.value[3]] + address + port.value) + port.input;
  }

  lemma {:induction false} TargetIs(t: Target, atyp: byte, address: seq<byte>, port: seq<byte>)
    requires ValidTarget(t) && ToBig(t.port, 2) == port
    requires match t.host
             case V4(a) => atyp == ATYP_IPV4 && address == a
             case V6(a) => atyp == ATYP_IPV6 && address == a
             case Domain(n) => atyp == ATYP_DOMAIN && address == Counted(n)
    ensures EncodeTarget(t) == [atyp] + address + port
  {
    hide Counted, ToBig;
  }

  lemma {:induction false} PortBack(b: seq<byte>)
    requires |b| == 2
    ensures FromBig(b) < 65536 && ToBig(FromBig(b), 2) == b
  {
    var hi, lo := b[0] as nat, b[1] as nat;
    assert b[..1] == [b[0]] && b[..1][..0] == [];
    assert FromBig([b[0]]) == hi;
    assert FromBig(b) == hi * 256 + lo;
    assert ToBig(hi, 1) == ToBig(0, 0) + [b[0]];
    assert b == [b[0]] + [b[1]];
  }

  lemma {:induction false} EncodeShape(c: Client, tail: seq<byte>)
    requires ValidClient(c)
    ensures Encode(c) + tail == [VERSION] + Counted(c.methods)
            + (EncodeLogin(c.credentials) + ([VERSION, CONNECT, c.reserved] + EncodeTarget(c.target) + tail))
  {
    hide EncodeTarget, Counted, EncodeLogin;
  }

  /** A well-formed handshake is accepted, and exactly what follows it is left unread. */
  lemma {:induction false} HandshakeAccepted(c: Client, login: Option<Login>, tail: seq<byte>)
    requires ValidClient(c) && Acceptable(c, login)
    ensures Handshake(Encode(c) + tail, login, []) == Done(c.target, tail, Answer(login))
  {
    hide Greet, Authenticate, ReadRequest, Encode, EncodeTarget, Counted;
    var request := [VERSION, CONNECT, c.reserved] + EncodeTarget(c.target) + tail;
    var first := [VERSION, Chosen(login)];
    EncodeShape(c, tail);
    GreetReads(c.methods, Chosen(login), EncodeLogin(c.credentials) + request, []);
    assert [] + first == first;
    if login.Some? {
      LoginReads(c.credentials.value, login.value, request, first);
      RequestReads(c.reserved, c.target, tail, first + [1, 0]);
    } else {
      assert EncodeLogin(c.credentials) + request == request;
      RequestReads(c.reserved, c.target, tail, first);
      assert first + [] == first;
    }
  }

  /** Nothing else is: an accepted stream starts with a handshake that offered and proved what was asked. */
  lemma {:induction false} OnlyHandshakesAccepted(input: seq<byte>, login: Option<Login>) returns (c: Client)
    requires Handshake(input, login, []).Done?
    ensures var r := Handshake(input, login, []);
            ValidClient(c) && Acceptable(c, login) && c.target == r.value && input == Encode(c) + r.input
            && r.output == Answer(login)
  {
    hide Greet, Authenticate, ReadRequest, Encode, EncodeTarget, Counted, ValidTarget;
    var first := [VERSION, Chosen(login)];
    var greeting := Greet(input, Chosen(login), []);
    var methods := GreetSplits(input, Chosen(login), []);
    assert [] + first == first;
    if login.Some? {
      var auth := Authenticate(greeting.input, login.value, first);
      var credentials := LoginSplits(greeting.input, login.value, first);
      var reserved := RequestSplits(auth.input, first + [1, 0]);
      c := Client(methods, Some(credentials), reserved, ReadRequest(auth.input, first + [1, 0]).value);
    } else {
      var reserved := RequestSplits(greeting.input, first);
      c := Client(methods, None, reserved, ReadRequest(greeting.input, first).value);
      assert first + [] == first;
      assert EncodeLogin(None) + greeting.input == greeting.input;
    }
    EncodeShape(c, Handshake(input, login, []).input);
  }

  /** After a refused sub-negotiation the handshake fails and success was never written. */
  lemma {:induction false} RefusedWithoutCredentials(input: seq<byte>, login: Login)
    requires Greet(input, AUTH_USERPASS, []).Done?
             && Authenticate(Greet(input, AUTH_USERPASS, []).input, login, [VERSION, AUTH_USERPASS]).Failed?
    ensures Handshake(input, Some(login), []).Failed? && [1, 0] != Handshake(input, Some(login), []).output[2..]
  {
    assert [] + [VERSION, AUTH_USERPASS] == [VERSION, AUTH_USERPASS];
    var methods := GreetSplits(input, AUTH_USERPASS, []);
    AuthenticateWrites(Greet(input, AUTH_USERPASS, []).input, login, [VERSION, AUTH_USERPASS]);
    hide Greet, Authenticate;
  }

  lemma {:induction false} AuthenticateWrites(input: seq<byte>, login: Login, output: seq<byte>)
    requires Authenticate(input, login, output).Failed?
    ensures Authenticate(input, login, output).output == output
            || Authenticate(input, login, output).output == output + [1, 1]
  {
  }

  // ---- the handshake as it runs ----

  /** The stream to the client: what it sent and has not been read, and what was written to it. */
  class Channel {
    var input: seq<byte>
    var output: seq<byte>

    constructor (sent: seq<byte>)
      ensures input == sent && output == []
    {
      input, output := sent, [];
    }

    method ReadExactly(n: nat) returns (data: Option<seq<byte>>)
      modifies this`input
      ensures match Read(old(input), n, output)
              case Done(d, i, o) => data == Some(d) && input == i
              case Failed(_, i, o) => data == None && input == i
    {
      if n <= |input| {
        data, input := Some(input[..n]), input[n..];
      } else {
        data, input := None, [];
      }
    }

    method Write(data: seq<byte>)
      modifies this`output
      ensures output == old(output) + data
    {
      output := output + data;
    }

    method ReadCountedBytes() returns (data: Option<seq<byte>>)
      modifies this`input
      ensures match ReadCounted(old(input), output)
              case Done(d, i, o) => data == Some(d) && input == i && output == o
              case Failed(f, i, o) => data == None && input == i && output == o && f == EndOfInput
    {
      var length := ReadExactly(1);
      if length.None? {
        return None;
      }
      data := ReadExactly(length.value[0] as nat);
    }

    method UserPassSubnegotiate(login: Login) returns (failure: Option<Failure>)
      modifies this
      ensures match Authenticate(old(input), login, old(output))
              case Done(_, i, o) => failure == None && input == i && output == o
              case Failed(f, i, o) => failure == Some(f) && input == i && output == o
    {
      var version := ReadExactly(1);
      if version.None? {
        return Some(EndOfInput);
      }
      if version.value[0] != 1 {
        return Some(Refused(NOT_ALLOWED));
      }
      var user := ReadCountedBytes();
      if user.None? {
        return Some(EndOfInput);
      }
      var pass := ReadCountedBytes();
      if pass.None? {
        return Some(EndOfInput);
      }
      hide ReadCounted;
      if login.decode(user.value) == login.user && login.decode(pass.value) == login.pass {
        Write([1, 0]);
        return None;
      }
      Write([1, 1]);
      return Some(Refused(NOT_ALLOWED));
    }

    method ReadAddress(atyp: byte) returns (host: Option<Host>, failure: Failure)
      modifies this`input
      ensures match ReadHost(old(input), atyp, output)
              case Done(h, i, o) => host == Some(h) && input == i && output == o
              case Failed(f, i, o) => host == None && failure == f && input == i && output == o
    {
      failure := EndOfInput;
      var raw: Option<seq<byte>>;
      if atyp == ATYP_IPV4 {
        raw := ReadExactly(4);
        host := if raw.None? then None else Some(V4(raw.value));
      } else if atyp == ATYP_IPV6 {
        raw := ReadExactly(16);
        host := if raw.None? then None else Some(V6(raw.value));
      } else if atyp == ATYP_DOMAIN {
        raw := ReadCountedBytes();
        host := if raw.None? then None else Some(Domain(raw.value));
      } else {
        host, failure := None, Refused(ATYP_NOT_SUPPORTED);
      }
    }

    method SelectMethod(chosen: byte) returns (failure: Option<Failure>)
      modifies this
      ensures match Greet(old(input), chosen, old(output))
              case Done(_, i, o) => failure == None && input == i && output == o
              case Failed(f, i, o) => failure == Some(f) && input == i && output == o
    {
      var header := ReadExactly(2);
      if header.None? {
        return Some(EndOfInput);
      }
      if header.value[0] != VERSION {
        return Some(Refused(GENERAL_FAILURE));
      }
      var methods := ReadExactly(header.value[1] as nat);
      if methods.None? {
        return Some(EndOfInput);
      }
      if chosen !in methods.value {
        Write([VERSION, NO_ACCEPTABLE]);
        return Some(Refused(NOT_ALLOWED));
      }
      Write([VERSION, chosen]);
      return None;
    }

    method TakeRequest() returns (target: Option<Target>, failure: Failure)
      modifies this
      ensures match ReadRequest(old(input), old(output))
              case Done(t, i, o) => target == Some(t) && input == i && output == o
              case Failed(f, i, o) => target == None && failure == f && input == i && output == o
    {
      hide ReadHost, FromBig;
      target, failure := None, EndOfInput;
      var request := ReadExactly(4);
      if request.None? {
        return;
      }
      if request.value[0] != VERSION {
        return None, Refused(GENERAL_FAILURE);
      }
      if request.value[1] != CONNECT {
        return None, Refused(COMMAND_NOT_SUPPORTED);
      }
      var host, problem := ReadAddress(request.value[3]);
      if host.None? {
        return None, problem;
      }
      var port := ReadExactly(2);
      if port.None? {
        return;
      }
      return Some(Target(host.value, FromBig(port.value))), failure;
    }

    method Negotiate(login: Option<Login>) returns (target: Option<Target>, failure: Failure)
      modifies this
      ensures match Handshake(old(input), login, old(output))
              case Done(t, i, o) => target == Some(t) && input == i && output == o
              case Failed(f, i, o) => target == None && failure == f && input == i && output == o
    {
      hide Greet, Authenticate, ReadRequest;
      var refused := SelectMethod(if login.Some? then AUTH_USERPASS else AUTH_NONE);
      if refused.Some? {
        return None, refused.value;
      }
      if login.Some? {
        refused := UserPassSubnegotiate(login.value);
        if refused.Some? {
          return None, refused.value;
        }
      }
      target, failure := TakeRequest();
    }
  }
}

/**
 * The SOCKS5 handshake (RFC 1928, sections 3 to 5): what the client-side agent accepts from a client,
 * what the service-side agent sends to the SOCKS5 service in its place, and how the two agree.
 */
module Socks5 {
  import opened Bytes
  import opened Bufio
  import opened IpText

  const VERSION: byte := 5
  const NO_AUTH: byte := 0
  const CONNECT: byte := 1
  const IPV4: byte := 1
  const DOMAIN: byte := 3
  const IPV6: byte := 4

  datatype ConnectRequest = ConnectRequest(version: byte, command: byte, destAddr: bytes, destPort: nat)

  datatype Error = EOF | UnexpectedEOF | InvalidVersion | ShortRead | UnknownAddressType
  datatype Result<T> = Ok(value: T, stream: Stream) | Fail(error: Error, stream: Stream)

  // ---------------------------------------------------------------- the messages of RFC 1928

  datatype Address = V4(ip4: Ip4) | V6(ip6: Ip16) | Domain(name: bytes)

  predicate ValidAddress(a: Address) {
    a.Domain? ==> |a.name| <= 255
  }

  function Greeting(methods: bytes): bytes
    requires |methods| <= 255
  {
    [VERSION, |methods|] + methods
  }

  function AddressBytes(a: Address): bytes
    requires ValidAddress(a)
  {
    match a
    case V4(ip) => [IPV4] + ip
    case V6(ip) => [IPV6] + ip
    case Domain(name) => [DOMAIN, |name|] + name
  }

  function RequestBytes(version: byte, command: byte, reserved: byte, a: Address, port: nat): bytes
    requires ValidAddress(a)
  {
    [version, command, reserved] + AddressBytes(a) + BigEndian(port, 2)
  }

  /** The address as the text the agents pass on. */
  function AddressText(a: Address): bytes {
    match a
    case V4(ip) => IpString(ip)
    case V6(ip) => IpString(ip)
    case Domain(name) => name
  }

  // ---------------------------------------------------------------- the client-side agent's reads

  function ReadByte(s: Stream): Result<byte> {
    var g := ReadSome(s, 1);
    if g.data == [] then Fail(EOF, g.stream) else Ok(g.data[0], g.stream)
  }

  /** io.ReadAtLeast for exactly `k` bytes. */
  function ReadExactly(s: Stream, k: nat): (r: Result<bytes>)
    ensures r.Ok? ==> |r.value| == k
  {
    var g := FullRead(s, k);
    if |g.data| == k then Ok(g.data, g.stream)
    else Fail(if g.data == [] then EOF else UnexpectedEOF, g.stream)
  }

  /** The version is checked; the methods are skipped by one plain read whose outcome is ignored. */
  function ReadGreeting(s: Stream): Result<()> {
    match ReadByte(s)
    case Fail(e, s1) => Fail(e, s1)
    case Ok(version, s1) =>
      if version != VERSION then Fail(InvalidVersion, s1)
      else
        match ReadByte(s1)
        case Fail(e, s2) => Fail(e, s2)
        case Ok(n, s2) => Ok((), if n == 0 then s2 else ReadSome(s2, n).stream)
  }

  function ReadAddress(s: Stream): Result<bytes> {
    match ReadByte(s)
    case Fail(e, s1) => Fail(e, s1)
    case Ok(kind, s1) =>
      if kind == IPV4 then
        match ReadExactly(s1, 4)
        case Fail(e, s2) => Fail(e, s2)
        case Ok(ip, s2) => Ok(IpString(ip), s2)
      else if kind == IPV6 then
        match ReadExactly(s1, 16)
        case Fail(e, s2) => Fail(e, s2)
        case Ok(ip, s2) => Ok(IpString(ip), s2)
      else if kind == DOMAIN then
        match ReadByte(s1)
        case Fail(e, s2) => Fail(e, s2)
        case Ok(n, s2) => ReadExactly(s2, n)
      else Fail(UnknownAddressType, s1)
  }

  /** Three bytes by one plain read, then address and port; version and command are not checked. */
  function ReadRequest(s: Stream): Result<ConnectRequest> {
    var head := ReadSome(s, 3);
    if head.data == [] then Fail(EOF, head.stream)
    else if |head.data| != 3 then Fail(ShortRead, head.stream)
    else
      match ReadAddress(head.stream)
      case Fail(e, s1) => Fail(e, s1)
      case Ok(addr, s1) =>
        match ReadExactly(s1, 2)
        case Fail(e, s2) => Fail(e, s2)
        case Ok(port, s2) =>
          Ok(ConnectRequest(head.data[0], head.data[1], addr, Word(port[0], port[1])), s2)
  }

  function ReadHandshake(s: Stream): Result<ConnectRequest> {
    match ReadGreeting(s)
    case Fail(e, s1) => Fail(e, s1)
    case Ok(_, s1) => ReadRequest(s1)
  }

  /** The plain reads of the handshake return all they were asked for, or all there is. */
  predicate FullReads(s: Stream) {
    && (ReadByte(s).Ok? && ReadByte(ReadByte(s).stream).Ok? ==>
          var n := ReadByte(ReadByte(s).stream);
          n.value > 0 ==> IsFull(n.stream, n.value))
    && (ReadGreeting(s).Ok? ==> IsFull(ReadGreeting(s).stream, 3))
  }

  predicate IsFull(s: Stream, k: nat)
    requires k > 0
  {
    |ReadSome(s, k).data| == Min(k, |Pending(s)|)
  }

  // ---------------------------------------------------------------- arrival does not matter

  /** All bytes there at once. */
  function AtOnce(p: bytes): Stream {
    Stream(p, [])
  }

  /** Two results that differ at most in how the rest of the bytes will arrive. */
  predicate Same<T(==)>(a: Result<T>, b: Result<T>) {
    && WellFormed(a.stream) && WellFormed(b.stream) && Pending(a.stream) == Pending(b.stream)
    && a.Ok? == b.Ok?
    && (if a.Ok? then a.value == b.value else a.error == b.error)
  }

  predicate SamePending(s: Stream, t: Stream) {
    WellFormed(s) && WellFormed(t) && Pending(s) == Pending(t)
  }

  lemma SomeFull(s: Stream, t: Stream, k: nat)
    requires SamePending(s, t) && k > 0
    requires IsFull(s, k) && IsFull(t, k)
    ensures ReadSome(s, k).data == ReadSome(t, k).data
    ensures SamePending(ReadSome(s, k).stream, ReadSome(t, k).stream)
  {
    hide ReadSome, Flatten;
    var g, h := ReadSome(s, k), ReadSome(t, k);
    assert g.data == Pending(s)[..|g.data|] && Pending(g.stream) == Pending(s)[|g.data|..];
    assert h.data == Pending(t)[..|h.data|] && Pending(h.stream) == Pending(t)[|h.data|..];
  }

  lemma OneByteIsFull(s: Stream)
    requires WellFormed(s)
    ensures IsFull(s, 1)
  {
    hide ReadSome, Flatten;
    var g := ReadSome(s, 1);
    assert |g.data + Pending(g.stream)| == |Pending(s)|;
  }

  lemma AtOnceIsFull(p: bytes, k: nat)
    requires k > 0
    ensures IsFull(AtOnce(p), k) && ReadSome(AtOnce(p), k) == Got(p[..Min(k, |p|)], AtOnce(p[Min(k, |p|)..]))
  {
    assert p + [] == p;
    if p == [] {
      assert p[..0] == [] && p[0..] == [];
    }
  }

  lemma SameByte(s: Stream, t: Stream)
    requires SamePending(s, t)
    ensures Same(ReadByte(s), ReadByte(t))
  {
    OneByteIsFull(s);
    OneByteIsFull(t);
    SomeFull(s, t, 1);
    hide ReadSome, Flatten;
  }

  lemma SameExactly(s: Stream, t: Stream, k: nat)
    requires SamePending(s, t)
    ensures Same(ReadExactly(s, k), ReadExactly(t, k))
  {
    hide FullRead, Flatten;
    FullReadTakesPrefix(s, k);
    FullReadTakesPrefix(t, k);
  }

  lemma SameAddress(s: Stream, t: Stream)
    requires SamePending(s, t)
    ensures Same(ReadAddress(s), ReadAddress(t))
  {
    hide ReadByte, ReadExactly, IpString, Flatten, Pending, WellFormed;
    SameByte(s, t);
    if ReadByte(s).Ok? {
      var s1, t1 := ReadByte(s).stream, ReadByte(t).stream;
      SameExactly(s1, t1, 4);
      SameExactly(s1, t1, 16);
      SameByte(s1, t1);
      if ReadByte(s1).Ok? {
        SameExactly(ReadByte(s1).stream, ReadByte(t1).stream, ReadByte(s1).value);
      }
    }
  }

  lemma SameRequest(s: Stream, t: Stream)
    requires SamePending(s, t) && IsFull(s, 3) && IsFull(t, 3)
    ensures Same(ReadRequest(s), ReadRequest(t))
  {
    hide ReadSome, ReadAddress, ReadExactly, Flatten, Pending, WellFormed, IsFull;
    SomeFull(s, t, 3);
    var s1, t1 := ReadSome(s, 3).stream, ReadSome(t, 3).stream;
    SameAddress(s1, t1);
    if ReadAddress(s1).Ok? {
      SameExactly(ReadAddress(s1).stream, ReadAddress(t1).stream, 2);
    }
  }

  lemma SameGreeting(s: Stream, t: Stream)
    requires SamePending(s, t) && FullReads(s) && FullReads(t)
    ensures Same(ReadGreeting(s), ReadGreeting(t))
  {
    hide ReadByte, ReadSome, Flatten, Pending, WellFormed;
    SameByte(s, t);
    if ReadByte(s).Ok? {
      var s1, t1 := ReadByte(s).stream, ReadByte(t).stream;
      SameByte(s1, t1);
      if ReadByte(s1).Ok? && ReadByte(s1).value > 0 && ReadByte(s).value == VERSION {
        SomeFull(ReadByte(s1).stream, ReadByte(t1).stream, ReadByte(s1).value);
      }
    }
  }

  /** With full plain reads the outcome of the handshake depends on the client's bytes alone. */
  lemma HandshakeIgnoresChunks(s: Stream, t: Stream)
    requires SamePending(s, t) && FullReads(s) && FullReads(t)
    ensures Same(ReadHandshake(s), ReadHandshake(t))
  {
    hide ReadGreeting, ReadRequest, ReadByte, Flatten, Pending, WellFormed;
    SameGreeting(s, t);
    if ReadGreeting(s).Ok? {
      SameRequest(ReadGreeting(s).stream, ReadGreeting(t).stream);
    }
  }

  lemma AtOnceFullReads(p: bytes)
    ensures FullReads(AtOnce(p)) && SamePending(AtOnce(p), AtOnce(p))
  {
    AtOnceByte(p);
    hide ReadSome, Flatten;
    if p != [] {
      AtOnceByte(p[1..]);
      if |p| > 1 {
        var n, rest := p[1], p[2..];
        assert p[1..][1..] == rest;
        if n > 0 {
          AtOnceIsFull(rest, n);
          AtOnceIsFull(rest[Min(n, |rest|)..], 3);
        } else {
          AtOnceIsFull(rest, 3);
        }
      }
    }
  }

  lemma AtOnceByte(p: bytes)
    ensures ReadByte(AtOnce(p)) == if p == [] then Fail(EOF, AtOnce([])) else Ok(p[0], AtOnce(p[1..]))
  {
    AtOnceIsFull(p, 1);
  }

  lemma AtOnceFullRead(p: bytes, k: nat)
    ensures FullRead(AtOnce(p), k) == Got(p[..Min(k, |p|)], AtOnce(p[Min(k, |p|)..]))
  {
    FullReadStep(AtOnce(p), k);
    if k > 0 {
      AtOnceIsFull(p, k);
      var m := Min(k, |p|);
      hide FullRead, ReadSome;
      if m > 0 {
        FullReadStep(AtOnce(p[m..]), k - m);
        assert p[..m] + [] == p[..m];
        if m < k {
          AtOnceIsFull(p[m..], k - m);
        }
      }
    }
  }

  lemma AtOnceExactly(p: bytes, k: nat)
    ensures ReadExactly(AtOnce(p), k)
         == if k <= |p| then Ok(p[..k], AtOnce(p[k..]))
            else Fail(if p == [] then EOF else UnexpectedEOF, AtOnce([]))
  {
    hide FullRead;
    AtOnceFullRead(p, k);
  }

  // ---------------------------------------------------------------- what is accepted

  lemma GreetingAccepted(methods: bytes, rest: bytes)
    requires |methods| <= 255
    ensures ReadGreeting(AtOnce(Greeting(methods) + rest)) == Ok((), AtOnce(rest))
  {
    var p := Greeting(methods) + rest;
    AtOnceByte(p);
    AtOnceByte(p[1..]);
    assert p[1..][1..] == methods + rest;
    hide ReadByte, ReadSome;
    if methods != [] {
      AtOnceIsFull(methods + rest, |methods|);
      assert (methods + rest)[|methods|..] == rest;
    } else {
      assert methods + rest == rest;
    }
  }

  lemma IpAccepted(a: Address, rest: bytes)
    requires ValidAddress(a) && !a.Domain?
    ensures ReadAddress(AtOnce(AddressBytes(a) + rest)) == Ok(AddressText(a), AtOnce(rest))
  {
    hide ReadByte, ReadExactly, IpString;
    var ip := match a case V4(ip) => ip case V6(ip) => ip case Domain(name) => name;
    AtOnceByte(AddressBytes(a) + rest);
    assert (AddressBytes(a) + rest)[1..] == ip + rest;
    AtOnceExactly(ip + rest, |ip|);
    assert (ip + rest)[..|ip|] == ip && (ip + rest)[|ip|..] == rest;
  }

  lemma DomainAccepted(name: bytes, rest: bytes)
    requires |name| <= 255
    ensures ReadAddress(AtOnce([DOMAIN, |name|] + name + rest)) == Ok(name, AtOnce(rest))
  {
    hide ReadByte, ReadExactly, IpString;
    var p: bytes := [DOMAIN, |name|] + name + rest;
    AtOnceByte(p);
    AtOnceByte(p[1..]);
    assert p[1..][1..] == name + rest;
    AtOnceExactly(name + rest, |name|);
    assert (name + rest)[..|name|] == name && (name + rest)[|name|..] == rest;
  }

  lemma AddressAccepted(a: Address, rest: bytes)
    requires ValidAddress(a)
    ensures ReadAddress(AtOnce(AddressBytes(a) + rest)) == Ok(AddressText(a), AtOnce(rest))
  {
    if !a.Domain? {
      IpAccepted(a, rest);
    } else {
      hide ReadAddress, IpString;
      DomainAccepted(a.name, rest);
    }
  }

  lemma RequestAccepted(version: byte, command: byte, reserved: byte, a: Address, port: nat, rest: bytes)
    requires ValidAddress(a) && port < 0x1_0000
    ensures ReadRequest(AtOnce(RequestBytes(version, command, reserved, a, port) + rest))
         == Ok(ConnectRequest(version, command, AddressText(a), port), AtOnce(rest))
  {
    hide ReadSome, ReadAddress, ReadExactly, AddressText, AddressBytes, BigEndian;
    var head: bytes := [version, command, reserved];
    var p := RequestBytes(version, command, reserved, a, port) + rest;
    var p1 := AddressBytes(a) + (BigEndian(port, 2) + rest);
    assert p == head + p1;
    AtOnceIsFull(p, 3);
    assert p[..3] == head && p[3..] == p1;
    AddressAccepted(a, BigEndian(port, 2) + rest);
    AtOnceExactly(BigEndian(port, 2) + rest, 2);
    assert (BigEndian(port, 2) + rest)[..2] == BigEndian(port, 2);
    assert (BigEndian(port, 2) + rest)[2..] == rest;
    PortBytes(port);
  }

  lemma PortBytes(port: nat)
    requires port < 0x1_0000
    ensures BigEndian(port, 2) == [port / 256, port % 256]
    ensures Word(BigEndian(port, 2)[0], BigEndian(port, 2)[1]) == port
  {
    WordIsBigEndian(port / 256, port % 256);
  }

  /** Every well-formed greeting and request is accepted and understood. */
  lemma HandshakeAccepted(methods: bytes, version: byte, command: byte, reserved: byte, a: Address,
                          port: nat, rest: bytes)
    requires |methods| <= 255 && ValidAddress(a) && port < 0x1_0000
    ensures ReadHandshake(AtOnce(Greeting(methods)
                                 + RequestBytes(version, command, reserved, a, port) + rest))
         == Ok(ConnectRequest(version, command, AddressText(a), port), AtOnce(rest))
  {
    hide ReadGreeting, ReadRequest, Greeting, RequestBytes;
    var request := RequestBytes(version, command, reserved, a, port);
    assert Greeting(methods) + request + rest == Greeting(methods) + (request + rest);
    GreetingAccepted(methods, request + rest);
    RequestAccepted(version, command, reserved, a, port, rest);
  }

  lemma AddressUnderstood(p: bytes) returns (a: Address)
    requires ReadAddress(AtOnce(p)).Ok?
    ensures ValidAddress(a)
    ensures var r := ReadAddress(AtOnce(p));
            && r.value == AddressText(a)
            && r.stream == AtOnce(r.stream.buffered)
            && p == AddressBytes(a) + r.stream.buffered
  {
    hide ReadByte, ReadExactly, IpString;
    AtOnceByte(p);
    var q := p[1..];
    if p[0] == IPV4 {
      AtOnceExactly(q, 4);
      a := V4(q[..4]);
      assert p == [IPV4] + q[..4] + q[4..];
    } else if p[0] == IPV6 {
      AtOnceExactly(q, 16);
      a := V6(q[..16]);
      assert p == [IPV6] + q[..16] + q[16..];
    } else {
      AtOnceByte(q);
      AtOnceExactly(q[1..], q[0]);
      var n := q[0];
      a := Domain(q[1..][..n]);
      assert p == [DOMAIN, n] + q[1..][..n] + q[1..][n..];
    }
  }

  /** A greeting is accepted exactly when it has its two leading bytes, and the first is 5. */
  lemma GreetingIff(p: bytes)
    ensures ReadGreeting(AtOnce(p)).Ok? <==> |p| >= 2 && p[0] == 5
    ensures ReadHandshake(AtOnce(p)).Ok? ==> |p| >= 2 && p[0] == 5
  {
    AtOnceByte(p);
    if p != [] {
      AtOnceByte(p[1..]);
    }
    hide ReadByte, ReadSome, ReadRequest;
  }

  /** The error of every request that is refused. */
  lemma RequestErrors(p: bytes)
    ensures p == [] ==> ReadRequest(AtOnce(p)) == Fail(EOF, AtOnce([]))
    ensures 0 < |p| < 3 ==> ReadRequest(AtOnce(p)) == Fail(ShortRead, AtOnce([]))
    ensures |p| == 3 ==> ReadRequest(AtOnce(p)) == Fail(EOF, AtOnce([]))
    ensures |p| > 3 && p[3] !in {1, 3, 4} ==> ReadRequest(AtOnce(p)) == Fail(UnknownAddressType, AtOnce(p[4..]))
    ensures |p| > 3 && p[3] in {1, 3, 4} && ReadRequest(AtOnce(p)).Fail?
            ==> ReadRequest(AtOnce(p)).error in {EOF, UnexpectedEOF}
  {
    AtOnceIsFull(p, 3);
    if |p| >= 3 {
      AtOnceByte(p[3..]);
      if |p| > 3 {
        assert p[3..][0] == p[3] && p[3..][1..] == p[4..];
      }
    }
    hide ReadSome, ReadByte, FullRead, IpString;
  }

  /** Nothing else is accepted, except that the list of methods may be cut short by the end of the stream. */
  lemma RequestUnderstood(p: bytes) returns (reserved: byte, a: Address)
    requires ReadRequest(AtOnce(p)).Ok?
    ensures ValidAddress(a)
    ensures var r := ReadRequest(AtOnce(p));
            && r.value.destPort < 0x1_0000
            && r.value.destAddr == AddressText(a)
            && r.stream == AtOnce(r.stream.buffered)
            && p == RequestBytes(r.value.version, r.value.command, reserved, a, r.value.destPort)
                    + r.stream.buffered
  {
    hide ReadSome, ReadAddress, ReadExactly, AddressText, AddressBytes, BigEndian;
    AtOnceIsFull(p, 3);
    reserved := p[2];
    var r := ReadRequest(AtOnce(p));
    a := AddressUnderstood(p[3..]);
    var q := ReadAddress(AtOnce(p[3..])).stream.buffered;
    AtOnceExactly(q, 2);
    WordIsBigEndian(q[0], q[1]);
    assert q == BigEndian(r.value.destPort, 2) + r.stream.buffered;
    assert p == p[..3] + p[3..];
  }

  lemma AddressTextFits(a: Address)
    requires ValidAddress(a)
    ensures |AddressText(a)| <= 255
  {
    hide IpString;
    match a
    case V4(ip) => IpStringShort(ip);
    case V6(ip) => IpStringShort(ip);
    case Domain(_) =>
  }

  // ---------------------------------------------------------------- the service-side agent's request

  /** The CONNECT request: length and port are narrowed to one and two bytes. */
  function ServiceRequest(req: ConnectRequest): bytes {
    [VERSION, CONNECT, 0, DOMAIN, |req.destAddr| % 256] + req.destAddr + BigEndian(req.destPort, 2)
  }

  /** All the agent writes before it relays data. */
  function ServiceHandshake(req: ConnectRequest): bytes {
    [VERSION, 1, NO_AUTH] + ServiceRequest(req)
  }

  /**
   * For every request the client parser accepts, the service-side agent sends a well-formed request to
   * connect to a domain, without losing bits of length or port, and reading that request gives the
   * same address text and port. The request as a whole survives exactly when it was a version 5
   * CONNECT, since neither byte is checked or passed on.
   */
  lemma RequestSurvives(p: bytes, rest: bytes)
    requires ReadHandshake(AtOnce(p)).Ok?
    ensures var req := ReadHandshake(AtOnce(p)).value;
            && |req.destAddr| <= 255 && req.destPort < 0x1_0000
            && ServiceRequest(req)
               == RequestBytes(VERSION, CONNECT, 0, Domain(req.destAddr), req.destPort)
            && ReadRequest(AtOnce(ServiceRequest(req) + rest))
               == Ok(ConnectRequest(VERSION, CONNECT, req.destAddr, req.destPort), AtOnce(rest))
            && (ReadRequest(AtOnce(ServiceRequest(req) + rest)).value == req
                <==> req.version == VERSION && req.command == CONNECT)
  {
    hide ReadSome, ReadByte, ReadRequest, AddressText, AddressBytes, BigEndian;
    var req := ReadHandshake(AtOnce(p)).value;
    var q := GreetingLeaves(p);
    var reserved, a := RequestUnderstood(q);
    AddressTextFits(a);
    DomainRequest(req);
    RequestAccepted(VERSION, CONNECT, 0, Domain(req.destAddr), req.destPort, rest);
    DomainText(req.destAddr);
  }

  /**
   * What the service-side agent writes first is a whole client's opening: a greeting that offers no
   * authentication only, and a version 5 CONNECT for the address and the port.
   */
  lemma ServiceHandshakeUnderstood(req: ConnectRequest, rest: bytes)
    requires |req.destAddr| <= 255 && req.destPort < 0x1_0000
    ensures ReadHandshake(AtOnce(ServiceHandshake(req) + rest))
         == Ok(ConnectRequest(5, 1, req.destAddr, req.destPort), AtOnce(rest))
    ensures [5, 1, 0] <= ServiceHandshake(req)
  {
    hide ReadHandshake, BigEndian;
    var request := RequestBytes(VERSION, CONNECT, 0, Domain(req.destAddr), req.destPort);
    DomainRequest(req);
    HandshakeAccepted([NO_AUTH], VERSION, CONNECT, 0, Domain(req.destAddr), req.destPort, rest);
    hide RequestBytes, ServiceRequest;
    assert ServiceHandshake(req) + rest == Greeting([NO_AUTH]) + request + rest;
    assert ServiceHandshake(req)[..3] == [5, 1, 0];
  }

  /** However the client's bytes arrive, what is accepted fits the length byte and the port's two bytes. */
  lemma AcceptedFits(s: Stream)
    requires ReadHandshake(s).Ok?
    ensures |ReadHandshake(s).value.destAddr| <= 255 && ReadHandshake(s).value.destPort < 0x1_0000
  {
    hide ReadGreeting, ReadAddress, ReadSome, ReadExactly;
    var s1 := ReadSome(ReadGreeting(s).stream, 3).stream;
    AddressFits(s1);
  }

  lemma AddressFits(s: Stream)
    requires ReadAddress(s).Ok?
    ensures |ReadAddress(s).value| <= 255
  {
    hide ReadByte, ReadExactly, IpString;
    var s1 := ReadByte(s).stream;
    if ReadByte(s).value == IPV4 {
      IpStringShort(ReadExactly(s1, 4).value);
    } else if ReadByte(s).value == IPV6 {
      IpStringShort(ReadExactly(s1, 16).value);
    }
  }

  /** The same however the client's bytes arrive, provided the plain reads are full. */
  lemma RequestSurvivesArrival(s: Stream, rest: bytes)
    requires WellFormed(s) && FullReads(s) && ReadHandshake(s).Ok?
    ensures var req := ReadHandshake(s).value;
            && |req.destAddr| <= 255 && req.destPort < 0x1_0000
            && ReadRequest(AtOnce(ServiceRequest(req) + rest))
               == Ok(ConnectRequest(VERSION, CONNECT, req.destAddr, req.destPort), AtOnce(rest))
  {
    hide ReadHandshake, ReadRequest, FullReads, ServiceRequest, Flatten;
    AtOnceFullReads(Pending(s));
    assert Pending(AtOnce(Pending(s))) == Pending(s) by { AtOncePending(Pending(s)); }
    HandshakeIgnoresChunks(s, AtOnce(Pending(s)));
    RequestSurvives(Pending(s), rest);
  }

  lemma AtOncePending(p: bytes)
    ensures Pending(AtOnce(p)) == p
  {
    assert Flatten([]) == [];
  }

  /**
   * Full plain reads are needed: when the second of two methods arrives late, it is taken for the
   * start of the request, and a handshake that is accepted at once is refused.
   */
  lemma LateMethodBreaksHandshake()
    ensures var request := RequestBytes(VERSION, CONNECT, 0, Domain([97]), 80);
            var s := Stream([], [[5, 2, 0], [2], request]);
            && WellFormed(s) && Pending(s) == Greeting([0, 2]) + request
            && ReadHandshake(AtOnce(Pending(s))).Ok?
            && ReadHandshake(s).Fail?
  {
    var request := RequestBytes(VERSION, CONNECT, 0, Domain([97]), 80);
    HandshakeAccepted([0, 2], VERSION, CONNECT, 0, Domain([97]), 80, []);
    assert Greeting([0, 2]) + request + [] == Greeting([0, 2]) + request;
    LateMethod(request);
  }

  lemma LateMethod(request: bytes)
    requires request != []
    ensures var s := Stream([], [[5, 2, 0], [2], request]);
            && WellFormed(s) && Pending(s) == Greeting([0, 2]) + request
            && ReadHandshake(s).Fail?
  {
    var late: seq<bytes> := [[2], request];
    var s := Stream([], [[5, 2, 0], [2], request]);
    assert s.chunks[1..] == late && late[1..] == [request];
    assert Flatten(late) == [2] + request by { assert Flatten([request]) == request + []; }
    assert Pending(s) == [5, 2, 0] + Flatten(late);
    assert ReadSome(s, 1) == Got([5], Stream([2, 0], late));
    assert ReadSome(Stream([2, 0], late), 1) == Got([2], Stream([0], late));
    assert ReadSome(Stream([0], late), 2) == Got([0], Stream([], late));
    assert ReadSome(Stream([], late), 3).data == [2];
    hide ReadSome;
    assert ReadByte(s) == Ok(5, Stream([2, 0], late));
    assert ReadByte(Stream([2, 0], late)) == Ok(2, Stream([0], late));
  }

  lemma DomainText(name: bytes)
    ensures AddressText(Domain(name)) == name
  {
  }

  lemma DomainRequest(req: ConnectRequest)
    requires |req.destAddr| <= 255
    ensures ServiceRequest(req) == RequestBytes(VERSION, CONNECT, 0, Domain(req.destAddr), req.destPort)
  {
    hide BigEndian;
  }

  lemma GreetingLeaves(p: bytes) returns (q: bytes)
    requires ReadGreeting(AtOnce(p)).Ok?
    ensures ReadGreeting(AtOnce(p)).stream == AtOnce(q)
  {
    AtOnceByte(p);
    AtOnceByte(p[1..]);
    hide ReadByte, ReadSome;
    q := p[1..][1..];
    var n := p[1..][0];
    if n > 0 {
      AtOnceIsFull(q, n);
      q := q[Min(n, |q|)..];
    }
  }

  /** The text of an IP address that the service is asked for denotes the address the client asked for. */
  lemma AddressMeaningSurvives(a: Address)
    ensures a.V4? ==> ReadIp(AddressText(a)) == Some(To16(a.ip4))
    ensures a.V6? ==> ReadIp(AddressText(a)) == Some(a.ip6)
  {
    hide IpString, ReadIp;
    match a
    case V4(ip) => IpStringRoundTrip(ip);
    case V6(ip) => IpStringRoundTrip(ip);
    case Domain(_) =>
  }

  // ---------------------------------------------------------------- the client-side agent's code

  datatype Outcome<T> = Value(value: T) | Failed(error: Error)

  function With<T>(o: Outcome<T>, s: Stream): Result<T> {
    match o
    case Value(v) => Ok(v, s)
    case Failed(e) => Fail(e, s)
  }

  method GetByte(reader: Reader) returns (r: Outcome<byte>)
    requires reader.Valid()
    modifies reader, reader.conn, reader.buf
    ensures reader.Valid() && With(r, reader.State()) == ReadByte(old(reader.State()))
  {
    hide ReadSome, NonEmpty;
    var p := new byte[1];
    var n := reader.Read(p, 0, 1);
    assert p[0..n] == if n == 0 then [] else [p[0]];
    return if n == 0 then Failed(EOF) else Value(p[0]);
  }

  method GetExactly(reader: Reader, k: nat) returns (r: Outcome<bytes>)
    requires reader.Valid()
    modifies reader, reader.conn, reader.buf
    ensures reader.Valid() && With(r, reader.State()) == ReadExactly(old(reader.State()), k)
  {
    hide FullRead, NonEmpty;
    var p := new byte[k];
    var n := reader.ReadFull(p);
    if n == k {
      assert p[..n] == p[..];
      return Value(p[..]);
    }
    return Failed(if n == 0 then EOF else UnexpectedEOF);
  }

  /** handleClientGreetingPackage: `reply` is what it writes to the client. */
  method HandleGreeting(reader: Reader) returns (r: Outcome<()>, reply: bytes)
    requires reader.Valid()
    modifies reader, reader.conn, reader.buf
    ensures reader.Valid() && With(r, reader.State()) == ReadGreeting(old(reader.State()))
    ensures reply == if r.Value? then [VERSION, NO_AUTH] else []
  {
    hide ReadSome, ReadByte, NonEmpty;
    reply := [];
    var version := GetByte(reader);
    if version.Failed? {
      return Failed(version.error), reply;
    }
    if version.value != VERSION {
      return Failed(InvalidVersion), reply;
    }
    var count := GetByte(reader);
    if count.Failed? {
      return Failed(count.error), reply;
    }
    var n: nat := count.value;
    if n > 0 {
      var methods := new byte[n];
      var got := reader.Read(methods, 0, n);
    }
    return Value(()), [VERSION, NO_AUTH];
  }

  method GetAddress(reader: Reader) returns (r: Outcome<bytes>)
    requires reader.Valid()
    modifies reader, reader.conn, reader.buf
    ensures reader.Valid() && With(r, reader.State()) == ReadAddress(old(reader.State()))
  {
    hide ReadByte, ReadExactly, IpString, NonEmpty, FullRead;
    var kind := GetByte(reader);
    if kind.Failed? {
      return Failed(kind.error);
    }
    if kind.value == IPV4 {
      var ip := GetExactly(reader, 4);
      return if ip.Failed? then ip else Value(IpString(ip.value));
    } else if kind.value == IPV6 {
      var ip := GetExactly(reader, 16);
      return if ip.Failed? then ip else Value(IpString(ip.value));
    } else if kind.value == DOMAIN {
      var count := GetByte(reader);
      if count.Failed? {
        return Failed(count.error);
      }
      r := GetExactly(reader, count.value);
    } else {
      return Failed(UnknownAddressType);
    }
  }

  /** buildSocks5ConnectRequest, with the bytes it writes to the client. */
  method BuildConnectRequest(reader: Reader) returns (r: Outcome<ConnectRequest>, reply: bytes)
    requires reader.Valid()
    modifies reader, reader.conn, reader.buf
    ensures reader.Valid() && With(r, reader.State()) == ReadHandshake(old(reader.State()))
    ensures reply == if ReadGreeting(old(reader.State())).Ok? then [VERSION, NO_AUTH] else []
  {
    hide ReadSome, ReadGreeting, ReadAddress, ReadExactly, NonEmpty;
    var greeting;
    greeting, reply := HandleGreeting(reader);
    if greeting.Failed? {
      return Failed(greeting.error), reply;
    }
    var buf := new byte[3];
    var readNum := reader.Read(buf, 0, 3);
    ghost var head := buf[0..readNum];
    if readNum == 0 {
      return Failed(EOF), reply;
    }
    if readNum != 3 {
      return Failed(ShortRead), reply;
    }
    var version, command := buf[0], buf[1];
    assert head[0] == version && head[1] == command;
    var addr := GetAddress(reader);
    if addr.Failed? {
      return Failed(addr.error), reply;
    }
    var port := GetExactly(reader, 2);
    if port.Failed? {
      return Failed(port.error), reply;
    }
    return Value(ConnectRequest(version, command, addr.value, Word(port.value[0], port.value[1]))), reply;
  }
}

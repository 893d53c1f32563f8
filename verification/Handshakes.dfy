/**
 * When the arrival of a client's bytes decides the SOCKS5 handshake. Two of its reads are plain reads
 * that take what is there. The main result: a well-formed greeting and request are understood, byte for
 * byte, exactly when those reads are full. For the hard half it is shown that methods which arrive late
 * can never be taken for the start of a request that would mean the same.
 */
module Handshakes {
  import opened Bytes
  import opened Bufio
  import opened Text
  import opened IpText
  import opened Socks5

  // ---------------------------------------------------------------- the characters of an address

  /** Digits, lower-case letters, and the two separators lie between '.' and 'f'. */
  predicate Printed(s: bytes) {
    forall i | 0 <= i < |s| :: DOT <= s[i] <= 102
  }

  lemma {:induction false} JoinPrinted(parts: seq<bytes>, sep: byte)
    requires DOT <= sep <= 102 && forall i | 0 <= i < |parts| :: Printed(parts[i])
    ensures Printed(Join(parts, sep))
  {
    if |parts| > 1 {
      JoinPrinted(parts[1..], sep);
    }
  }

  lemma NumeralsPrinted(ns: seq<nat>, base: nat, sep: byte)
    requires 2 <= base <= 16 && DOT <= sep <= 102
    ensures Printed(Join(Numerals(ns, base), sep))
  {
    hide Numeral, Join;
    forall i | 0 <= i < |ns| ensures Printed(Numerals(ns, base)[i]) {
      NumeralDigits(ns[i], base);
    }
    JoinPrinted(Numerals(ns, base), sep);
  }

  lemma IpPrinted(a: bytes)
    requires |a| == 4 || |a| == 16
    ensures Printed(IpString(a))
  {
    hide Numerals, Join, Shortened, GroupsOf;
    if |a| == 4 {
      NumeralsPrinted([a[0], a[1], a[2], a[3]], 10, DOT);
    } else if IsMapped(a) {
      var b := a[12..];
      NumeralsPrinted([b[0], b[1], b[2], b[3]], 10, DOT);
    } else {
      var g := GroupsOf(a);
      var r := Shortened(g, 0, (0, 0));
      NumeralsPrinted(g, 16, COLON);
      NumeralsPrinted(g[..r.0], 16, COLON);
      NumeralsPrinted(g[r.0 + r.1..], 16, COLON);
    }
  }

  // ---------------------------------------------------------------- its length, from below

  lemma {:induction false} JoinAtLeast(parts: seq<bytes>, sep: byte, long: nat)
    requires 0 < |parts| && long <= |parts| && forall i | 0 <= i < |parts| :: |parts[i]| >= 1
    requires forall i | |parts| - long <= i < |parts| :: |parts[i]| >= 4
    ensures |Join(parts, sep)| + 1 >= 2 * |parts| + 3 * long
  {
    if |parts| > 1 {
      JoinAtLeast(parts[1..], sep, if long == |parts| then long - 1 else long);
    }
  }

  lemma Text4AtLeast(a: Ip4)
    ensures |Text4(a)| >= 7
  {
    hide Numeral;
    JoinAtLeast(Numerals([a[0], a[1], a[2], a[3]], 10), DOT, 0);
  }

  lemma FourDigits(n: nat)
    requires n >= 4096
    ensures |Numeral(n, 16)| >= 4
  {
    hide Numeral;
    var n1, r1 := LastDigit(n, 16);
    var n2, r2 := LastDigit(n1, 16);
    var n3, r3 := LastDigit(n2, 16);
  }

  lemma GroupsAtLeast(ns: seq<nat>, long: nat)
    requires 0 < |ns| && long <= |ns| && forall i | |ns| - long <= i < |ns| :: ns[i] >= 4096
    ensures |Join(Numerals(ns, 16), COLON)| + 1 >= 2 * |ns| + 3 * long
  {
    hide Numeral, Join;
    forall i | |ns| - long <= i < |ns| ensures |Numeral(ns[i], 16)| >= 4 {
      FourDigits(ns[i]);
    }
    JoinAtLeast(Numerals(ns, 16), COLON, long);
  }

  /** With `long` groups of four digits at its end a text has five characters for each of them. */
  lemma Text6AtLeast(g: Groups, long: nat)
    requires long < 8 && forall i | 8 - long <= i < 8 :: g[i] >= 4096
    ensures |Text6(g)| >= 5 * long && |Text6(g)| >= 2
  {
    hide Numerals, Join, Shortened;
    var r := Shortened(g, 0, (0, 0));
    if r.1 == 0 {
      GroupsAtLeast(g, long);
    } else if long > 0 {
      assert r.0 + r.1 <= 8 - long by {
        assert g[r.0 + r.1 - 1] == 0;
      }
      var right := g[r.0 + r.1..];
      assert forall i | |right| - long <= i < |right| :: right[i] == g[r.0 + r.1 + i];
      GroupsAtLeast(right, long);
    }
  }

  lemma {:induction false} GroupAt(a: bytes, k: nat)
    requires |a| % 2 == 0 && 2 * k + 1 < |a|
    ensures GroupsOf(a)[k] == Word(a[2 * k], a[2 * k + 1])
  {
    if k > 0 {
      GroupAt(a[2..], k - 1);
    }
  }

  /** No address is so short in text that it ends in its own text, byte for byte. */
  lemma NotItsOwnText(a: Ip16)
    requires |IpString(a)| < 15
    ensures a[16 - |IpString(a)|..] != IpString(a)
  {
    var t := IpString(a);
    IpPrinted(a);
    hide IpString;
    var tail := a[16 - |t|..];
    assert forall k | 16 - |t| <= k < 16 :: a[k] == tail[k - 16 + |t|];
    if Printed(tail) {
      PrintedTail(a);
    }
  }

  lemma MappedBytes(a: Ip16)
    requires IsMapped(a)
    ensures a[10] == 255 && a[11] == 255
  {
    assert a[..12][10] == 255 && a[..12][11] == 255;
  }

  /** An address that ends in printed characters, as many as its text has, has a long text. */
  lemma PrintedTail(a: Ip16)
    requires |IpString(a)| <= 16 && forall k | 16 - |IpString(a)| <= k < 16 :: DOT <= a[k] <= 102
    ensures |IpString(a)| >= 15
  {
    hide Text6, Text4, GroupsOf;
    if IsMapped(a) {
      MappedBytes(a);
      Text4AtLeast(a[12..]);
    } else if |IpString(a)| < 15 {
      var g := GroupsOf(a);
      var long := |IpString(a)| / 2;
      forall i | 8 - long <= i < 8 ensures g[i] >= 4096 {
        GroupAt(a, i);
      }
      Text6AtLeast(g, long);
    }
  }

  // ---------------------------------------------------------------- a request inside another

  lemma IpAtLeast(a: Ip4)
    ensures |IpString(a)| >= 7
  {
    Text4AtLeast(a);
  }

  /** An IPv6 address has the text of an IPv4 address only if it is mapped. */
  lemma MappedText(a: Ip16, b: Ip4)
    requires IpString(a) == IpString(b)
    ensures a[10] == 255 && a[11] == 255
  {
    hide IpString, ReadIp;
    IpStringRoundTrip(a);
    IpStringRoundTrip(b);
    assert To16(a) == To16(b);
  }

  lemma Ip4InIp6(a: Ip16, b: Ip4, d: nat)
    requires d <= 17 && ([IPV6] + a)[d..] == [IPV4] + b
    ensures IpString(a) != IpString(b)
  {
    hide IpString;
    assert ([IPV6] + a)[d..][0] == a[11];
    if IpString(a) == IpString(b) {
      MappedText(a, b);
    }
  }

  lemma DomainInIp6(a: Ip16, name: bytes, d: nat)
    requires 0 < d <= 17 && |name| <= 255 && ([IPV6] + a)[d..] == [DOMAIN, |name|] + name
    ensures IpString(a) != name
  {
    hide IpString;
    assert ([IPV6] + a)[d..][2..] == a[d + 1..];
    if IpString(a) == name {
      NotItsOwnText(a);
    }
  }

  lemma Ip4InDomain(name: bytes, b: Ip4, d: nat)
    requires |name| <= 255 && d <= 2 + |name| && ([DOMAIN, |name|] + name)[d..] == [IPV4] + b
    ensures name != IpString(b)
  {
    hide IpString;
    IpPrinted(b);
    IpAtLeast(b);
    if |name| >= 7 {
      assert ([DOMAIN, |name|] + name)[d..][0] == name[|name| - 5];
    }
  }

  lemma Ip6InDomain(name: bytes, b: Ip16, d: nat)
    requires |name| <= 255 && 0 < d <= 2 + |name| && ([DOMAIN, |name|] + name)[d..] == [IPV6] + b
    ensures name != IpString(b)
  {
    hide IpString;
    IpPrinted(b);
    assert ([DOMAIN, |name|] + name)[d..][0] == ([DOMAIN, |name|] + name)[d];
    if d >= 2 {
      assert ([DOMAIN, |name|] + name)[d] == name[d - 2];
    }
  }

  /** No encoding of an address ends in a shorter encoding of the same text. */
  lemma NoShorterEncoding(a: Address, b: Address, d: nat)
    requires ValidAddress(a) && ValidAddress(b) && AddressText(a) == AddressText(b)
    requires d <= |AddressBytes(a)| && AddressBytes(a)[d..] == AddressBytes(b)
    ensures d == 0
  {
    hide IpString;
    if d > 0 {
      match (a, b) {
        case (V6(ip), V4(jp)) => Ip4InIp6(ip, jp, d);
        case (V6(ip), Domain(name)) => DomainInIp6(ip, name, d);
        case (Domain(name), V4(jp)) => Ip4InDomain(name, jp, d);
        case (Domain(name), V6(jp)) => Ip6InDomain(name, jp, d);
        case (V4(ip), Domain(name)) => IpAtLeast(ip);
        case _ =>
      }
    }
  }

  /** A request that is a rest of another one with the same meaning is the whole of it. */
  lemma NoLateStart(x: bytes, version: byte, command: byte, r: byte, s: byte, a: Address, b: Address, port: nat)
    requires ValidAddress(a) && ValidAddress(b) && AddressText(a) == AddressText(b)
    requires x + RequestBytes(version, command, s, b, port) == RequestBytes(version, command, r, a, port)
    ensures x == []
  {
    hide AddressText, AddressBytes, BigEndian;
    var whole := RequestBytes(version, command, r, a, port);
    var part := RequestBytes(version, command, s, b, port);
    var d, m, n := |x|, |AddressBytes(a)|, |AddressBytes(b)|;
    assert |whole| == 5 + m && |part| == 5 + n && m == d + n;
    assert whole[3 + d..3 + m] == AddressBytes(a)[d..];
    assert (x + part)[3 + d..3 + d + n] == part[3..3 + n];
    assert part[3..3 + n] == AddressBytes(b);
    NoShorterEncoding(a, b, d);
  }

  // ---------------------------------------------------------------- the exact condition

  /** What a handshake is to come to: the request as it was sent, and the bytes behind it. */
  predicate Understood(r: Result<ConnectRequest>, req: ConnectRequest, rest: bytes) {
    r.Ok? && r.value == req && WellFormed(r.stream) && Pending(r.stream) == rest
  }

  /** A request read from some bytes that means `req` and leaves `rest` is an encoding of `req`. */
  lemma ReadRequestFrom(s: Stream, req: ConnectRequest, rest: bytes) returns (reserved: byte, a: Address)
    requires WellFormed(s) && Understood(ReadRequest(s), req, rest)
    ensures IsFull(s, 3) && ValidAddress(a) && AddressText(a) == req.destAddr && req.destPort < 0x1_0000
    ensures Pending(s) == RequestBytes(req.version, req.command, reserved, a, req.destPort) + rest
  {
    hide Flatten, ReadAddress, ReadExactly, AddressText, RequestBytes;
    var p := Pending(s);
    assert |ReadSome(s, 3).data| == 3 && IsFull(s, 3);
    AtOncePending(p);
    AtOnceFullReads(p);
    AtOnceIsFull(p, 3);
    SameRequest(s, AtOnce(p));
    hide ReadRequest, ReadSome, IsFull;
    reserved, a := RequestUnderstood(p);
    AtOncePending(ReadRequest(AtOnce(p)).stream.buffered);
  }

  /** A read of the methods that leaves some of them cannot be made good by reading the request. */
  lemma MethodsReadWhole(s: Stream, methods: bytes, req: ConnectRequest, reserved: byte, a: Address, rest: bytes)
    requires WellFormed(s) && methods != [] && ValidAddress(a) && AddressText(a) == req.destAddr
    requires Pending(s) == methods + (RequestBytes(req.version, req.command, reserved, a, req.destPort) + rest)
    requires Understood(ReadRequest(ReadSome(s, |methods|).stream), req, rest)
    ensures IsFull(s, |methods|)
  {
    hide Flatten, ReadRequest, ReadSome, AddressText, RequestBytes, Understood;
    var g := ReadSome(s, |methods|);
    var request := RequestBytes(req.version, req.command, reserved, a, req.destPort);
    var late := methods[|g.data|..];
    assert Pending(g.stream) == Pending(s)[|g.data|..];
    assert Pending(s)[|g.data|..] == late + (request + rest);
    var r, b := ReadRequestFrom(g.stream, req, rest);
    var read := RequestBytes(req.version, req.command, r, b, req.destPort);
    CancelRest(late, request, read, rest);
    NoLateStart(late, req.version, req.command, r, reserved, b, a, req.destPort);
  }

  lemma CancelRest(late: bytes, request: bytes, read: bytes, rest: bytes)
    requires late + (request + rest) == read + rest
    ensures late + request == read
  {
    assert |late + request| == |read|;
    assert late + (request + rest) == late + request + rest;
    assert (late + request + rest)[..|read|] == late + request;
    assert (read + rest)[..|read|] == read;
  }

  /** The two bytes before the methods are read whatever arrives. */
  lemma GreetingHead(s: Stream, n: byte, more: bytes) returns (s2: Stream)
    requires WellFormed(s) && Pending(s) == [VERSION, n] + more
    ensures WellFormed(s2) && Pending(s2) == more
    ensures ReadByte(s).Ok? && ReadByte(s).value == VERSION && ReadByte(ReadByte(s).stream) == Ok(n, s2)
    ensures ReadGreeting(s) == Ok((), if n == 0 then s2 else ReadSome(s2, n).stream)
  {
    hide Flatten, ReadSome;
    var p := [VERSION, n] + more;
    AtOncePending(p);
    assert WellFormed(AtOnce(p));
    SameByte(s, AtOnce(p));
    AtOnceByte(p);
    AtOncePending(p[1..]);
    SameByte(ReadByte(s).stream, AtOnce(p[1..]));
    AtOnceByte(p[1..]);
    AtOncePending(p[1..][1..]);
    s2 := ReadByte(ReadByte(s).stream).stream;
    assert p[1..][1..] == more;
  }

  /**
   * For a client that sends a well-formed greeting and request: the handshake gives that request and
   * leaves exactly what follows it if and only if the plain reads are full.
   */
  lemma UnderstoodIffFullReads(s: Stream, methods: bytes, version: byte, command: byte, reserved: byte,
                               a: Address, port: nat, rest: bytes)
    requires WellFormed(s) && |methods| <= 255 && ValidAddress(a) && port < 0x1_0000
    requires Pending(s) == Greeting(methods) + RequestBytes(version, command, reserved, a, port) + rest
    ensures Understood(ReadHandshake(s), ConnectRequest(version, command, AddressText(a), port), rest)
       <==> FullReads(s)
  {
    var req := ConnectRequest(version, command, AddressText(a), port);
    if FullReads(s) {
      FullIsUnderstood(s, methods, req, reserved, a, rest);
    }
    if Understood(ReadHandshake(s), req, rest) {
      UnderstoodIsFull(s, methods, req, reserved, a, rest);
    }
  }

  lemma FullIsUnderstood(s: Stream, methods: bytes, req: ConnectRequest, reserved: byte, a: Address, rest: bytes)
    requires WellFormed(s) && |methods| <= 255 && ValidAddress(a) && req.destPort < 0x1_0000
    requires AddressText(a) == req.destAddr && FullReads(s)
    requires Pending(s)
          == Greeting(methods) + RequestBytes(req.version, req.command, reserved, a, req.destPort) + rest
    ensures Understood(ReadHandshake(s), req, rest)
  {
    hide Flatten, ReadHandshake, FullReads, Greeting, RequestBytes, AddressText;
    var p := Pending(s);
    AtOncePending(p);
    AtOncePending(rest);
    AtOnceFullReads(p);
    HandshakeAccepted(methods, req.version, req.command, reserved, a, req.destPort, rest);
    HandshakeIgnoresChunks(s, AtOnce(p));
  }

  lemma UnderstoodIsFull(s: Stream, methods: bytes, req: ConnectRequest, reserved: byte, a: Address, rest: bytes)
    requires WellFormed(s) && |methods| <= 255 && ValidAddress(a) && AddressText(a) == req.destAddr
    requires Pending(s)
          == Greeting(methods) + RequestBytes(req.version, req.command, reserved, a, req.destPort) + rest
    requires Understood(ReadHandshake(s), req, rest)
    ensures FullReads(s)
  {
    hide Flatten, ReadRequest, ReadByte, ReadSome, RequestBytes, AddressText, Understood;
    var request := RequestBytes(req.version, req.command, reserved, a, req.destPort);
    assert Pending(s) == [VERSION, |methods|] + (methods + (request + rest));
    var s2 := GreetingHead(s, |methods|, methods + (request + rest));
    if methods != [] {
      MethodsReadWhole(s2, methods, req, reserved, a, rest);
    }
    var s3 := ReadGreeting(s).stream;
    assert ReadHandshake(s) == ReadRequest(s3);
    var r, b := ReadRequestFrom(s3, req, rest);
  }

  // ---------------------------------------------------------------- told from the arrival

  function Used(s: Stream, t: Stream): int {
    |Pending(s)| - |Pending(t)|
  }

  /** `t` is what a full read of as many bytes leaves of `s`. */
  predicate Follows(s: Stream, t: Stream) {
    WellFormed(s) && WellFormed(t) && 0 <= Used(s, t) && t == FullRead(s, Used(s, t)).stream
  }

  lemma FollowsBoth(s: Stream, t: Stream, u: Stream)
    requires Follows(s, t) && Follows(t, u) && Used(s, t) + Used(t, u) < BUFFER
    ensures Follows(s, u) && Used(s, u) == Used(s, t) + Used(t, u)
  {
    hide FullRead, Pending;
    FullReadsCompose(s, Used(s, t), Used(t, u));
  }

  lemma SomeFollows(s: Stream, k: nat)
    requires WellFormed(s) && 0 < k < BUFFER
    ensures var g := ReadSome(s, k); Follows(s, g.stream) && Used(s, g.stream) == |g.data|
  {
    hide FullRead, ReadSome;
    ShortReadIsFull(s, k);
    var g := ReadSome(s, k);
    assert |g.data + Pending(g.stream)| == |Pending(s)|;
  }

  lemma ByteFollows(s: Stream)
    requires WellFormed(s) && ReadByte(s).Ok?
    ensures Follows(s, ReadByte(s).stream) && Used(s, ReadByte(s).stream) == 1
  {
    hide ReadSome, Follows;
    SomeFollows(s, 1);
  }

  lemma ExactlyFollows(s: Stream, k: nat)
    requires WellFormed(s) && ReadExactly(s, k).Ok?
    ensures Follows(s, ReadExactly(s, k).stream) && Used(s, ReadExactly(s, k).stream) == k
  {
    hide FullRead, Pending, NonEmpty;
    FullReadTakesPrefix(s, k);
  }

  lemma AddressFollows(s: Stream)
    requires WellFormed(s) && ReadAddress(s).Ok?
    ensures Follows(s, ReadAddress(s).stream) && Used(s, ReadAddress(s).stream) <= 257
  {
    hide ReadByte, ReadExactly, IpString, Used;
    var t := ReadAddress(s).stream;
    ByteFollows(s);
    var s1 := ReadByte(s).stream;
    if ReadByte(s).value == DOMAIN {
      ByteFollows(s1);
      var s2 := ReadByte(s1).stream;
      ExactlyFollows(s2, ReadByte(s1).value);
      FollowsBoth(s1, s2, t);
      FollowsBoth(s, s1, t);
    } else {
      ExactlyFollows(s1, if ReadByte(s).value == IPV4 then 4 else 16);
      FollowsBoth(s, s1, t);
    }
  }

  lemma RequestFollows(s: Stream)
    requires WellFormed(s) && ReadRequest(s).Ok?
    ensures Follows(s, ReadRequest(s).stream) && Used(s, ReadRequest(s).stream) <= 262
  {
    hide ReadSome, ReadAddress, ReadExactly, Used;
    SomeFollows(s, 3);
    var s1 := ReadSome(s, 3).stream;
    AddressFollows(s1);
    var s2 := ReadAddress(s1).stream;
    ExactlyFollows(s2, 2);
    var t := ReadExactly(s2, 2).stream;
    FollowsBoth(s1, s2, t);
    FollowsBoth(s, s1, t);
  }

  lemma GreetingFollows(s: Stream)
    requires WellFormed(s) && ReadGreeting(s).Ok?
    ensures Follows(s, ReadGreeting(s).stream) && Used(s, ReadGreeting(s).stream) <= 257
  {
    hide ReadByte, ReadSome, Used;
    ByteFollows(s);
    var s1 := ReadByte(s).stream;
    ByteFollows(s1);
    var s2, n := ReadByte(s1).stream, ReadByte(s1).value;
    FollowsBoth(s, s1, s2);
    if n > 0 {
      SomeFollows(s2, n);
      FollowsBoth(s, s2, ReadSome(s2, n).stream);
    }
  }

  /** An accepted handshake leaves its reader as one full read of the same bytes would. */
  lemma HandshakeFollows(s: Stream)
    requires WellFormed(s) && ReadHandshake(s).Ok?
    ensures Follows(s, ReadHandshake(s).stream) && Used(s, ReadHandshake(s).stream) <= 519
  {
    hide ReadGreeting, ReadRequest, Used;
    GreetingFollows(s);
    RequestFollows(ReadGreeting(s).stream);
    FollowsBoth(s, ReadGreeting(s).stream, ReadHandshake(s).stream);
  }

  /** The size of a handshake. */
  function HandshakeSize(methods: bytes, a: Address): nat
    requires ValidAddress(a)
  {
    7 + |methods| + |AddressBytes(a)|
  }

  lemma HandshakeSizeIs(methods: bytes, version: byte, command: byte, reserved: byte, a: Address, port: nat)
    requires |methods| <= 255 && ValidAddress(a)
    ensures |Greeting(methods) + RequestBytes(version, command, reserved, a, port)| == HandshakeSize(methods, a)
    ensures HandshakeSize(methods, a) <= 519
  {
  }

  /**
   * What the client sends behind its request is dropped, in full or in part, unless the request ends at
   * the end of a chunk: the handshake's reader has it in its buffer and goes away.
   */
  lemma NothingReadAheadIff(chunks: seq<bytes>, methods: bytes, req: ConnectRequest, reserved: byte, a: Address,
                            rest: bytes)
    requires NonEmpty(chunks) && |methods| <= 255 && ValidAddress(a)
    requires Flatten(chunks)
          == Greeting(methods) + RequestBytes(req.version, req.command, reserved, a, req.destPort) + rest
    requires Understood(ReadHandshake(Stream([], chunks)), req, rest)
    ensures var left := ReadHandshake(Stream([], chunks)).stream;
            && left.buffered + Flatten(left.chunks) == rest
            && (left.buffered == [] <==> ChunkEnds(chunks, HandshakeSize(methods, a)))
  {
    hide ReadHandshake, Greeting, RequestBytes, FullRead, NonEmpty, ChunkEnds, Flatten;
    var s, n := Stream([], chunks), HandshakeSize(methods, a);
    HandshakeSizeIs(methods, req.version, req.command, reserved, a, req.destPort);
    HandshakeFollows(s);
    assert Pending(s) == Flatten(chunks);
    assert Used(s, ReadHandshake(s).stream) == n;
    NothingBufferedIff(chunks, n);
  }

  /** A client that sends data with its request loses all of it. */
  lemma EarlyDataIsDropped(methods: bytes, req: ConnectRequest, reserved: byte, a: Address, data: bytes)
    requires |methods| <= 255 && ValidAddress(a) && AddressText(a) == req.destAddr && req.destPort < 0x1_0000
    requires |methods| + |AddressBytes(a)| + |data| <= BUFFER - 7
    ensures var sent := Greeting(methods) + RequestBytes(req.version, req.command, reserved, a, req.destPort) + data;
            ReadHandshake(Stream([], [sent])) == Ok(req, Stream(data, []))
  {
    var opening := Greeting(methods) + RequestBytes(req.version, req.command, reserved, a, req.destPort);
    var sent := opening + data;
    var s, n := Stream([], [sent]), HandshakeSize(methods, a);
    HandshakeSizeIs(methods, req.version, req.command, reserved, a, req.destPort);
    hide ReadHandshake, Greeting, RequestBytes, FullRead, AddressText, Understood, ChunkEnds;
    assert Flatten([sent]) == sent;
    OneChunkUncut(sent, 2, 2 + |methods|);
    OneChunkUncut(sent, 2 + |methods|, 5 + |methods|);
    UnderstoodIffUncut([sent], methods, req, reserved, a, data);
    UnderstoodLeaves(s, req, data);
    HandshakeFollows(s);
    assert Used(s, ReadHandshake(s).stream) == n;
    assert sent[n..] == data;
    LeftOfOneChunk(sent, n);
  }

  lemma UnderstoodLeaves(s: Stream, req: ConnectRequest, rest: bytes)
    requires Understood(ReadHandshake(s), req, rest)
    ensures ReadHandshake(s).Ok? && ReadHandshake(s).value == req && Pending(ReadHandshake(s).stream) == rest
  {
    hide ReadHandshake;
  }

  lemma LeftOfOneChunk(sent: bytes, n: nat)
    requires 0 < n <= |sent| <= BUFFER && n < BUFFER
    ensures After([sent], n) == Stream(sent[n..], [])
  {
    hide FullRead;
    AfterRefill([sent], n);
    BufferedRead(sent, [], n);
    assert [sent][1..] == [];
  }

  lemma OneChunkUncut(sent: bytes, from: nat, to: nat)
    requires to <= |sent|
    ensures Uncut([sent], from, to)
  {
    forall n: nat | from < n < to ensures !ChunkEnds([sent], n) {
      forall m | 0 <= m <= 1 ensures |Flatten([sent][..m])| != n {
        assert [sent][..m] == if m == 0 then [] else [sent];
        assert Flatten([sent]) == sent;
      }
    }
  }

  /** The stream behind the greeting's two leading bytes, and the two plain reads, by the arrival. */
  lemma FullReadsIffUncut(chunks: seq<bytes>, methods: bytes, more: bytes)
    requires NonEmpty(chunks) && |methods| <= 255 && |more| >= 3
    requires Flatten(chunks) == Greeting(methods) + more
    ensures FullReads(Stream([], chunks))
       <==> Uncut(chunks, 2, 2 + |methods|) && Uncut(chunks, 2 + |methods|, 5 + |methods|)
  {
    hide ReadByte, ReadSome, FullRead, ChunkEnds, Uncut, NonEmpty, Flatten;
    var s, n := Stream([], chunks), |methods|;
    assert Pending(s) == Flatten(chunks) && Pending(s) == [VERSION, n] + (methods + more);
    var s2 := GreetingHead(s, n, methods + more);
    ByteFollows(s);
    ByteFollows(ReadByte(s).stream);
    FollowsBoth(s, ReadByte(s).stream, s2);
    assert s2 == After(chunks, 2);
    PlainReadFullIff(chunks, 2 + n, 3);
    if n == 0 {
      assert Uncut(chunks, 2, 2) by { NothingToCut(chunks, 2); }
    } else {
      PlainReadFullIff(chunks, 2, n);
      var s3 := ReadSome(s2, n).stream;
      SomeFollows(s2, n);
      FollowsBoth(s, s2, s3);
      assert |ReadSome(s2, n).data| == n ==> s3 == After(chunks, 2 + n);
    }
  }

  lemma NothingToCut(chunks: seq<bytes>, n: nat)
    ensures Uncut(chunks, n, n)
  {
  }

  /**
   * The exact condition told from the arrival: the request is understood if and only if no chunk ends
   * inside the list of methods, nor inside the first three bytes of the request.
   */
  lemma UnderstoodIffUncut(chunks: seq<bytes>, methods: bytes, req: ConnectRequest, reserved: byte, a: Address,
                           rest: bytes)
    requires NonEmpty(chunks) && |methods| <= 255 && ValidAddress(a) && req.destPort < 0x1_0000
    requires AddressText(a) == req.destAddr
    requires Flatten(chunks)
          == Greeting(methods) + RequestBytes(req.version, req.command, reserved, a, req.destPort) + rest
    ensures Understood(ReadHandshake(Stream([], chunks)), req, rest)
       <==> Uncut(chunks, 2, 2 + |methods|) && Uncut(chunks, 2 + |methods|, 5 + |methods|)
  {
    hide Flatten, Greeting, RequestBytes, FullReads, Understood, Uncut, NonEmpty, AddressText, ReadHandshake;
    var request := RequestBytes(req.version, req.command, reserved, a, req.destPort);
    RequestIsLong(req.version, req.command, reserved, a, req.destPort);
    assert Flatten(chunks) == Greeting(methods) + (request + rest);
    FullReadsIffUncut(chunks, methods, request + rest);
    var s := Stream([], chunks);
    assert Pending(s) == Flatten(chunks);
    UnderstoodIffFullReads(s, methods, req.version, req.command, reserved, a, req.destPort, rest);
  }

  lemma RequestIsLong(version: byte, command: byte, reserved: byte, a: Address, port: nat)
    requires ValidAddress(a)
    ensures |RequestBytes(version, command, reserved, a, port)| >= 3
  {
  }
}

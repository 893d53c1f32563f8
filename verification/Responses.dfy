/**
 * What a SOCKS5 service sends, from the service-side agent's first read to the client. The agent reads
 * the reply to its connect request by one plain read through a reader that it drops, relays the rest in
 * messages, and the gateway cuts these by its own reads. The main results say exactly when each of these
 * steps is lossless.
 */
module Responses {
  import opened Bytes
  import opened Frames
  import opened Bufio
  import opened FrameReaders
  import opened Messages
  import opened Links
  import opened Agents
  import Tunnel
  import Wire
  import Socks5

  // ---------------------------------------------------------------- the reply to the connect request

  /** Size of the buffer for the reply. */
  const REPLY_READ: nat := 256

  /** io.ReadFull on the connection itself, which reads nothing ahead. */
  function RawFull(chunks: seq<bytes>, k: nat): (r: (bytes, seq<bytes>))
    ensures |r.0| <= k && (NonEmpty(chunks) ==> NonEmpty(r.1))
    decreases k
  {
    if k == 0 then ([], chunks)
    else
      var g := ReadChunk(chunks, k);
      if g.0 == [] then g
      else
        var more := RawFull(g.1, k - |g.0|);
        (g.0 + more.0, more.1)
  }

  /** The reply as the agent looks at it: the bytes read, then zeros. A name must end inside the buffer. */
  predicate GoodReply(read: bytes)
    requires |read| <= REPLY_READ
  {
    var response := read + seq(REPLY_READ - |read|, _ => 0);
    && response[0] == Socks5.VERSION && response[1] == 0
    && (response[3] == Socks5.DOMAIN ==> 5 + response[4] <= REPLY_READ)
  }

  /** What the service's bytes are when the agent begins to relay them; not `ok` is a panic. */
  datatype Connected = Connected(ok: bool, chunks: seq<bytes>, dropped: bytes)

  function ConnectReads(chunks: seq<bytes>): (r: Connected)
    requires NonEmpty(chunks)
    ensures NonEmpty(r.chunks)
  {
    var auth := RawFull(chunks, 2);
    if auth.0 != [Socks5.VERSION, Socks5.NO_AUTH] then Connected(false, auth.1, [])
    else
      var g := ReadSome(Stream([], auth.1), REPLY_READ);
      Connected(g.data != [] && GoodReply(g.data), g.stream.chunks, g.stream.buffered)
  }

  /** connectToSocks5Service, its reads: two bytes in full, then one plain read through a reader of its own. */
  method ConnectToService(conn: Conn) returns (ok: bool)
    requires NonEmpty(conn.chunks)
    modifies conn
    ensures ok == ConnectReads(old(conn.chunks)).ok && conn.chunks == ConnectReads(old(conn.chunks)).chunks
  {
    hide ReadSome, NonEmpty, Flatten, RawFull, GoodReply;
    var authResponse := new byte[2];
    var got := ReadRaw(conn, authResponse);
    assert got == 2 ==> authResponse[..got] == [authResponse[0], authResponse[1]];
    if got < 2 || authResponse[0] != Socks5.VERSION || authResponse[1] != Socks5.NO_AUTH {
      return false;
    }
    ok := ReadReply(conn);
  }

  /** The reply's part of connectToSocks5Service. */
  method ReadReply(conn: Conn) returns (ok: bool)
    requires NonEmpty(conn.chunks)
    modifies conn
    ensures var g := ReadSome(Stream([], old(conn.chunks)), REPLY_READ);
            ok == (g.data != [] && GoodReply(g.data)) && conn.chunks == g.stream.chunks
  {
    hide ReadSome, NonEmpty, Flatten;
    var response := new byte[REPLY_READ](_ => 0);
    var serviceRespReader := new Reader(conn);
    var readCnt := serviceRespReader.Read(response, 0, REPLY_READ);
    if readCnt == 0 {
      return false;
    }
    ghost var read := response[0..readCnt];
    assert forall i | readCnt <= i < REPLY_READ :: response[i] == response[readCnt..][i - readCnt];
    assert response[..] == read + seq(REPLY_READ - |read|, _ => 0);
    if response[0] != Socks5.VERSION || response[1] != 0 {
      return false;
    }
    if response[3] == Socks5.DOMAIN && 5 + response[4] > REPLY_READ {
      return false;
    }
    return true;
  }

  /** `data` has been read towards a full read of `k` bytes that began at `chunks`, and `left` remains. */
  predicate RawSoFar(chunks: seq<bytes>, k: nat, data: bytes, left: seq<bytes>) {
    && |data| <= k
    && RawFull(chunks, k).0 == data + RawFull(left, k - |data|).0
    && RawFull(chunks, k).1 == RawFull(left, k - |data|).1
  }

  lemma RawStarts(chunks: seq<bytes>, k: nat)
    ensures RawSoFar(chunks, k, [], chunks)
  {
    hide RawFull;
    assert [] + RawFull(chunks, k).0 == RawFull(chunks, k).0;
  }

  lemma RawGoesOn(chunks: seq<bytes>, k: nat, data: bytes, left: seq<bytes>)
    requires RawSoFar(chunks, k, data, left) && |data| < k
    ensures var g := ReadChunk(left, k - |data|);
            && (g.0 == [] ==> RawFull(chunks, k) == (data + g.0, g.1))
            && (g.0 != [] ==> RawSoFar(chunks, k, data + g.0, g.1))
  {
    hide RawFull, ReadChunk, Flatten, NonEmpty;
    RawStep(left, k - |data|);
    var g := ReadChunk(left, k - |data|);
    if g.0 != [] {
      RawOneMore(chunks, k, data, left, g.0, g.1);
    }
  }

  lemma RawOneMore(chunks: seq<bytes>, k: nat, data: bytes, left: seq<bytes>, got: bytes, rest: seq<bytes>)
    requires RawSoFar(chunks, k, data, left) && |data| + |got| <= k
    requires RawFull(left, k - |data|).0 == got + RawFull(rest, k - |data| - |got|).0
    requires RawFull(left, k - |data|).1 == RawFull(rest, k - |data| - |got|).1
    ensures RawSoFar(chunks, k, data + got, rest)
  {
    hide RawFull, Flatten, NonEmpty;
    AssociateAll(data, got, RawFull(rest, k - |data| - |got|).0);
  }

  lemma AssociateAll(a: bytes, b: bytes, c: bytes)
    ensures a + (b + c) == a + b + c
  {
  }

  lemma RawStep(chunks: seq<bytes>, k: nat)
    requires k > 0
    ensures var g := ReadChunk(chunks, k);
            && (g.0 == [] ==> RawFull(chunks, k) == g)
            && (g.0 != [] ==>
                  && RawFull(chunks, k).0 == g.0 + RawFull(g.1, k - |g.0|).0
                  && RawFull(chunks, k).1 == RawFull(g.1, k - |g.0|).1)
  {
    hide ReadChunk;
  }

  lemma RawIsDone(chunks: seq<bytes>, k: nat, data: bytes, left: seq<bytes>)
    requires RawSoFar(chunks, k, data, left) && |data| == k
    ensures RawFull(chunks, k) == (data, left)
  {
    assert data + [] == data;
  }

  /** io.ReadFull of a whole array. */
  method ReadRaw(conn: Conn, p: array<byte>) returns (n: nat)
    requires NonEmpty(conn.chunks)
    modifies conn, p
    ensures n <= p.Length && NonEmpty(conn.chunks)
    ensures (p[..n], conn.chunks) == RawFull(old(conn.chunks), p.Length)
  {
    hide ReadChunk, NonEmpty, Flatten, RawFull, RawSoFar;
    n := 0;
    ghost var start := conn.chunks;
    RawStarts(start, p.Length);
    assert p[..0] == [];
    while n < p.Length
      invariant n <= p.Length && NonEmpty(conn.chunks)
      invariant RawSoFar(start, p.Length, p[..n], conn.chunks)
    {
      ghost var before := p[..n];
      RawGoesOn(start, p.Length, before, conn.chunks);
      var got := conn.Read(p, n, p.Length);
      assert p[..n + got] == before + p[n..n + got];
      n := n + got;
      if got == 0 {
        return;
      }
    }
    RawIsDone(start, p.Length, p[..n], conn.chunks);
  }

  // ---------------------------------------------------------------- what is relayed

  /** The chunks as messages, the ids made one after the other. */
  function Relayed(contents: seq<bytes>, uuid: nat -> bytes, first: nat): (r: seq<Chunk>)
    ensures |r| == |contents| && Contents(r) == contents
  {
    if contents == [] then []
    else [Chunk(uuid(first), contents[0])] + Relayed(contents[1..], uuid, first + 1)
  }

  /** Each read is the content of one message, under an id of its own. */
  lemma {:induction false} RelayedAt(contents: seq<bytes>, uuid: nat -> bytes, first: nat, i: nat)
    requires i < |contents|
    ensures Relayed(contents, uuid, first)[i] == Chunk(uuid(first + i), contents[i])
  {
    if i > 0 {
      RelayedAt(contents[1..], uuid, first + 1, i - 1);
    }
  }

  lemma {:induction false} RelayedSnoc(contents: seq<bytes>, x: bytes, uuid: nat -> bytes, first: nat)
    ensures Relayed(contents + [x], uuid, first)
         == Relayed(contents, uuid, first) + [Chunk(uuid(first + |contents|), x)]
  {
    if contents == [] {
      assert contents + [x] == [x];
    } else {
      assert (contents + [x])[1..] == contents[1..] + [x];
      RelayedSnoc(contents[1..], x, uuid, first + 1);
    }
  }

  lemma {:induction false} DataMessagesSnoc(id: RequestId, chunks: seq<Chunk>, x: Chunk)
    ensures Flatten(DataMessages(id, chunks + [x])) == Flatten(DataMessages(id, chunks)) + DataMessage(id, x)
  {
    hide DataMessage, Flatten;
    assert DataMessages(id, chunks + [x]) == DataMessages(id, chunks) + [DataMessage(id, x)];
    FlattenSnoc(DataMessages(id, chunks), DataMessage(id, x));
  }

  /**
   * The service-side agent's return loop: every read becomes a message, and the messages are written
   * without frames. It ends when the connection does, which the agent answers with a panic.
   */
  method RelayService(conn: Conn, id: RequestId, uuid: nat -> bytes) returns (written: bytes)
    requires NonEmpty(conn.chunks)
    modifies conn
    ensures written == Flatten(DataMessages(id, Relayed(AgentReads(old(conn.chunks)), uuid, 0)))
  {
    hide ReadSome, ReadChunk, Flatten, NonEmpty, AgentReads, DataMessage, DataMessages, Relayed;
    written := [];
    ghost var contents: seq<bytes> := [];
    ghost var all := AgentReads(conn.chunks);
    NothingRelayed(id, uuid);
    assert contents + all == all;
    var buf := new byte[AGENT_READ];
    var count := 0;
    while true
      invariant NonEmpty(conn.chunks) && count == |contents|
      invariant all == contents + AgentReads(conn.chunks)
      invariant written == Flatten(DataMessages(id, Relayed(contents, uuid, 0)))
      decreases |Flatten(conn.chunks)|
    {
      ghost var before := conn.chunks;
      var reader := new Reader(conn);
      EmptyBufferSome(before, AGENT_READ);
      var readCnt := reader.Read(buf, 0, AGENT_READ);
      if readCnt == 0 {
        NothingCame(before);
        assert contents + [] == contents;
        return;
      }
      var content := buf[0..readCnt];
      OneRead(before);
      RelayedSnoc(contents, content, uuid, 0);
      DataMessagesSnoc(id, Relayed(contents, uuid, 0), Chunk(uuid(count), content));
      assert contents + ([content] + AgentReads(conn.chunks)) == contents + [content] + AgentReads(conn.chunks);
      written := written + DataMessage(id, Chunk(uuid(count), content));
      contents, count := contents + [content], count + 1;
    }
  }

  lemma NothingRelayed(id: RequestId, uuid: nat -> bytes)
    ensures Flatten(DataMessages(id, Relayed([], uuid, 0))) == []
  {
  }

  // ---------------------------------------------------------------- which bytes these are

  const AUTH: bytes := [Socks5.VERSION, Socks5.NO_AUTH]

  /** A reply that says the connection is made: a request's layout, with 0 for the command. */
  function ReplyBytes(reserved: byte, a: Socks5.Address, port: nat): bytes
    requires Socks5.ValidAddress(a)
  {
    Socks5.RequestBytes(Socks5.VERSION, 0, reserved, a, port)
  }

  /** The agent looks for a name within the first 256 bytes of a reply. */
  predicate ShortName(a: Socks5.Address) {
    a.Domain? ==> |a.name| <= 251
  }

  /** Full reads of the connection leave the chunks without the bytes read. */
  lemma {:induction false} RawFullDrops(chunks: seq<bytes>, k: nat)
    requires NonEmpty(chunks) && k <= |Flatten(chunks)|
    ensures RawFull(chunks, k) == (Flatten(chunks)[..k], DropBytes(chunks, k))
    decreases k
  {
    hide ReadChunk, NonEmpty, Flatten, DropBytes;
    if k == 0 {
      DropNothing(chunks);
    } else {
      FlattenNonEmpty(chunks);
      var g := ReadChunk(chunks, k);
      DropAfterRead(chunks, k, k);
      RawFullDrops(g.1, k - |g.0|);
      assert Flatten(chunks)[..k] == g.0 + Flatten(g.1)[..k - |g.0|];
    }
  }

  /** The plain read: what it returns, and what one refill took from the connection. */
  lemma PlainReply(chunks: seq<bytes>, tail: bytes)
    requires NonEmpty(chunks) && Flatten(chunks) == AUTH + tail && tail != []
    ensures var rest, r := DropBytes(chunks, 2), ConnectReads(chunks);
            && rest != [] && Flatten(rest) == tail
            && var drawn := Min(|rest[0]|, BUFFER);
            && 0 < drawn <= |tail|
            && Flatten(r.chunks) == tail[drawn..]
            && r.ok == GoodReply(tail[..Min(drawn, REPLY_READ)])
  {
    RawFullDrops(chunks, 2);
    assert (AUTH + tail)[..2] == AUTH && (AUTH + tail)[2..] == tail;
    var rest := DropBytes(chunks, 2);
    FlattenNonEmpty(rest);
    hide RawFull, DropBytes, GoodReply, NonEmpty, Flatten;
    FirstRefill(rest);
  }

  lemma {:induction false} RawFullShort(chunks: seq<bytes>, k: nat)
    ensures |RawFull(chunks, k).0| <= |Flatten(chunks)|
    decreases k
  {
    if k > 0 {
      var g := ReadChunk(chunks, k);
      hide ReadChunk, Flatten;
      assert |g.0 + Flatten(g.1)| == |Flatten(chunks)|;
      if g.0 != [] {
        RawFullShort(g.1, k - |g.0|);
      }
    }
  }

  /**
   * For every arrival: the agent goes on exactly when the service's first two bytes choose no
   * authentication, and the chunk behind them begins with version 5 and, as far as it goes, says success
   * and names no host of more than 251 bytes.
   */
  lemma ConnectOkIff(chunks: seq<bytes>)
    requires NonEmpty(chunks)
    ensures ConnectReads(chunks).ok
       <==> && [5, 0] <= Flatten(chunks)
            && var rest := DropBytes(chunks, 2);
            && rest != []
            && rest[0][0] == 5 && (|rest[0]| >= 2 ==> rest[0][1] == 0)
            && !(|rest[0]| >= 5 && rest[0][3] == 3 && rest[0][4] > 251)
  {
    hide ConnectReads, Flatten, NonEmpty, DropBytes;
    if |Flatten(chunks)| < 2 {
      NoAnswer(chunks);
    } else {
      var tail := Flatten(chunks)[2..];
      assert Flatten(chunks) == Flatten(chunks)[..2] + tail;
      assert [5, 0] <= Flatten(chunks) <==> Flatten(chunks)[..2] == [5, 0];
      if Flatten(chunks)[..2] == [5, 0] && tail != [] {
        AnswerAndReply(chunks, tail);
      } else {
        NoReply(chunks);
      }
    }
  }

  lemma NoAnswer(chunks: seq<bytes>)
    requires NonEmpty(chunks) && |Flatten(chunks)| < 2
    ensures !ConnectReads(chunks).ok
  {
    RawFullShort(chunks, 2);
    hide RawFull, Flatten, NonEmpty, GoodReply, ReadSome;
  }

  lemma NoReply(chunks: seq<bytes>)
    requires NonEmpty(chunks) && 2 <= |Flatten(chunks)|
    requires Flatten(chunks)[..2] != [5, 0] || |Flatten(chunks)| == 2
    ensures !ConnectReads(chunks).ok
    ensures |Flatten(chunks)| == 2 ==> DropBytes(chunks, 2) == []
  {
    RawFullDrops(chunks, 2);
    var rest := DropBytes(chunks, 2);
    FlattenNonEmpty(rest);
    hide RawFull, Flatten, NonEmpty, GoodReply, DropBytes;
    NothingBehind(rest);
  }

  lemma AnswerAndReply(chunks: seq<bytes>, tail: bytes)
    requires NonEmpty(chunks) && Flatten(chunks) == [5, 0] + tail && tail != []
    ensures var rest := DropBytes(chunks, 2);
            && rest != [] && rest[0] != []
            && (ConnectReads(chunks).ok <==>
                  && rest[0][0] == 5 && (|rest[0]| >= 2 ==> rest[0][1] == 0)
                  && !(|rest[0]| >= 5 && rest[0][3] == 3 && rest[0][4] > 251))
  {
    assert AUTH == [5, 0];
    hide ConnectReads, Flatten, NonEmpty, DropBytes, GoodReply;
    PlainReply(chunks, tail);
    var rest := DropBytes(chunks, 2);
    FirstNotEmpty(rest);
    FirstChunkIs(rest, tail);
    var first := rest[0];
    var drawn := Min(|first|, BUFFER);
    assert Min(drawn, REPLY_READ) == Min(|first|, REPLY_READ);
    assert tail[..Min(drawn, REPLY_READ)] == first[..Min(drawn, REPLY_READ)];
    GoodReplyIff(first);
  }

  lemma FirstNotEmpty(rest: seq<bytes>)
    requires NonEmpty(rest) && rest != []
    ensures rest[0] != []
  {
  }

  lemma NothingBehind(rest: seq<bytes>)
    ensures rest == [] ==> ReadSome(Stream([], rest), REPLY_READ).data == []
  {
  }

  lemma GoodReplyIff(first: bytes)
    requires first != []
    ensures GoodReply(first[..Min(|first|, REPLY_READ)])
       <==> && first[0] == 5 && (|first| >= 2 ==> first[1] == 0)
            && !(|first| >= 5 && first[3] == 3 && first[4] > 251)
  {
  }

  /** A service that refuses the connection, whatever its reason, is not taken to have made it. */
  lemma RefusalIsRefused(chunks: seq<bytes>, code: byte, reserved: byte, a: Socks5.Address, port: nat)
    requires NonEmpty(chunks) && 2 <= |Flatten(chunks)| && Socks5.ValidAddress(a)
    requires DropBytes(chunks, 2) != []
    requires DropBytes(chunks, 2)[0] == Socks5.RequestBytes(5, code, reserved, a, port)
    ensures ConnectReads(chunks).ok <==> [5, 0] <= Flatten(chunks) && code == 0 && ShortName(a)
  {
    hide ConnectReads, Flatten, DropBytes, BigEndian, NonEmpty;
    ConnectOkIff(chunks);
    var first := DropBytes(chunks, 2)[0];
    assert first[3] == Socks5.AddressBytes(a)[0];
    assert first[4] == Socks5.AddressBytes(a)[1];
  }

  lemma FirstRefill(rest: seq<bytes>)
    requires NonEmpty(rest) && rest != []
    ensures var drawn, g := Min(|rest[0]|, BUFFER), ReadSome(Stream([], rest), REPLY_READ);
            && 0 < drawn <= |Flatten(rest)|
            && g.data == Flatten(rest)[..Min(drawn, REPLY_READ)]
            && Flatten(g.stream.chunks) == Flatten(rest)[drawn..]
            && g.stream.buffered == Flatten(rest)[Min(drawn, REPLY_READ)..drawn]
  {
    var (came, left) := ReadChunk(rest, BUFFER);
    assert |came| == Min(|rest[0]|, BUFFER);
    assert came + Flatten(left) == Flatten(rest);
    hide ReadChunk, Flatten, NonEmpty;
    var drawn := |came|;
    assert Flatten(rest)[..Min(drawn, REPLY_READ)] == came[..Min(drawn, REPLY_READ)];
    assert Flatten(rest)[Min(drawn, REPLY_READ)..drawn] == came[Min(drawn, REPLY_READ)..];
  }

  lemma WholeReplyIsGood(reserved: byte, a: Socks5.Address, port: nat)
    requires Socks5.ValidAddress(a)
    ensures var reply := ReplyBytes(reserved, a, port);
            5 < |reply| <= 262 && (GoodReply(reply[..Min(|reply|, REPLY_READ)]) <==> ShortName(a))
  {
    hide BigEndian;
    var reply := ReplyBytes(reserved, a, port);
    var read := reply[..Min(|reply|, REPLY_READ)];
    assert reply[3] == Socks5.AddressBytes(a)[0];
    assert a.Domain? ==> reply[4] == Socks5.AddressBytes(a)[1] == |a.name|;
    var response := read + seq(REPLY_READ - |read|, _ => 0);
    assert response[0] == Socks5.VERSION && response[1] == 0 && response[3] == reply[3] && response[4] == reply[4];
  }

  /**
   * The first hop: the agent relays exactly what the service sends behind its reply if and only if the
   * reply arrives in a chunk of its own, and does not name a host too long for the agent.
   */
  lemma RelaysDataIff(chunks: seq<bytes>, reserved: byte, a: Socks5.Address, port: nat, data: bytes)
    requires NonEmpty(chunks) && Socks5.ValidAddress(a)
    requires Flatten(chunks) == AUTH + (ReplyBytes(reserved, a, port) + data)
    ensures var r := ConnectReads(chunks);
            r.ok && Flatten(AgentReads(r.chunks)) == data
            <==> DropBytes(chunks, 2) != [] && DropBytes(chunks, 2)[0] == ReplyBytes(reserved, a, port)
                 && ShortName(a)
  {
    var reply := ReplyBytes(reserved, a, port);
    WholeReplyIsGood(reserved, a, port);
    hide ReplyBytes, ConnectReads, GoodReply, Flatten, DropBytes, AgentReads, NonEmpty, ShortName;
    PlainReply(chunks, reply + data);
    AgentReadsAll(ConnectReads(chunks).chunks);
    var rest := DropBytes(chunks, 2);
    var drawn := Min(|rest[0]|, BUFFER);
    FirstChunkIs(rest, reply + data);
    if drawn == |reply| {
      assert (reply + data)[drawn..] == data;
      assert (reply + data)[..Min(drawn, REPLY_READ)] == reply[..Min(|reply|, REPLY_READ)];
      assert (reply + data)[..|reply|] == reply;
    }
  }

  lemma FirstChunkIs(rest: seq<bytes>, whole: bytes)
    requires rest != [] && Flatten(rest) == whole
    ensures |rest[0]| <= |whole| && rest[0] == whole[..|rest[0]|]
  {
  }

  /** One refill takes the chunk behind the two bytes of the greeting's answer. */
  lemma FirstChunkIsTaken(first: bytes, more: seq<bytes>)
    requires 0 < |first| <= BUFFER && NonEmpty(more)
    ensures var chunks := [AUTH] + ([first] + more);
            && NonEmpty(chunks)
            && ConnectReads(chunks).ok == GoodReply(first[..Min(|first|, REPLY_READ)])
            && Flatten(ConnectReads(chunks).chunks) == Flatten(more)
  {
    var rest := [first] + more;
    assert rest[1..] == more;
    var tail := first + Flatten(more);
    assert Flatten(rest) == tail;
    TwoChunksLeft(AUTH, rest);
    hide ConnectReads, GoodReply, Flatten, DropBytes;
    PlainReply([AUTH] + rest, tail);
    assert tail[|first|..] == Flatten(more);
    assert tail[..Min(|first|, REPLY_READ)] == first[..Min(|first|, REPLY_READ)];
  }

  /** A service that greets at once, in the chunk of its reply: all of the greeting is dropped. */
  lemma BannerIsDropped(reserved: byte, a: Socks5.Address, port: nat, data: bytes)
    requires Socks5.ValidAddress(a) && ShortName(a)
    requires |ReplyBytes(reserved, a, port) + data| <= BUFFER
    ensures var chunks := [AUTH, ReplyBytes(reserved, a, port) + data];
            NonEmpty(chunks) && ConnectReads(chunks).ok && AgentReads(ConnectReads(chunks).chunks) == []
  {
    var reply := ReplyBytes(reserved, a, port);
    WholeReplyIsGood(reserved, a, port);
    hide ReplyBytes, GoodReply, ShortName, ConnectReads, Flatten;
    var first, none: seq<bytes> := reply + data, [];
    assert [AUTH] + ([first] + none) == [AUTH, first];
    FirstChunkIsTaken(first, none);
    assert reply[..Min(|reply|, REPLY_READ)][..5] == first[..5];
    GoodStart(reply[..Min(|reply|, REPLY_READ)], first);
    NothingLeft(ConnectReads([AUTH, first]).chunks);
  }

  lemma NothingLeft(chunks: seq<bytes>)
    requires NonEmpty(chunks) && Flatten(chunks) == Flatten([])
    ensures AgentReads(chunks) == []
  {
    FlattenNonEmpty(chunks);
  }

  lemma TwoChunksLeft(first: bytes, rest: seq<bytes>)
    requires |first| == 2 && NonEmpty(rest)
    ensures var chunks := [first] + rest;
            NonEmpty(chunks) && Flatten(chunks) == first + Flatten(rest) && DropBytes(chunks, 2) == rest
  {
    var chunks := [first] + rest;
    assert chunks[1..] == rest;
    DropNothing(rest);
  }

  /** Only the first five bytes of a reply are looked at. */
  lemma GoodStart(a: bytes, b: bytes)
    requires 5 <= |a| <= REPLY_READ && 5 <= |b| && a[..5] == b[..5]
    ensures GoodReply(a) <==> GoodReply(b[..Min(|b|, REPLY_READ)])
  {
    var c := b[..Min(|b|, REPLY_READ)];
    assert forall i | 0 <= i < 5 :: a[i] == a[..5][i] && c[i] == b[..5][i];
  }

  /** A reply that comes in two parts: the second part goes to the client as data. */
  lemma SplitReplyIsRelayed(reserved: byte, a: Socks5.Address, port: nat, data: bytes, k: nat)
    requires Socks5.ValidAddress(a) && ShortName(a)
    requires 5 <= k < |ReplyBytes(reserved, a, port)|
    ensures var reply := ReplyBytes(reserved, a, port);
            var chunks := [AUTH, reply[..k], reply[k..] + data];
            && NonEmpty(chunks) && ConnectReads(chunks).ok
            && Flatten(AgentReads(ConnectReads(chunks).chunks)) == reply[k..] + data
  {
    var reply := ReplyBytes(reserved, a, port);
    WholeReplyIsGood(reserved, a, port);
    hide ReplyBytes, GoodReply, ShortName, ConnectReads, AgentReads, Flatten;
    var first, more := reply[..k], [reply[k..] + data];
    assert [AUTH] + ([first] + more) == [AUTH, first, reply[k..] + data];
    FirstChunkIsTaken(first, more);
    assert reply[..Min(|reply|, REPLY_READ)][..5] == first[..5];
    GoodStart(reply[..Min(|reply|, REPLY_READ)], first);
    AgentReadsAll(ConnectReads([AUTH, first, reply[k..] + data]).chunks);
    FlattenOne(reply[k..] + data);
  }

  lemma FlattenOne(b: bytes)
    ensures Flatten([b]) == b
  {
  }

  // ---------------------------------------------------------------- messages cut by the gateway

  /** The reads of one message that is read on its own. */
  function Pieces(message: bytes): seq<bytes>
    decreases |message|
  {
    if |message| <= SERVICE_READ then [message]
    else [message[..SERVICE_READ]] + Pieces(message[SERVICE_READ..])
  }

  function AllPieces(messages: seq<bytes>): seq<bytes> {
    if messages == [] then [] else Pieces(messages[0]) + AllPieces(messages[1..])
  }

  /** What reads of the service's connection with the gateway's buffer return, one after the other. */
  function GatewayReads(chunks: seq<bytes>): seq<bytes>
    requires NonEmpty(chunks)
    decreases |Flatten(chunks)|
  {
    if chunks == [] then []
    else
      var g := ReadSome(Stream([], chunks), SERVICE_READ);
      assert |Flatten(g.stream.chunks)| < |Flatten(chunks)| by { GatewayProgress(chunks); }
      [g.data] + GatewayReads(g.stream.chunks)
  }

  lemma GatewayProgress(chunks: seq<bytes>)
    requires NonEmpty(chunks) && chunks != []
    ensures var g := ReadSome(Stream([], chunks), SERVICE_READ);
            g.stream.buffered == [] && NonEmpty(g.stream.chunks) && |Flatten(g.stream.chunks)| < |Flatten(chunks)|
  {
    EmptyBufferSome(chunks, SERVICE_READ);
    var r := ReadChunk(chunks, SERVICE_READ);
    hide ReadSome, ReadChunk, Flatten;
    assert |r.0 + Flatten(r.1)| == |Flatten(chunks)|;
  }

  /** Messages that arrive in a chunk each are read in these pieces. */
  lemma {:induction false} PiecesAreReads(messages: seq<bytes>)
    requires NonEmpty(messages)
    ensures GatewayReads(messages) == AllPieces(messages)
    decreases |Flatten(messages)|
  {
    if messages != [] {
      var first, rest := messages[0], messages[1..];
      GatewayProgress(messages);
      EmptyBufferSome(messages, SERVICE_READ);
      if |first| <= SERVICE_READ {
        PiecesAreReads(rest);
      } else {
        var cut := [first[SERVICE_READ..]] + rest;
        assert cut[1..] == rest;
        PiecesAreReads(cut);
        assert [first[..SERVICE_READ]] + (Pieces(first[SERVICE_READ..]) + AllPieces(rest))
            == [first[..SERVICE_READ]] + Pieces(first[SERVICE_READ..]) + AllPieces(rest);
      }
    }
  }

  /** A message that is cut short carries nothing to the client. */
  lemma CutIsSkipped(id: RequestId, chunk: Chunk, k: nat)
    requires chunk.content != [] && k < |DataMessage(id, chunk)|
    ensures ClientPart(DataMessage(id, chunk)[..k]) == []
  {
    hide MarshalExt, UnmarshalExt;
    CutMessageCarriesNothing(ExtData(SERVICE_NAME, id, chunk.msgId, DATA_MESSAGE, chunk.content), k);
  }

  lemma {:induction false} ClientBytesAppend(a: seq<bytes>, b: seq<bytes>)
    ensures ClientBytes(a + b) == ClientBytes(a) + ClientBytes(b)
  {
    hide ClientPart;
    if a == [] {
      assert a + b == b;
    } else {
      assert (a + b)[1..] == a[1..] + b;
      ClientBytesAppend(a[1..], b);
    }
  }

  /** No bytes decode to more than they are. */
  lemma {:induction false} PiecesAreShort(message: bytes)
    ensures |ClientBytes(Pieces(message))| <= |message|
    decreases |message|
  {
    hide UnmarshalExt;
    if |message| <= SERVICE_READ {
      ContentIsShort(message);
      assert ClientBytes([message]) == ClientPart(message) + ClientBytes([]);
    } else {
      var head, tail := message[..SERVICE_READ], message[SERVICE_READ..];
      ContentIsShort(head);
      PiecesAreShort(tail);
      assert ([head] + Pieces(tail))[1..] == Pieces(tail);
    }
  }

  /** What marshalling adds to a content is less than the gateway's read buffer. */
  predicate SmallOverhead(id: RequestId, chunks: seq<Chunk>) {
    forall i | 0 <= i < |chunks| ::
      chunks[i].content != [] && |DataMessage(id, chunks[i])| < |chunks[i].content| + SERVICE_READ
  }

  /** Of a message that is too long the client gets fewer bytes than its content has. */
  lemma LongMessageLosesBytes(id: RequestId, chunk: Chunk)
    requires SmallOverhead(id, [chunk]) && |DataMessage(id, chunk)| > SERVICE_READ
    ensures |ClientBytes(Pieces(DataMessage(id, chunk)))| < |chunk.content|
  {
    assert [chunk][0] == chunk;
    hide DataMessage, ClientPart;
    var message := DataMessage(id, chunk);
    var head, tail := message[..SERVICE_READ], message[SERVICE_READ..];
    CutIsSkipped(id, chunk, SERVICE_READ);
    PiecesAreShort(tail);
    assert ([head] + Pieces(tail))[1..] == Pieces(tail);
    assert ClientBytes(Pieces(message)) == ClientPart(head) + ClientBytes(Pieces(tail));
  }

  lemma ShortMessageArrives(id: RequestId, chunk: Chunk)
    requires |DataMessage(id, chunk)| <= SERVICE_READ
    ensures Pieces(DataMessage(id, chunk)) == [DataMessage(id, chunk)]
    ensures ClientBytes(Pieces(DataMessage(id, chunk))) == chunk.content
  {
    hide MarshalExt, UnmarshalExt;
    ExtRoundTrip(ExtData(SERVICE_NAME, id, chunk.msgId, DATA_MESSAGE, chunk.content));
    var message := DataMessage(id, chunk);
    assert ClientBytes([message]) == ClientPart(message) + ClientBytes([]);
  }

  /**
   * Messages that are each read on their own, in as many reads as it takes: the client gets their
   * contents if and only if every message fits the gateway's read buffer.
   */
  lemma {:induction false} PiecesCarryAllIff(id: RequestId, chunks: seq<Chunk>)
    requires SmallOverhead(id, chunks)
    ensures var got := ClientBytes(AllPieces(DataMessages(id, chunks)));
            && |got| <= |Flatten(Contents(chunks))|
            && (got == Flatten(Contents(chunks))
                <==> forall i | 0 <= i < |chunks| :: |DataMessage(id, chunks[i])| <= 40960)
  {
    hide DataMessage, Pieces, ClientBytes, Flatten, Contents;
    if chunks == [] {
      NothingWritten([]);
      NoBytes();
      assert Contents([]) == [];
    } else {
      var first, others := chunks[0], chunks[1..];
      PiecesCarryAllIff(id, others);
      var message, more := DataMessage(id, first), AllPieces(DataMessages(id, others));
      assert DataMessages(id, chunks)[1..] == DataMessages(id, others);
      ClientBytesAppend(Pieces(message), more);
      var got, all := ClientBytes(more), Flatten(Contents(others));
      assert Flatten(Contents(chunks)) == first.content + all by { FirstOfContents(chunks); }
      assert chunks == [first] + others;
      if |message| <= SERVICE_READ {
        ShortMessageArrives(id, first);
        SameStarts(first.content, [], got, all);
        assert first.content + [] + all == first.content + all;
      } else {
        LongMessageLosesBytes(id, first);
      }
    }
  }

  lemma FirstOfContents(chunks: seq<Chunk>)
    requires chunks != []
    ensures Flatten(Contents(chunks)) == chunks[0].content + Flatten(Contents(chunks[1..]))
  {
    assert Contents(chunks)[1..] == Contents(chunks[1..]);
  }

  /** A service that fills the agent's buffer with one read loses bytes. */
  lemma FullReadLosesBytes(id: RequestId, chunk: Chunk)
    requires SmallOverhead(id, [chunk]) && |chunk.content| == AGENT_READ
    ensures |ClientBytes(Pieces(DataMessage(id, chunk)))| < |chunk.content|
  {
    FullReadMakesLongMessage(id, chunk);
    hide DataMessage, Pieces, ClientBytes;
    LongMessageLosesBytes(id, chunk);
  }

  // ---------------------------------------------------------------- from the service to the client

  /**
   * In the tunnel: let the gateway have read every message on its own, all reads have been returned, and
   * the frames fit the chunks in which they arrive at the client-side agent. Then the client has exactly
   * the contents of the messages if and only if every message fits the gateway's read buffer.
   */
  lemma PiecesReachClientIff(steps: seq<Step>, c: nat, id: RequestId, chunks: seq<Chunk>, arrived: seq<bytes>)
    requires Tunnel.Exec(steps).Some? && c in Tunnel.Exec(steps).value.links
    requires Tunnel.Exec(steps).value.links[c].service.Some?
    requires SmallOverhead(id, chunks)
    requires Tunnel.Exec(steps).value.links[c].service.value.taken == AllPieces(DataMessages(id, chunks))
    requires Tunnel.Exec(steps).value.links[c].client.returned == AllPieces(DataMessages(id, chunks))
    requires NonEmpty(arrived) && Flatten(arrived) == Tunnel.Exec(steps).value.links[c].client.out
    requires FramesFit(arrived, AllPieces(DataMessages(id, chunks)))
    ensures ClientBytes(FreshRun(arrived).frames) == Flatten(Contents(chunks))
       <==> forall i | 0 <= i < |chunks| :: |DataMessage(id, chunks[i])| <= SERVICE_READ
  {
    hide Tunnel.Exec, LinkInv, EncodeAll, FreshRun, FramesFit, ClientBytes, DataMessage, Flatten, NonEmpty,
      AllPieces, DataMessages, SmallOverhead, Contents;
    Tunnel.ReachableInv(steps);
    var l := Tunnel.Exec(steps).value.links[c];
    assert LinkInv(l) by { Tunnel.LinkOfInv(Tunnel.Exec(steps).value, c); }
    ReturnedPrefix(l);
    FreshReaderCorrectIffFramesFit(AllPieces(DataMessages(id, chunks)), arrived);
    PiecesCarryAllIff(id, chunks);
  }

  /**
   * The whole way back: let the service's reply arrive in a chunk of its own, so that the agent relays
   * what follows it; let every gateway read return one message, and the frames fit the chunks in which
   * they arrive at the client-side agent. Then the client has a prefix of what the service sent behind
   * its reply, and all of it once every message has come.
   */
  lemma {:induction false} ServiceBytesReachClient(
    steps: seq<Step>, c: nat, id: RequestId, service: seq<bytes>, reserved: byte, a: Socks5.Address, port: nat,
    data: bytes, uuid: nat -> bytes, arrived: seq<bytes>)
    requires NonEmpty(service) && Socks5.ValidAddress(a) && ShortName(a)
    requires Flatten(service) == AUTH + (ReplyBytes(reserved, a, port) + data)
    requires DropBytes(service, 2) != [] && DropBytes(service, 2)[0] == ReplyBytes(reserved, a, port)
    requires Tunnel.Exec(steps).Some? && c in Tunnel.Exec(steps).value.links
    requires Tunnel.Exec(steps).value.links[c].service.Some?
    requires Tunnel.Exec(steps).value.links[c].service.value.taken
             <= DataMessages(id, Relayed(AgentReads(ConnectReads(service).chunks), uuid, 0))
    requires NonEmpty(arrived) && Flatten(arrived) == Tunnel.Exec(steps).value.links[c].client.out
    requires FramesFit(arrived, Tunnel.Exec(steps).value.links[c].client.returned)
    ensures var written := ClientBytes(FreshRun(arrived).frames);
            && written <= data
            && (|Tunnel.Exec(steps).value.links[c].client.returned| == |AgentReads(ConnectReads(service).chunks)|
                ==> written == data)
  {
    hide Tunnel.Exec, LinkInv, EncodeAll, FreshRun, FramesFit, ClientBytes, DataMessage, Flatten, NonEmpty, Lossless,
      ReplyBytes, DropBytes, ConnectReads, AgentReads, Relayed, ShortName, Contents;
    RelaysDataIff(service, reserved, a, port, data);
    var contents := AgentReads(ConnectReads(service).chunks);
    var sent := Relayed(contents, uuid, 0);
    ResponseReachesClient(steps, c, id, sent, arrived);
    var l := Tunnel.Exec(steps).value.links[c];
    var n := |l.client.returned|;
    assert l.client.returned == DataMessages(id, sent[..n]) by {
      ReturnedMessages(steps, c, id, sent);
    }
    assert n == |sent| ==> sent[..n] == sent;
  }

  lemma ReturnedMessages(steps: seq<Step>, c: nat, id: RequestId, chunks: seq<Chunk>)
    requires Tunnel.Exec(steps).Some? && c in Tunnel.Exec(steps).value.links
    requires Tunnel.Exec(steps).value.links[c].service.Some?
    requires Tunnel.Exec(steps).value.links[c].service.value.taken <= DataMessages(id, chunks)
    ensures var returned := Tunnel.Exec(steps).value.links[c].client.returned;
            |returned| <= |chunks| && returned == DataMessages(id, chunks[..|returned|])
  {
    hide Tunnel.Exec, LinkInv, DataMessage;
    Tunnel.ReachableInv(steps);
    var l := Tunnel.Exec(steps).value.links[c];
    assert LinkInv(l) by { Tunnel.LinkOfInv(Tunnel.Exec(steps).value, c); }
    ReturnedPrefix(l);
  }
}

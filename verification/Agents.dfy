/**
 * The SOCKS5 agents at the two ends of the tunnel. The client-side agent wraps what it reads from its
 * client into messages; the service-side agent unwraps them and writes to the SOCKS5 service; both
 * tag messages with the client agent's own request id, inside the gateway's. The main results follow
 * a client's bytes through both agents and both gateways, and back.
 */
module Agents {
  import opened Bytes
  import opened Frames
  import opened Bufio
  import opened FrameReaders
  import opened Messages
  import opened Links
  import Tunnel
  import Gateway
  import Wire
  import Socks5
  import AgentSetup

  /** "socks5" */
  const SERVICE_NAME: bytes := [115, 111, 99, 107, 115, 53]
  const CONNECT_MESSAGE: nat := 1
  const DATA_MESSAGE: nat := 2

  /** Size of the buffers with which both agents read. */
  const AGENT_READ: nat := 40960

  // ---------------------------------------------------------------- the connect request in a message

  function EncodeRequest(req: Socks5.ConnectRequest): bytes {
    Wire.Varint(req.version) + Wire.Varint(req.command)
    + Wire.Varint(|req.destAddr|) + req.destAddr + Wire.Varint(2 * req.destPort)
  }

  function DecodeRequest(s: bytes): Option<Socks5.ConnectRequest> {
    match Wire.DecodeVarint(s)
    case None => None
    case Some(version) =>
      match Wire.DecodeVarint(version.1)
      case None => None
      case Some(command) =>
        match Wire.DecodeVarint(command.1)
        case None => None
        case Some(length) =>
          if length.0 > |length.1| || version.0 > 255 || command.0 > 255 then None
          else
            match Wire.DecodeVarint(length.1[length.0..])
            case None => None
            case Some(port) =>
              if port.0 % 2 != 0 then None
              else Some(Socks5.ConnectRequest(version.0, command.0, length.1[..length.0], port.0 / 2))
  }

  lemma RequestRoundTrip(req: Socks5.ConnectRequest)
    ensures DecodeRequest(EncodeRequest(req)) == Some(req)
  {
    hide Wire.Varint, Wire.DecodeVarint;
    var s4 := Wire.Varint(2 * req.destPort);
    var s3 := Wire.Varint(|req.destAddr|) + (req.destAddr + s4);
    var s2 := Wire.Varint(req.command) + s3;
    assert EncodeRequest(req) == Wire.Varint(req.version) + s2;
    Wire.VarintRoundTrip(req.version, s2);
    Wire.VarintRoundTrip(req.command, s3);
    Wire.VarintRoundTrip(|req.destAddr|, req.destAddr + s4);
    assert s4 + [] == s4;
    Wire.VarintRoundTrip(2 * req.destPort, []);
    assert (req.destAddr + s4)[..|req.destAddr|] == req.destAddr;
    assert (req.destAddr + s4)[|req.destAddr|..] == s4;
  }

  // ---------------------------------------------------------------- what the client-side agent sends

  /** One read from the client, with the message id made for it. */
  datatype Chunk = Chunk(msgId: bytes, content: bytes)

  function ConnectMessage(id: RequestId, msgId: bytes, req: Socks5.ConnectRequest): bytes {
    MarshalExt(ExtData(SERVICE_NAME, id, msgId, CONNECT_MESSAGE, EncodeRequest(req)))
  }

  function DataMessage(id: RequestId, chunk: Chunk): bytes {
    MarshalExt(ExtData(SERVICE_NAME, id, chunk.msgId, DATA_MESSAGE, chunk.content))
  }

  function DataMessages(id: RequestId, chunks: seq<Chunk>): (r: seq<bytes>)
    ensures |r| == |chunks|
    ensures forall i | 0 <= i < |chunks| :: r[i] == DataMessage(id, chunks[i])
  {
    if chunks == [] then [] else [DataMessage(id, chunks[0])] + DataMessages(id, chunks[1..])
  }

  function Contents(chunks: seq<Chunk>): (r: seq<bytes>)
    ensures |r| == |chunks|
  {
    if chunks == [] then [] else [chunks[0].content] + Contents(chunks[1..])
  }

  /** A SOCKS5 session as the client-side agent sees it. */
  datatype Session = Session(id: RequestId, serviceId: bytes, msgId: bytes,
                             req: Socks5.ConnectRequest, chunks: seq<Chunk>)

  function SessionInit(s: Session): bytes {
    MarshalSocketInit(SocketInit(s.serviceId, s.id, [], []))
  }

  function SessionFrames(s: Session): seq<bytes> {
    [ConnectMessage(s.id, s.msgId, s.req)] + DataMessages(s.id, s.chunks)
  }

  /** Everything the agent writes to its gateway for the session. */
  function SessionBytes(s: Session): bytes {
    Frame(SessionInit(s)) + EncodeAll(SessionFrames(s))
  }

  predicate SessionFits(s: Session) {
    |SessionInit(s)| < MAX_SLICE && AllPayloads(SessionFrames(s))
  }

  /** The messages of a session's set-up, as bytes. */
  function ItemMessage(s: Session, item: AgentSetup.Item): bytes {
    match item
    case Init(_) => SessionInit(s)
    case Connect(_) => ConnectMessage(s.id, s.msgId, s.req)
    case Data(_, msgId, content) => DataMessage(s.id, Chunk(msgId, content))
  }

  function ItemMessages(s: Session, items: seq<AgentSetup.Item>): seq<bytes> {
    if items == [] then [] else [ItemMessage(s, items[0])] + ItemMessages(s, items[1..])
  }

  function DataChunks(items: seq<AgentSetup.Item>): seq<Chunk>
    requires forall k | 0 <= k < |items| :: items[k].Data?
  {
    if items == [] then [] else [Chunk(items[0].msgId, items[0].content)] + DataChunks(items[1..])
  }

  lemma {:induction false} DataItemMessages(s: Session, items: seq<AgentSetup.Item>)
    requires forall k | 0 <= k < |items| :: items[k].Data?
    ensures ItemMessages(s, items) == DataMessages(s.id, DataChunks(items))
  {
    hide DataMessage;
    if items != [] {
      DataItemMessages(s, items[1..]);
    }
  }

  /** What an undisturbed set-up puts on a session's own connection is the session's byte stream. */
  lemma UndisturbedSetupSendsSession(actions: seq<AgentSetup.Action>, i: nat, s: Session)
    requires AgentSetup.Exec(actions).Some? && AgentSetup.Undisturbed(actions)
    requires i in AgentSetup.Exec(actions).value.phases
    requires AgentSetup.Exec(actions).value.phases[i] != AgentSetup.Dialled
    ensures i in AgentSetup.Exec(actions).value.sent
    ensures var items := AgentSetup.Exec(actions).value.sent[i];
            && |items| >= 2 && (forall k | 2 <= k < |items| :: items[k].Data?)
            && EncodeAll(ItemMessages(s, items)) == SessionBytes(s.(chunks := DataChunks(items[2..])))
  {
    hide AgentSetup.Exec, AgentSetup.Undisturbed, ConnectMessage, DataMessage, SessionInit, Frame;
    AgentSetup.UndisturbedSessions(actions);
    var items := AgentSetup.Exec(actions).value.sent[i];
    assert AgentSetup.SessionShape(items, AgentSetup.Exec(actions).value.phases[i], i);
    DataItemMessages(s, items[2..]);
    assert items[1..][1..] == items[2..];
    assert ItemMessages(s, items)
        == [SessionInit(s), ConnectMessage(s.id, s.msgId, s.req)] + ItemMessages(s, items[2..]);
    var s' := s.(chunks := DataChunks(items[2..]));
    SameInit(s, s');
    assert ItemMessages(s, items) == [SessionInit(s')] + SessionFrames(s');
    assert ([SessionInit(s')] + SessionFrames(s'))[1..] == SessionFrames(s');
  }

  lemma SameInit(s: Session, s': Session)
    requires s' == s.(chunks := s'.chunks)
    ensures SessionInit(s') == SessionInit(s)
  {
  }

  /** Reads of up to 40960 bytes, each through a new reader, until end of file. */
  function AgentReads(chunks: seq<bytes>): seq<bytes>
    requires NonEmpty(chunks)
    decreases |Flatten(chunks)|
  {
    if chunks == [] then []
    else
      var (data, rest) := ReadChunk(chunks, AGENT_READ);
      assert |Flatten(rest)| < |Flatten(chunks)| by { ReadProgress(chunks); }
      [data] + AgentReads(rest)
  }

  lemma ReadProgress(chunks: seq<bytes>)
    requires NonEmpty(chunks) && chunks != []
    ensures var (data, rest) := ReadChunk(chunks, AGENT_READ);
            0 < |data| <= AGENT_READ && NonEmpty(rest) && Flatten(chunks) == data + Flatten(rest)
            && |Flatten(rest)| < |Flatten(chunks)|
  {
    hide Flatten;
    var (data, rest) := ReadChunk(chunks, AGENT_READ);
    assert |data + Flatten(rest)| == |data| + |Flatten(rest)|;
  }

  /** Every byte is read, and no read is empty. */
  lemma {:induction false} AgentReadsAll(chunks: seq<bytes>)
    requires NonEmpty(chunks)
    ensures Flatten(AgentReads(chunks)) == Flatten(chunks)
    ensures forall i | 0 <= i < |AgentReads(chunks)| :: 0 < |AgentReads(chunks)[i]| <= AGENT_READ
    decreases |Flatten(chunks)|
  {
    if chunks != [] {
      hide ReadChunk, NonEmpty;
      ReadProgress(chunks);
      var (data, rest) := ReadChunk(chunks, AGENT_READ);
      AgentReadsAll(rest);
      assert ([data] + AgentReads(rest))[1..] == AgentReads(rest);
    }
  }

  /** Every chunk of at most 40960 bytes is one read. */
  lemma {:induction false} SmallChunksAreReads(chunks: seq<bytes>)
    requires NonEmpty(chunks) && forall i | 0 <= i < |chunks| :: |chunks[i]| <= 40960
    ensures AgentReads(chunks) == chunks
  {
    if chunks != [] {
      SmallChunksAreReads(chunks[1..]);
      assert [chunks[0]] + chunks[1..] == chunks;
    }
  }

  /** A longer chunk is cut after 40960 bytes. */
  lemma LongChunkIsCut(chunks: seq<bytes>)
    requires NonEmpty(chunks) && chunks != [] && |chunks[0]| > 40960
    ensures NonEmpty([chunks[0][40960..]] + chunks[1..])
    ensures AgentReads(chunks) == [chunks[0][..40960]] + AgentReads([chunks[0][40960..]] + chunks[1..])
  {
  }

  /** The client loop: reads of up to 40960 bytes, each through a new reader, until end of file. */
  method ReadClient(conn: Conn) returns (contents: seq<bytes>)
    requires NonEmpty(conn.chunks)
    modifies conn
    ensures contents == AgentReads(old(conn.chunks))
    ensures Flatten(contents) == Flatten(old(conn.chunks))
    ensures forall i | 0 <= i < |contents| :: 0 < |contents[i]| <= AGENT_READ
  {
    hide ReadSome, ReadChunk, Flatten, NonEmpty, AgentReads;
    contents := [];
    AgentReadsAll(conn.chunks);
    ghost var all := AgentReads(conn.chunks);
    assert contents + all == all;
    var buf := new byte[AGENT_READ];
    while true
      invariant NonEmpty(conn.chunks)
      invariant all == contents + AgentReads(conn.chunks)
      decreases |Flatten(conn.chunks)|
    {
      ghost var before := conn.chunks;
      var reader := new Reader(conn);
      EmptyBufferSome(before, AGENT_READ);
      var readCnt := reader.Read(buf, 0, AGENT_READ);
      if readCnt == 0 {
        NothingCame(before);
        assert contents + [] == contents;
        return;
      }
      OneRead(before);
      assert contents + ([buf[0..readCnt]] + AgentReads(conn.chunks))
          == contents + [buf[0..readCnt]] + AgentReads(conn.chunks);
      contents := contents + [buf[0..readCnt]];
    }
  }

  /** An empty read is the end of file. */
  lemma NothingCame(chunks: seq<bytes>)
    requires NonEmpty(chunks)
    ensures ReadChunk(chunks, AGENT_READ).0 == [] <==> chunks == []
    ensures chunks == [] ==> AgentReads(chunks) == []
  {
  }

  lemma OneRead(chunks: seq<bytes>)
    requires NonEmpty(chunks) && ReadChunk(chunks, AGENT_READ).0 != []
    ensures var (data, rest) := ReadChunk(chunks, AGENT_READ);
            && NonEmpty(rest) && |Flatten(rest)| < |Flatten(chunks)|
            && AgentReads(chunks) == [data] + AgentReads(rest)
  {
    NothingCame(chunks);
    ReadProgress(chunks);
  }

  lemma NoBytes()
    ensures Flatten([]) == [] && forall b: bytes :: [] + b == b
  {
  }

  // ---------------------------------------------------------------- what the service-side agent does

  /** The bytes written so far to the connection opened for each inner request id. */
  type Services = map<RequestId, bytes>

  /** One message; None where the agent panics. */
  function Serve(services: Services, message: bytes): Option<Services> {
    match UnmarshalExt(message)
    case None => None
    case Some(m) =>
      if m.serviceName != SERVICE_NAME then None
      else if m.contentType == CONNECT_MESSAGE then
        match DecodeRequest(m.content)
        case None => None
        case Some(req) => Some(services[m.requestId := Socks5.ServiceHandshake(req)])
      else if m.contentType == DATA_MESSAGE then
        if m.requestId !in services then None
        else Some(services[m.requestId := services[m.requestId] + m.content])
      else Some(services)
  }

  function ServeAll(services: Services, messages: seq<bytes>): Option<Services>
    decreases messages
  {
    if messages == [] then Some(services)
    else
      match Serve(services, messages[0])
      case None => None
      case Some(services') => ServeAll(services', messages[1..])
  }

  /** The connections after all messages up to the first that panics, and whether there is none. */
  function ServeUpTo(services: Services, messages: seq<bytes>): (r: (Services, bool))
    ensures r.1 <==> ServeAll(services, messages).Some?
    ensures r.1 ==> ServeAll(services, messages) == Some(r.0)
    decreases messages
  {
    if messages == [] then (services, true)
    else
      match Serve(services, messages[0])
      case None => (services, false)
      case Some(services') => ServeUpTo(services', messages[1..])
  }

  /** Up to the first message that panics, and no further. */
  lemma {:induction false} ServedUpTo(services: Services, messages: seq<bytes>) returns (n: nat)
    ensures n <= |messages| && ServeAll(services, messages[..n]) == Some(ServeUpTo(services, messages).0)
    ensures n == |messages| <==> ServeUpTo(services, messages).1
    ensures n < |messages| ==> Serve(ServeUpTo(services, messages).0, messages[n]) == None
    decreases |messages|
  {
    hide Serve;
    n := 0;
    if messages != [] {
      var next := Serve(services, messages[0]);
      if next.Some? {
        n := ServedUpTo(next.value, messages[1..]);
        n := n + 1;
        assert messages[..n][1..] == messages[1..][..n - 1];
      }
    }
  }

  /** What a message does: 1 opens a connection anew, 2 writes to one, other types do nothing. */
  lemma MessageMeans(services: Services, message: bytes)
    ensures var decoded := UnmarshalExt(message);
            && (Serve(services, message).None? <==>
                  || decoded.None? || decoded.value.serviceName != [115, 111, 99, 107, 115, 53]
                  || (decoded.value.contentType == 1 && DecodeRequest(decoded.value.content).None?)
                  || (decoded.value.contentType == 2 && decoded.value.requestId !in services))
            && (Serve(services, message).Some? ==>
                  var m, services' := decoded.value, Serve(services, message).value;
                  && (forall id | id in services && id != m.requestId ::
                        id in services' && services'[id] == services[id])
                  && services'.Keys == services.Keys + (if m.contentType == 1 then {m.requestId} else {})
                  && (m.contentType == 1 ==>
                        services'[m.requestId] == Socks5.ServiceHandshake(DecodeRequest(m.content).value))
                  && (m.contentType == 2 ==> services'[m.requestId] == services[m.requestId] + m.content)
                  && (m.contentType !in {1, 2} ==> services' == services))
  {
    hide UnmarshalExt, DecodeRequest, Socks5.ServiceHandshake;
  }

  /** serveConnection in server mode: dispatches frames until it panics, on a message or the stream's end. */
  method ServeConnection(reader: Reader) returns (services: Services, panic: Gateway.Panic)
    requires reader.Valid()
    modifies reader, reader.conn, reader.buf
    ensures var read := ParseAll(Pending(old(reader.State())));
            && services == ServeUpTo(map[], read.frames).0
            && panic == if ServeUpTo(map[], read.frames).1 then Gateway.StreamEnded(read.error) else Gateway.BadMessage
  {
    hide FrameStep, ParseFrame, ParseAll, Flatten, NonEmpty, Serve;
    services := map[];
    ghost var all := ParseAll(Pending(reader.State()));
    while true
      invariant reader.Valid()
      invariant all.error == ParseAll(Pending(reader.State())).error
      invariant ServeUpTo(map[], all.frames) == ServeUpTo(services, ParseAll(Pending(reader.State())).frames)
      decreases |Pending(reader.State())|
    {
      ghost var s := reader.State();
      FrameStepReadsPending(s);
      ParseAllStep(Pending(s));
      var res := ReadOneFrame(reader);
      if res.Fail? {
        return services, Gateway.StreamEnded(res.error);
      }
      assert ParseAll(Pending(s)).frames[1..] == ParseAll(Pending(reader.State())).frames;
      var next := Serve(services, res.data);
      if next.None? {
        return services, Gateway.BadMessage;
      }
      services := next.value;
    }
  }

  lemma ServeConnect(services: Services, id: RequestId, msgId: bytes, req: Socks5.ConnectRequest)
    ensures Serve(services, ConnectMessage(id, msgId, req)) == Some(services[id := Socks5.ServiceHandshake(req)])
  {
    hide MarshalExt, UnmarshalExt, EncodeRequest, DecodeRequest, Socks5.ServiceHandshake;
    ExtRoundTrip(ExtData(SERVICE_NAME, id, msgId, CONNECT_MESSAGE, EncodeRequest(req)));
    RequestRoundTrip(req);
  }

  lemma ServeData(services: Services, id: RequestId, chunk: Chunk)
    requires id in services
    ensures Serve(services, DataMessage(id, chunk)) == Some(services[id := services[id] + chunk.content])
  {
    hide MarshalExt, UnmarshalExt;
    ExtRoundTrip(ExtData(SERVICE_NAME, id, chunk.msgId, DATA_MESSAGE, chunk.content));
  }

  lemma ServeAllStep(services: Services, message: bytes, rest: seq<bytes>)
    ensures ServeAll(services, [message] + rest)
         == match Serve(services, message) case None => None case Some(next) => ServeAll(next, rest)
    ensures ServeAll(services, []) == Some(services)
  {
    assert ([message] + rest)[1..] == rest;
  }

  lemma {:induction false} ServeChunks(services: Services, id: RequestId, chunks: seq<Chunk>)
    requires id in services
    ensures ServeAll(services, DataMessages(id, chunks))
         == Some(services[id := services[id] + Flatten(Contents(chunks))])
  {
    hide Serve, ServeAll, DataMessage;
    var sent := Flatten(Contents(chunks));
    if chunks == [] {
      ServeAllStep(services, [], []);
      assert services[id := services[id] + sent] == services by { assert services[id] + sent == services[id]; }
    } else {
      var tail := Flatten(Contents(chunks[1..]));
      ServeData(services, id, chunks[0]);
      var next := services[id := services[id] + chunks[0].content];
      ServeAllStep(services, DataMessage(id, chunks[0]), DataMessages(id, chunks[1..]));
      ServeChunks(next, id, chunks[1..]);
      assert sent == chunks[0].content + tail by { assert Contents(chunks)[1..] == Contents(chunks[1..]); }
      assert services[id] + chunks[0].content + tail == services[id] + sent;
      assert next[id := next[id] + tail] == services[id := services[id] + sent];
    }
  }

  /** From the first `m` messages of a session the service gets the handshake and `m - 1` reads. */
  function ServiceBytes(s: Session, m: nat): bytes
    requires 0 < m <= 1 + |s.chunks|
  {
    Socks5.ServiceHandshake(s.req) + Flatten(Contents(s.chunks[..m - 1]))
  }

  lemma ServeSession(s: Session, m: nat)
    requires m <= |SessionFrames(s)|
    ensures ServeAll(map[], SessionFrames(s)[..m])
         == Some(if m == 0 then map[] else map[s.id := ServiceBytes(s, m)])
  {
    hide Serve, ConnectMessage, DataMessage, Socks5.ServiceHandshake, Flatten;
    if m > 0 {
      var frames := SessionFrames(s)[..m];
      assert frames[0] == ConnectMessage(s.id, s.msgId, s.req);
      assert frames[1..] == DataMessages(s.id, s.chunks[..m - 1]);
      ServeConnect(map[], s.id, s.msgId, s.req);
      var started: Services := map[][s.id := Socks5.ServiceHandshake(s.req)];
      ServeChunks(started, s.id, s.chunks[..m - 1]);
      assert started[s.id := ServiceBytes(s, m)] == map[s.id := ServiceBytes(s, m)];
    }
  }

  // ---------------------------------------------------------------- end to end, towards the service

  /**
   * In a reachable state of the tunnel let the gateway have received from a client agent any part of a
   * session. Then whatever part of the bytes on the service socket the service-side agent has read, it
   * has not panicked, it has connections for the session's own id only, and the bytes it wrote there
   * are its handshake followed by some of the session's reads, in order and without a gap.
   */
  lemma SessionReachesService(steps: seq<Step>, c: nat, s: Session, read: bytes) returns (m: nat)
    requires Tunnel.Exec(steps).Some? && c in Tunnel.Exec(steps).value.links
    requires Tunnel.Exec(steps).value.links[c].service.Some?
    requires SessionFits(s)
    requires Tunnel.Exec(steps).value.links[c].client.sent <= SessionBytes(s)
    requires read <= Tunnel.Exec(steps).value.links[c].service.value.out
    ensures m <= |SessionFrames(s)|
    ensures ServeAll(map[], ParseAll(read).frames)
         == Some(if m == 0 then map[] else map[s.id := ServiceBytes(s, m)])
  {
    hide Tunnel.Exec, LinkInv, SessionInit, SessionFrames, EncodeAll, ParseAll, Frame, ServeAll, ServiceBytes;
    Tunnel.ReachableInv(steps);
    var l := Tunnel.Exec(steps).value.links[c];
    assert LinkInv(l) by { Tunnel.LinkOfInv(Tunnel.Exec(steps).value, c); }
    m := FramesReadOf(l, s, read);
    ServeSession(s, m);
  }

  /**
   * The session of a client: its handshake is accepted, the handshake's reader is dropped, and then what
   * is left on the client's socket is read. The client's bytes behind the handshake are `buffered`, which
   * goes away with that reader, followed by the chunks.
   */
  predicate SessionOf(s: Session, client: Stream) {
    && WellFormed(client)
    && var h := Socks5.ReadHandshake(client);
    && h.Ok? && h.value == s.req
    && Flatten(Contents(s.chunks)) <= Flatten(h.stream.chunks)
  }

  /**
   * What a service reads of its connection: a whole SOCKS5 opening that offers no authentication, a
   * version 5 CONNECT to the client's destination, and behind it a prefix of what the client's socket
   * still held when its own handshake had been read.
   */
  predicate ServiceSees(written: bytes, client: Stream) {
    && [5, 1, 0] <= written
    && var asked := Socks5.ReadHandshake(client);
    && asked.Ok?
    && var seen := Socks5.ReadHandshake(Socks5.AtOnce(written));
    && seen.Ok?
    && seen.value == Socks5.ConnectRequest(5, 1, asked.value.destAddr, asked.value.destPort)
    && Pending(seen.stream) <= Flatten(asked.stream.chunks)
  }

  /**
   * The whole way: a SOCKS5 client's handshake and bytes, through the client agent, both gateways and
   * the service agent. The connection opened for the session's inner id holds the agent's own
   * handshake, which asks for the client's destination, and then a prefix of what the client sent
   * behind its handshake and behind what the handshake's reader had read ahead; no other connection is
   * opened on that socket. `Handshakes.NothingReadAheadIff` says when nothing was read ahead.
   */
  lemma SocksForwardPath(steps: seq<Step>, c: nat, client: Stream, s: Session, read: bytes)
    requires Tunnel.Exec(steps).Some? && c in Tunnel.Exec(steps).value.links
    requires Tunnel.Exec(steps).value.links[c].service.Some?
    requires SessionFits(s) && SessionOf(s, client)
    requires Tunnel.Exec(steps).value.links[c].client.sent <= SessionBytes(s)
    requires read <= Tunnel.Exec(steps).value.links[c].service.value.out
    ensures ServeAll(map[], ParseAll(read).frames).Some?
    ensures var services := ServeAll(map[], ParseAll(read).frames).value;
            services.Keys <= {s.id} && (s.id in services ==> ServiceSees(services[s.id], client))
  {
    hide Tunnel.Exec, SessionFits, SessionBytes, SessionFrames, EncodeAll, ParseAll, ServeAll, Flatten,
      Socks5.ServiceHandshake, Socks5.ReadHandshake;
    var m := SessionReachesService(steps, c, s, read);
    Socks5.AcceptedFits(client);
    if m > 0 {
      assert m <= 1 + |s.chunks| by { SessionLength(s); }
      ContentsPrefix(s.chunks, m - 1);
      Socks5.ServiceHandshakeUnderstood(s.req, Flatten(Contents(s.chunks[..m - 1])));
      Socks5.AtOncePending(Flatten(Contents(s.chunks[..m - 1])));
    }
  }

  /** The reads that a session's messages carry. */
  function SentChunks(items: seq<AgentSetup.Item>): seq<Chunk> {
    if items == [] then []
    else (if items[0].Data? then [Chunk(items[0].msgId, items[0].content)] else []) + SentChunks(items[1..])
  }

  lemma {:induction false} OnlyData(items: seq<AgentSetup.Item>)
    requires forall k | 0 <= k < |items| :: items[k].Data?
    ensures SentChunks(items) == DataChunks(items)
  {
    if items != [] {
      OnlyData(items[1..]);
    }
  }

  lemma SessionChunks(items: seq<AgentSetup.Item>, phase: AgentSetup.Phase, i: nat)
    requires AgentSetup.SessionShape(items, phase, i)
    ensures phase == AgentSetup.Dialled ==> items == [AgentSetup.Init(i)] && SentChunks(items) == []
    ensures phase != AgentSetup.Dialled ==> |items| >= 2 && SentChunks(items) == DataChunks(items[2..])
  {
    if phase == AgentSetup.Dialled {
      assert items == [AgentSetup.Init(i)];
    } else {
      assert items[1..][1..] == items[2..];
      OnlyData(items[2..]);
    }
  }

  lemma OnlyInit(s: Session, i: nat)
    ensures EncodeAll(ItemMessages(s, [AgentSetup.Init(i)])) <= SessionBytes(s)
  {
    hide Frame, SessionInit, SessionFrames;
    assert EncodeAll([SessionInit(s)]) == Frame(SessionInit(s)) + EncodeAll([]);
    assert ItemMessages(s, [AgentSetup.Init(i)]) == [SessionInit(s)];
  }

  /**
   * The same for any number of sessions of one client agent at once: let their set-ups run in any
   * undisturbed order, and let the gateway have received any part of what they put on the connection
   * of session `i`. Then the service behind that connection gets a prefix of session `i`'s client bytes,
   * as in `SocksForwardPath`.
   */
  lemma {:induction false} ConcurrentSessionsReachServices(
    actions: seq<AgentSetup.Action>, i: nat, steps: seq<Step>, c: nat, client: Stream, s: Session, read: bytes)
    requires AgentSetup.Exec(actions).Some? && AgentSetup.Undisturbed(actions)
    requires i in AgentSetup.Exec(actions).value.phases && i in AgentSetup.Exec(actions).value.sent
    requires s.chunks == SentChunks(AgentSetup.Exec(actions).value.sent[i])
    requires Tunnel.Exec(steps).Some? && c in Tunnel.Exec(steps).value.links
    requires Tunnel.Exec(steps).value.links[c].service.Some?
    requires SessionFits(s) && SessionOf(s, client)
    requires Tunnel.Exec(steps).value.links[c].client.sent
             <= EncodeAll(ItemMessages(s, AgentSetup.Exec(actions).value.sent[i]))
    requires read <= Tunnel.Exec(steps).value.links[c].service.value.out
    ensures ServeAll(map[], ParseAll(read).frames).Some?
    ensures var services := ServeAll(map[], ParseAll(read).frames).value;
            services.Keys <= {s.id} && (s.id in services ==> ServiceSees(services[s.id], client))
  {
    hide AgentSetup.Exec, AgentSetup.Undisturbed, AgentSetup.SessionShape, Tunnel.Exec, SessionFits, SessionOf,
      ServiceSees, SessionBytes, ItemMessages, SentChunks, DataChunks, EncodeAll, ParseAll, ServeAll, Flatten,
      Socks5.ServiceHandshake, Socks5.ReadHandshake;
    var st := AgentSetup.Exec(actions).value;
    AgentSetup.UndisturbedSessions(actions);
    SessionChunks(st.sent[i], st.phases[i], i);
    if st.phases[i] == AgentSetup.Dialled {
      OnlyInit(s, i);
    } else {
      UndisturbedSetupSendsSession(actions, i, s);
    }
    SocksForwardPath(steps, c, client, s, read);
  }

  /** The init request of a session asks for the session's service under the session's id. */
  lemma SessionInitAsks(s: Session)
    ensures UnmarshalSocketInit(SessionInit(s)) == Some(SocketInit(s.serviceId, s.id, [], []))
  {
    SocketInitRoundTrip(SocketInit(s.serviceId, s.id, [], []));
  }

  /** So the gateway asks for that service, for a user without a name. */
  lemma SessionIsAnnounced(l: Link, uuid: bytes, peer: bytes, s: Session, rest: bytes)
    requires LinkInv(l) && CanAnnounce(l, uuid, peer) && |SessionInit(s)| < MAX_SLICE
    requires Flatten(l.client.chunks) == Frame(SessionInit(s)) + rest
    ensures var l' := Announce(l, uuid, peer);
            var id := [46] + s.serviceId + [46] + uuid;
            && HasId(l') && Id(l') == id && ParseFrame(l'.init).result.Ok?
            && UnmarshalSocketInit(ParseFrame(l'.init).result.data) == Some(SocketInit(s.serviceId, id, peer, []))
  {
    hide LinkInv, CanAnnounce, Announce, ParseFrame, MarshalSocketInit, UnmarshalSocketInit, Flatten, Frame;
    AnnouncementAsks(l, uuid, peer, SocketInit(s.serviceId, s.id, [], []), rest);
    assert [] + [46] + s.serviceId + [46] + uuid == [46] + s.serviceId + [46] + uuid;
  }

  lemma SessionLength(s: Session)
    ensures |SessionFrames(s)| == 1 + |s.chunks|
  {
  }

  lemma FramesReadOf(l: Link, s: Session, read: bytes) returns (m: nat)
    requires LinkInv(l) && l.service.Some? && SessionFits(s)
    requires l.client.sent <= SessionBytes(s) && read <= l.service.value.out
    ensures m <= |SessionFrames(s)| && ParseAll(read).frames == SessionFrames(s)[..m]
  {
    hide MarshalServiceData, MarshalSocketService, MarshalSocketInit, Flatten, EncodeAll, ParseAll, Frame,
      InFlight, SessionFrames, WholeFrames;
    var consumed, delivered := l.client.consumed, l.service.value.delivered;
    var frames := SessionFrames(s);
    SameFirstFrame(l.client.initRequest, SessionInit(s),
                   EncodeAll(consumed) + Flatten(l.client.chunks), EncodeAll(frames), l.client.sent);
    var rest := PrefixRest(EncodeAll(consumed), EncodeAll(frames));
    EncodeAllPrefix(consumed, frames, rest);
    DeliveredPrefix(l);
    assert forall i | 0 <= i < |delivered| :: delivered[i] == consumed[i];
    assert read == EncodeAll(delivered)[..|read|];
    TruncatedStream(delivered, |read|);
    m := WholeFrames(delivered, |read|);
    assert delivered[..m] == frames[..m];
  }

  lemma DeliveredPrefix(l: Link)
    requires StreamInv(l) && ServiceInv(l) && l.service.Some?
    ensures l.service.value.delivered <= l.client.consumed
  {
    hide MarshalServiceData, MarshalSocketService, EncodeAll, Frame, Flatten;
  }

  lemma PrefixRest(a: bytes, b: bytes) returns (rest: bytes)
    requires a <= b
    ensures a + rest == b
  {
    rest := b[|a|..];
  }

  /** Two streams that agree begin with the same frame. */
  lemma SameFirstFrame(p: Payload, q: Payload, s: bytes, t: bytes, whole: bytes)
    requires whole == Frame(p) + s && whole <= Frame(q) + t
    ensures p == q && s <= t
  {
    hide ParseFrame, Frame;
    var rest := PrefixRest(whole, Frame(q) + t);
    ParseFrameOfFrame(p, s + rest);
    ParseFrameOfFrame(q, t);
    assert Frame(p) + (s + rest) == Frame(q) + t;
  }

  // ---------------------------------------------------------------- the way back

  /** What the client-side agent writes for one frame: its content, or nothing when it does not decode. */
  function ClientPart(frame: bytes): bytes {
    match UnmarshalExt(frame)
    case None => []
    case Some(m) => m.content
  }

  function ClientBytes(frames: seq<bytes>): bytes {
    if frames == [] then [] else ClientPart(frames[0]) + ClientBytes(frames[1..])
  }

  /**
   * The client-side agent's return loop: a new reader for every frame, a plain EOF ends it, any other
   * error is retried, and a length that `make` refuses panics. `written` is what the client gets.
   */
  method ReturnToClient(conn: Conn) returns (written: bytes, panicked: bool)
    requires NonEmpty(conn.chunks)
    modifies conn
    ensures written == ClientBytes(FreshRun(old(conn.chunks)).frames)
    ensures panicked <==> FreshRun(old(conn.chunks)).error == LengthPanic
  {
    hide FrameStep, FreshRun, Flatten, NonEmpty, UnmarshalExt, ClientBytes;
    written := [];
    ghost var whole := FreshRun(conn.chunks);
    NothingWritten(ClientBytes(whole.frames));
    while true
      invariant NonEmpty(conn.chunks)
      invariant ClientBytes(whole.frames) == written + ClientBytes(FreshRun(conn.chunks).frames)
      invariant whole.error == LengthPanic <==> FreshRun(conn.chunks).error == LengthPanic
      decreases |Flatten(conn.chunks)|
    {
      FreshRound(conn.chunks);
      NothingWritten(written);
      var reader := new Reader(conn);
      var res := ReadOneFrame(reader);
      match res {
        case Ok(data) =>
          ClientBytesNext(written, data, FreshRun(conn.chunks).frames);
          var serviceData := UnmarshalExt(data);
          if serviceData.Some? {
            written := written + serviceData.value.content;
          }
        case Fail(EOF) =>
          return written, false;
        case Fail(LengthPanic) =>
          return written, true;
        case Fail(UnexpectedEOF) =>
          EmptySource();
          FlattenNonEmpty(conn.chunks);
      }
    }
  }

  lemma NothingWritten(b: bytes)
    ensures ClientBytes([]) == [] && [] + b == b && b + [] == b
  {
  }

  lemma ClientBytesNext(written: bytes, data: bytes, more: seq<bytes>)
    ensures written + ClientBytes([data] + more)
         == (match UnmarshalExt(data) case None => written case Some(m) => written + m.content) + ClientBytes(more)
  {
    hide UnmarshalExt;
    assert ([data] + more)[1..] == more;
    assert written + (ClientPart(data) + ClientBytes(more)) == written + ClientPart(data) + ClientBytes(more);
    assert written + [] == written;
  }

  lemma {:induction false} ClientBytesOfMessages(id: RequestId, chunks: seq<Chunk>)
    ensures ClientBytes(DataMessages(id, chunks)) == Flatten(Contents(chunks))
  {
    hide UnmarshalExt, MarshalExt;
    if chunks != [] {
      ExtRoundTrip(ExtData(SERVICE_NAME, id, chunks[0].msgId, DATA_MESSAGE, chunks[0].content));
      ClientBytesOfMessages(id, chunks[1..]);
      assert DataMessages(id, chunks)[1..] == DataMessages(id, chunks[1..]);
    }
  }

  /**
   * The service-side agent writes its messages without frames and the gateway cuts them by its reads.
   * If every read returned exactly one message, the gateway has written one frame for each message that
   * has come so far. However these bytes arrive at the client-side agent, its loop of fresh readers
   * gets the messages exactly when every frame fits its chunks, that is when no reader reads ahead; and
   * then the client gets exactly what the messages hold. `Responses` says when these are the service's
   * bytes, and what becomes of a message that takes more than one read.
   */
  lemma ResponseReachesClient(steps: seq<Step>, c: nat, id: RequestId, chunks: seq<Chunk>, arrived: seq<bytes>)
    requires Tunnel.Exec(steps).Some? && c in Tunnel.Exec(steps).value.links
    requires Tunnel.Exec(steps).value.links[c].service.Some?
    requires Tunnel.Exec(steps).value.links[c].service.value.taken <= DataMessages(id, chunks)
    requires NonEmpty(arrived) && Flatten(arrived) == Tunnel.Exec(steps).value.links[c].client.out
    ensures var n := |Tunnel.Exec(steps).value.links[c].client.returned|;
            && n <= |chunks|
            && Flatten(arrived) == EncodeAll(DataMessages(id, chunks[..n]))
            && (FreshRun(arrived).frames == DataMessages(id, chunks[..n]) <==> Lossless(FreshRun(arrived).lost))
            && (FreshRun(arrived).frames == DataMessages(id, chunks[..n])
                <==> FramesFit(arrived, DataMessages(id, chunks[..n])))
            && (FramesFit(arrived, DataMessages(id, chunks[..n]))
                ==> ClientBytes(FreshRun(arrived).frames) == Flatten(Contents(chunks[..n])))
            && Flatten(Contents(chunks[..n])) <= Flatten(Contents(chunks))
  {
    hide Tunnel.Exec, LinkInv, EncodeAll, ParseAll, Frame, FreshRun, FramesFit, ClientBytes, DataMessage, Flatten,
      NonEmpty, Lossless;
    Tunnel.ReachableInv(steps);
    var l := Tunnel.Exec(steps).value.links[c];
    assert LinkInv(l) by { Tunnel.LinkOfInv(Tunnel.Exec(steps).value, c); }
    ReturnTransparent(l);
    ReturnedPrefix(l);
    var n := |l.client.returned|;
    var messages := DataMessages(id, chunks[..n]);
    assert l.client.returned == DataMessages(id, chunks)[..n];
    assert DataMessages(id, chunks)[..n] == messages;
    FreshReaderCorrectIff(messages, arrived);
    FreshReaderCorrectIffFramesFit(messages, arrived);
    ClientBytesOfMessages(id, chunks[..n]);
    ContentsPrefix(chunks, n);
  }

  lemma ReturnedPrefix(l: Link)
    requires LinkInv(l) && l.service.Some?
    ensures l.client.returned <= l.service.value.taken && l.client.out == EncodeAll(l.client.returned)
    ensures AllPayloads(l.client.returned)
    ensures forall i | 0 <= i < |l.service.value.taken| :: |l.service.value.taken[i]| <= SERVICE_READ
  {
    hide MarshalServiceData, MarshalSocketService, EncodeAll, Frame, Flatten;
  }

  lemma {:induction false} ContentsPrefix(chunks: seq<Chunk>, n: nat)
    requires n <= |chunks|
    ensures Flatten(Contents(chunks[..n])) <= Flatten(Contents(chunks))
  {
    if n > 0 {
      ContentsPrefix(chunks[1..], n - 1);
      assert chunks[..n][1..] == chunks[1..][..n - 1];
    }
  }

  /** Response frames that arrive together: one chunk for each group of messages. */
  function Bundled(id: RequestId, groups: seq<seq<Chunk>>): seq<bytes> {
    if groups == [] then [] else [EncodeAll(DataMessages(id, groups[0]))] + Bundled(id, groups[1..])
  }

  predicate SmallBundles(id: RequestId, groups: seq<seq<Chunk>>) {
    forall i | 0 <= i < |groups| :: |EncodeAll(DataMessages(id, groups[i]))| <= BUFFER
  }

  /** Of several frames in one chunk the agent's reader takes the first and drops the others. */
  lemma BundleKeepsFirst(id: RequestId, group: seq<Chunk>, more: seq<bytes>)
    requires group != [] && |EncodeAll(DataMessages(id, group))| <= BUFFER && NonEmpty(more)
    ensures var chunks := [EncodeAll(DataMessages(id, group))] + more;
            && NonEmpty(chunks)
            && FreshRun(chunks).frames == [DataMessage(id, group[0])] + FreshRun(more).frames
  {
    hide FreshRun, FreshStep, Frame, DataMessage;
    var p, others := DataMessage(id, group[0]), EncodeAll(DataMessages(id, group[1..]));
    assert DataMessages(id, group)[1..] == DataMessages(id, group[1..]);
    assert EncodeAll(DataMessages(id, group)) == Frame(p) + others;
    FirstOfChunk(p, others, more);
    FreshRunStep([Frame(p) + others] + more);
  }

  /** When whole frames arrive together, the client is short of bytes unless each came alone. */
  lemma {:induction false} SharedChunksLoseBytes(id: RequestId, groups: seq<seq<Chunk>>)
    requires WholeGroups(groups) && SmallBundles(id, groups)
    ensures NonEmpty(Bundled(id, groups))
    ensures |ClientBytes(FreshRun(Bundled(id, groups)).frames)| <= |Flatten(Contents(Ungrouped(groups)))|
    ensures ClientBytes(FreshRun(Bundled(id, groups)).frames) == Flatten(Contents(Ungrouped(groups)))
       <==> forall i | 0 <= i < |groups| :: |groups[i]| == 1
  {
    hide UnmarshalExt, MarshalExt, FreshRun, Flatten, Contents, EncodeAll, NonEmpty;
    if groups == [] {
      NoBytes();
      EmptySource();
      assert Contents([]) == [];
    } else {
      var group, others := groups[0], groups[1..];
      var first := group[0];
      SharedChunksLoseBytes(id, others);
      BundleKeepsFirst(id, group, Bundled(id, others));
      ExtRoundTrip(ExtData(SERVICE_NAME, id, first.msgId, DATA_MESSAGE, first.content));
      var late := FirstContent(group);
      FlattenContentsAppend(group, Ungrouped(others));
      var frames := FreshRun(Bundled(id, others)).frames;
      var got, all := ClientBytes(frames), Flatten(Contents(Ungrouped(others)));
      assert ([DataMessage(id, first)] + frames)[1..] == frames;
      SameStarts(first.content, late, got, all);
      assert groups == [group] + others;
    }
  }

  lemma FirstContent(group: seq<Chunk>) returns (late: bytes)
    requires group != [] && forall j | 0 <= j < |group| :: group[j].content != []
    ensures Flatten(Contents(group)) == group[0].content + late
    ensures late == [] <==> |group| == 1
  {
    late := Flatten(Contents(group[1..]));
    assert Contents(group)[1..] == Contents(group[1..]);
    assert |group| > 1 ==> Contents(group[1..])[0] == group[1].content;
  }

  lemma SameStarts(first: bytes, late: bytes, got: bytes, all: bytes)
    requires |got| <= |all|
    ensures first + got == first + late + all <==> late == [] && got == all
  {
    if first + got == first + late + all {
      assert |late| == 0;
      assert (first + got)[|first|..] == (first + late + all)[|first|..];
    }
  }

  /** The second of two messages with this id ends in the frame of another message with the same content. */
  function HiddenId(chunk: Chunk): RequestId {
    BigEndian(|HiddenMessage(chunk)|, HEADER)
  }

  function HiddenMessage(chunk: Chunk): bytes {
    MarshalExt(ExtData([], [], chunk.msgId, DATA_MESSAGE, chunk.content))
  }

  lemma MessageSplits(id: RequestId, chunk: Chunk)
    requires |id| == HEADER
    ensures DataMessage(id, chunk)
         == Wire.EncodeFields(Wire.Text(1, SERVICE_NAME)) + (Wire.Varint(18) + Wire.Varint(HEADER) + id)
            + HiddenMessage(chunk)
  {
    hide Wire.Varint, Wire.Number;
    var tail := Wire.Text(3, chunk.msgId) + Wire.Number(10, DATA_MESSAGE) + Wire.Text(20, chunk.content);
    var name, own := Wire.Text(1, SERVICE_NAME), Wire.Text(2, id);
    assert ExtFields(ExtData([], [], chunk.msgId, DATA_MESSAGE, chunk.content)) == tail;
    assert ExtFields(ExtData(SERVICE_NAME, id, chunk.msgId, DATA_MESSAGE, chunk.content)) == name + own + tail;
    OneField(2, id);
    hide Wire.Text, Wire.EncodeFields, ExtFields;
    EncodeFieldsAppend(name + own, tail);
    EncodeFieldsAppend(name, own);
  }

  lemma OneField(tag: nat, data: bytes)
    requires data != []
    ensures Wire.EncodeFields(Wire.Text(tag, data)) == Wire.Varint(8 * tag + 2) + Wire.Varint(|data|) + data
  {
    hide Wire.Varint;
    assert Wire.EncodeFields([]) == [];
  }

  lemma HiddenFrame(chunk: Chunk) returns (before: bytes)
    ensures before != [] && Frame(DataMessage(HiddenId(chunk), chunk)) == before + Frame(HiddenMessage(chunk))
  {
    hide Wire.Varint, Wire.Text, Wire.EncodeFields, BigEndian, DataMessage, HiddenMessage;
    var id, hidden := HiddenId(chunk), HiddenMessage(chunk);
    MessageSplits(id, chunk);
    before := BigEndian(|DataMessage(id, chunk)|, HEADER)
              + (Wire.EncodeFields(Wire.Text(1, SERVICE_NAME)) + (Wire.Varint(18) + Wire.Varint(HEADER)));
    assert Frame(DataMessage(id, chunk)) == before + (id + hidden);
  }

  /**
   * For ids of any form only the messages tell whether anything was dropped, not the client's bytes: two
   * responses with a request id made for it can arrive so that a part of the second is dropped, and what
   * is left decodes to its content all the same. The client-side agent makes no such id itself.
   */
  lemma DroppedBytesCanDecode(a: Chunk, b: Chunk) returns (arrived: seq<bytes>)
    requires |EncodeAll(DataMessages(HiddenId(b), [a, b]))| <= BUFFER
    ensures NonEmpty(arrived) && Flatten(arrived) == EncodeAll(DataMessages(HiddenId(b), [a, b]))
    ensures !Lossless(FreshRun(arrived).lost)
    ensures ClientBytes(FreshRun(arrived).frames) == Flatten(Contents([a, b]))
  {
    hide FreshRun, Lossless, ClientBytes, Contents, Flatten, NonEmpty, EncodeAll, Frame, DataMessages, DataMessage,
      HiddenId, HiddenMessage;
    var id := HiddenId(b);
    var p, q, hidden := DataMessage(id, a), DataMessage(id, b), HiddenMessage(b);
    var before := HiddenFrame(b);
    TwoFrames(id, a, b);
    assert Frame(p) + Frame(q) == Frame(p) + before + Frame(hidden);
    TwoChunks(p, before, hidden);
    HiddenContent(id, a, b);
    arrived := [Frame(p) + before, Frame(hidden)];
  }

  lemma TwoFrames(id: RequestId, a: Chunk, b: Chunk)
    ensures EncodeAll(DataMessages(id, [a, b])) == Frame(DataMessage(id, a)) + Frame(DataMessage(id, b))
  {
    hide Frame, DataMessage;
    assert DataMessages(id, [a, b]) == [DataMessage(id, a), DataMessage(id, b)];
    assert [DataMessage(id, a), DataMessage(id, b)][1..] == [DataMessage(id, b)];
    assert EncodeAll([DataMessage(id, b)]) == Frame(DataMessage(id, b)) + EncodeAll([]);
  }

  lemma HiddenContent(id: RequestId, a: Chunk, b: Chunk)
    ensures ClientBytes([DataMessage(id, a), HiddenMessage(b)]) == Flatten(Contents([a, b]))
  {
    ExtRoundTrip(ExtData(SERVICE_NAME, id, a.msgId, DATA_MESSAGE, a.content));
    ExtRoundTrip(ExtData([], [], b.msgId, DATA_MESSAGE, b.content));
    hide UnmarshalExt, MarshalExt;
    assert [DataMessage(id, a), HiddenMessage(b)][1..] == [HiddenMessage(b)];
    assert ClientBytes([HiddenMessage(b)]) == b.content + ClientBytes([]);
    assert [a, b][1..] == [b] && Contents([b]) == [b.content] && Contents([a, b]) == [a.content, b.content];
    assert [a.content, b.content][1..] == [b.content];
    assert Flatten([b.content]) == b.content;
  }

  /** No read is longer than the gateway's buffer, so a longer message is never read in one piece. */
  lemma LongMessageIsCut(steps: seq<Step>, c: nat, id: RequestId, chunks: seq<Chunk>, k: nat)
    requires Tunnel.Exec(steps).Some? && c in Tunnel.Exec(steps).value.links
    requires Tunnel.Exec(steps).value.links[c].service.Some?
    requires k < |chunks| && |DataMessage(id, chunks[k])| > SERVICE_READ
    ensures var taken := Tunnel.Exec(steps).value.links[c].service.value.taken;
            k < |taken| ==> !(taken <= DataMessages(id, chunks))
  {
    hide Tunnel.Exec, LinkInv, DataMessage;
    Tunnel.ReachableInv(steps);
    Tunnel.LinkOfInv(Tunnel.Exec(steps).value, c);
    ReturnedPrefix(Tunnel.Exec(steps).value.links[c]);
  }

  /** The agent's own read buffer is as large, so a full read always makes such a message. */
  lemma FullReadMakesLongMessage(id: RequestId, chunk: Chunk)
    requires |chunk.content| == AGENT_READ
    ensures |DataMessage(id, chunk)| > SERVICE_READ
  {
    ExtIsLongerThanContent(ExtData(SERVICE_NAME, id, chunk.msgId, DATA_MESSAGE, chunk.content));
  }

  /** Messages written back to back, and a read that returns several of them at once. */
  function Merged(id: RequestId, group: seq<Chunk>): bytes {
    Flatten(DataMessages(id, group))
  }

  function MergedAll(id: RequestId, groups: seq<seq<Chunk>>): seq<bytes> {
    if groups == [] then [] else [Merged(id, groups[0])] + MergedAll(id, groups[1..])
  }

  function Ungrouped(groups: seq<seq<Chunk>>): seq<Chunk> {
    if groups == [] then [] else groups[0] + Ungrouped(groups[1..])
  }

  predicate WholeGroups(groups: seq<seq<Chunk>>) {
    forall i | 0 <= i < |groups| ::
      groups[i] != [] && forall j | 0 <= j < |groups[i]| :: groups[i][j].content != []
  }

  /** Of several messages in one read only the last content arrives. */
  lemma {:induction false} MergedKeepsLast(id: RequestId, group: seq<Chunk>)
    requires group != [] && group[|group| - 1].content != []
    ensures Wire.DecodeFields(Merged(id, group)).Some?
    ensures UnmarshalExt(Merged(id, group)).Some?
    ensures UnmarshalExt(Merged(id, group)).value.content == group[|group| - 1].content
    decreases |group|
  {
    hide Wire.DecodeFields, Wire.EncodeFields, Wire.StrOf, Wire.NumOf, ExtFields;
    var first := ExtData(SERVICE_NAME, id, group[0].msgId, DATA_MESSAGE, group[0].content);
    var rest := Merged(id, group[1..]);
    assert Merged(id, group) == MarshalExt(first) + rest by {
      assert DataMessages(id, group)[1..] == DataMessages(id, group[1..]);
    }
    if |group| == 1 {
      assert MarshalExt(first) + rest == MarshalExt(first) by { assert rest == []; }
      ExtRoundTrip(first);
    } else {
      MergedKeepsLast(id, group[1..]);
      Wire.DecodeFieldsAppend(ExtFields(first), rest);
      StrOfAppend(ExtFields(first), Wire.DecodeFields(rest).value, 20);
    }
  }

  lemma FlattenContentsAppend(a: seq<Chunk>, b: seq<Chunk>)
    ensures Contents(a + b) == Contents(a) + Contents(b)
    ensures Flatten(Contents(a + b)) == Flatten(Contents(a)) + Flatten(Contents(b))
  {
    ContentsAppend(a, b);
    FlattenAppend(Contents(a), Contents(b));
  }

  lemma {:induction false} ContentsAppend(a: seq<Chunk>, b: seq<Chunk>)
    ensures Contents(a + b) == Contents(a) + Contents(b)
  {
    if a == [] {
      assert a + b == b;
    } else {
      assert (a + b)[1..] == a[1..] + b;
      ContentsAppend(a[1..], b);
    }
  }

  lemma GroupContents(group: seq<Chunk>) returns (early: bytes)
    requires group != [] && forall j | 0 <= j < |group| :: group[j].content != []
    ensures Flatten(Contents(group)) == early + group[|group| - 1].content
    ensures early == [] <==> |group| == 1
  {
    var last := group[|group| - 1];
    var init := group[..|group| - 1];
    early := Flatten(Contents(init));
    FlattenContentsAppend(init, [last]);
    assert init + [last] == group;
    assert Flatten(Contents([last])) == last.content;
    if |group| > 1 {
      assert Contents(init)[0] == group[0].content;
    }
  }

  /** When reads return whole messages, the client is short of bytes unless each returned just one. */
  lemma {:induction false} MergedReadsLoseBytes(id: RequestId, groups: seq<seq<Chunk>>)
    requires WholeGroups(groups)
    ensures |ClientBytes(MergedAll(id, groups))| <= |Flatten(Contents(Ungrouped(groups)))|
    ensures ClientBytes(MergedAll(id, groups)) == Flatten(Contents(Ungrouped(groups)))
       <==> forall i | 0 <= i < |groups| :: |groups[i]| == 1
  {
    hide UnmarshalExt, Merged, Wire.DecodeFields, Flatten, Contents;
    if groups == [] {
      NoBytes();
      assert Contents([]) == [];
    } else {
      var group, others := groups[0], groups[1..];
      MergedReadsLoseBytes(id, others);
      MergedKeepsLast(id, group);
      var early := GroupContents(group);
      FlattenContentsAppend(group, Ungrouped(others));
      var last := group[|group| - 1].content;
      var got, all := ClientBytes(MergedAll(id, others)), Flatten(Contents(Ungrouped(others)));
      assert ClientBytes(MergedAll(id, groups)) == last + got by {
        assert MergedAll(id, groups)[1..] == MergedAll(id, others);
      }
      SameEnds(early, last, got, all);
      assert groups == [group] + others;
    }
  }

  lemma SameEnds(early: bytes, last: bytes, got: bytes, all: bytes)
    requires |got| <= |all|
    ensures last + got == early + last + all <==> early == [] && got == all
  {
    if last + got == early + last + all {
      assert |early| == 0;
      assert (last + got)[|last|..] == (early + last + all)[|last|..];
    }
  }
}

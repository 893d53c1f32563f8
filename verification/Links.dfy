/**
 * One client connection and everything the two gateways keep for it: the client socket, the init,
 * data and response streams between the gateways, and the service socket. The functions are the
 * single steps of the handlers; the invariant says where every byte is.
 */
module Links {
  import opened Bytes
  import opened Frames
  import opened Bufio
  import opened FrameReaders
  import opened Messages
  import opened Text
  import Ids = RequestId

  type RequestId = bytes

  /** Size of the buffer with which the service-side gateway reads from the service. */
  const SERVICE_READ: nat := 40960

  /** The client's socket at the client-side gateway: unread chunks, and the histories of both directions. */
  datatype Client = Client(chunks: seq<bytes>, sent: bytes, initRequest: bytes, consumed: seq<bytes>,
                           out: bytes, returned: seq<bytes>)

  /** The socket to the service at the service-side gateway; `id` is captured by its return loop. */
  datatype Service = Service(id: RequestId, chunks: seq<bytes>, sent: bytes, taken: seq<bytes>,
                             out: bytes, delivered: seq<bytes>)

  datatype Phase =
    | Accepted
    | Announced(req: SocketService)
    | Open(req: SocketService)

  /** `init`, `data` and `resp` are the bytes under way on the three streams. */
  datatype Link = Link(phase: Phase, client: Client, init: bytes, data: bytes, resp: bytes,
                       service: Option<Service>)

  const NEW_LINK: Link := Link(Accepted, Client([], [], [], [], [], []), [], [], [], None)

  predicate HasId(l: Link) {
    !l.phase.Accepted?
  }

  function Id(l: Link): RequestId
    requires HasId(l)
  {
    l.phase.req.requestId
  }

  /** The payloads as they travel between the gateways, tagged with the request id. */
  function Tagged(id: RequestId, payloads: seq<bytes>): (r: seq<bytes>)
    ensures |r| == |payloads|
  {
    if payloads == [] then []
    else [MarshalServiceData(ServiceData(id, payloads[0]))] + Tagged(id, payloads[1..])
  }

  // ---------------------------------------------------------------- client side

  function ClientSends(l: Link, data: bytes): Link {
    l.(client := l.client.(chunks := l.client.chunks + [data], sent := l.client.sent + data))
  }

  /** The gateway's request id is built from the init request and a new uuid. */
  function Request(init: SocketInit, uuid: bytes, peer: bytes): SocketService {
    SocketService(init.serviceId, Ids.Build(init.userId, init.serviceId, uuid), peer)
  }

  /** The init request is complete and was read without reading ahead. */
  predicate CanAnnounce(l: Link, uuid: bytes, peer: bytes) {
    && l.phase.Accepted?
    && var i := InitStep(l.client.chunks);
    && i.full && i.result.Ok? && i.lost == []
    && UnmarshalSocketInit(i.result.data).Some?
    && |MarshalSocketService(Request(UnmarshalSocketInit(i.result.data).value, uuid, peer))| < MAX_SLICE
  }

  function Announce(l: Link, uuid: bytes, peer: bytes): Link
    requires CanAnnounce(l, uuid, peer)
  {
    var i := InitStep(l.client.chunks);
    var req := Request(UnmarshalSocketInit(i.result.data).value, uuid, peer);
    l.(phase := Announced(req),
       client := l.client.(chunks := i.chunks, initRequest := i.result.data),
       init := l.init + Frame(MarshalSocketService(req)))
  }

  /** The client socket is entered in the connection table and its read loop starts. */
  function OpenClient(l: Link): Link
    requires l.phase.Announced?
  {
    l.(phase := Open(l.phase.req))
  }

  /** The next frame of the client is complete and was read without reading ahead. */
  predicate CanForward(l: Link) {
    && l.phase.Open?
    && var f := FreshStep(l.client.chunks);
    && f.result.Ok? && f.lost == []
    && |MarshalServiceData(ServiceData(Id(l), f.result.data))| < MAX_SLICE
  }

  function Forward(l: Link): Link
    requires CanForward(l)
  {
    var f := FreshStep(l.client.chunks);
    l.(client := l.client.(chunks := f.chunks, consumed := l.client.consumed + [f.result.data]),
       data := l.data + Frame(MarshalServiceData(ServiceData(Id(l), f.result.data))))
  }

  predicate CanTakeResp(l: Link) {
    && ParseFrame(l.resp).result.Ok?
    && UnmarshalServiceData(ParseFrame(l.resp).result.data).Some?
  }

  function RespHead(l: Link): ServiceData
    requires CanTakeResp(l)
  {
    UnmarshalServiceData(ParseFrame(l.resp).result.data).value
  }

  function TakeResp(l: Link): Link {
    l.(resp := ParseFrame(l.resp).rest)
  }

  function PutClient(l: Link, raw: bytes): Link {
    l.(client := l.client.(out := l.client.out + Frame(raw), returned := l.client.returned + [raw]))
  }

  // ---------------------------------------------------------------- service side

  predicate CanOpenService(l: Link) {
    && l.service.None?
    && ParseFrame(l.init).result.Ok?
    && UnmarshalSocketInit(ParseFrame(l.init).result.data).Some?
  }

  /** The service request is read and decoded, and a new connection is kept under its request id. */
  function OpenService(l: Link): Link
    requires CanOpenService(l)
  {
    var p := ParseFrame(l.init);
    l.(init := p.rest,
       service := Some(Service(UnmarshalSocketInit(p.result.data).value.requestId, [], [], [], [], [])))
  }

  predicate CanTakeData(l: Link) {
    && ParseFrame(l.data).result.Ok?
    && UnmarshalServiceData(ParseFrame(l.data).result.data).Some?
  }

  function DataHead(l: Link): ServiceData
    requires CanTakeData(l)
  {
    UnmarshalServiceData(ParseFrame(l.data).result.data).value
  }

  function TakeData(l: Link): Link {
    l.(data := ParseFrame(l.data).rest)
  }

  function PutService(l: Link, raw: bytes): Link
    requires l.service.Some?
  {
    var s := l.service.value;
    l.(service := Some(s.(out := s.out + Frame(raw), delivered := s.delivered + [raw])))
  }

  function ServiceSends(l: Link, data: bytes): Link
    requires l.service.Some?
  {
    var s := l.service.value;
    l.(service := Some(s.(chunks := s.chunks + [data], sent := s.sent + data)))
  }

  /** One read from the service; its reader's buffer is always empty, as the request exceeds it. */
  function ServiceRead(s: Service): Got {
    ReadSome(Stream([], s.chunks), SERVICE_READ)
  }

  predicate CanReturn(l: Link) {
    && l.service.Some?
    && var s := l.service.value;
    && s.chunks != []
    && |MarshalServiceData(ServiceData(s.id, ServiceRead(s).data))| < MAX_SLICE
  }

  function Return(l: Link): Link
    requires CanReturn(l)
  {
    var s := l.service.value;
    var g := ServiceRead(s);
    l.(service := Some(s.(chunks := g.stream.chunks, taken := s.taken + [g.data])),
       resp := l.resp + Frame(MarshalServiceData(ServiceData(s.id, g.data))))
  }

  // ---------------------------------------------------------------- where every byte is

  /** `done` of the payloads have arrived; the stream holds the frames of the others. */
  predicate InFlight(stream: bytes, id: RequestId, all: seq<bytes>, done: seq<bytes>) {
    && done <= all
    && AllPayloads(Tagged(id, all[|done|..]))
    && stream == EncodeAll(Tagged(id, all[|done|..]))
  }

  /** The client's init request as it came, once it has been read. */
  function InitFrame(l: Link): bytes {
    if HasId(l) then Frame(l.client.initRequest) else []
  }

  predicate ClientInv(l: Link) {
    var c := l.client;
    && NonEmpty(c.chunks)
    && (l.phase.Accepted? ==>
          c.consumed == [] && l.init == [] && l.data == [] && l.service.None?)
    && (!l.phase.Open? ==> c.consumed == [] && c.returned == [])
    && c.sent == InitFrame(l) + EncodeAll(c.consumed) + Flatten(c.chunks)
    && |c.initRequest| < MAX_SLICE
    && AllPayloads(c.consumed)
    && c.out == EncodeAll(c.returned)
  }

  function Delivered(l: Link): seq<bytes> {
    if l.service.Some? then l.service.value.delivered else []
  }

  function Reads(l: Link): seq<bytes> {
    if l.service.Some? then l.service.value.taken else []
  }

  predicate StreamInv(l: Link) {
    && (l.phase.Accepted? ==> l.resp == [] && l.client.returned == [])
    && (HasId(l) ==>
          && InFlight(l.data, Id(l), l.client.consumed, Delivered(l))
          && InFlight(l.resp, Id(l), Reads(l), l.client.returned)
          && (l.service.None? ==>
                && |MarshalSocketService(l.phase.req)| < MAX_SLICE
                && l.init == Frame(MarshalSocketService(l.phase.req)))
          && (l.service.Some? ==> l.init == []))
  }

  predicate ServiceInv(l: Link) {
    l.service.Some? ==>
      && HasId(l)
      && var s := l.service.value;
      && s.id == Id(l)
      && NonEmpty(s.chunks)
      && s.out == EncodeAll(s.delivered)
      && s.sent == Flatten(s.taken) + Flatten(s.chunks)
      && (forall i | 0 <= i < |s.taken| :: 0 < |s.taken[i]| <= SERVICE_READ)
  }

  predicate LinkInv(l: Link) {
    ClientInv(l) && StreamInv(l) && ServiceInv(l)
  }

  // ---------------------------------------------------------------- streams of tagged payloads

  lemma {:induction false} TaggedAppend(id: RequestId, a: seq<bytes>, b: seq<bytes>)
    ensures Tagged(id, a + b) == Tagged(id, a) + Tagged(id, b)
  {
    if a == [] {
      assert a + b == b;
    } else {
      assert (a + b)[1..] == a[1..] + b;
      TaggedAppend(id, a[1..], b);
    }
  }

  lemma AppendInFlight(stream: bytes, id: RequestId, all: seq<bytes>, done: seq<bytes>, p: bytes)
    requires InFlight(stream, id, all, done)
    requires |MarshalServiceData(ServiceData(id, p))| < MAX_SLICE
    ensures InFlight(stream + Frame(MarshalServiceData(ServiceData(id, p))), id, all + [p], done)
  {
    hide MarshalServiceData, EncodeAll, Frame;
    var pending := all[|done|..];
    assert (all + [p])[|done|..] == pending + [p];
    TaggedAppend(id, pending, [p]);
    assert Tagged(id, [p]) == [MarshalServiceData(ServiceData(id, p))];
    EncodeAllSnoc(Tagged(id, pending), MarshalServiceData(ServiceData(id, p)));
  }

  /** The head of a stream decodes to the oldest payload under way, and to its id. */
  lemma HeadInFlight(stream: bytes, id: RequestId, all: seq<bytes>, done: seq<bytes>)
    requires InFlight(stream, id, all, done)
    requires ParseFrame(stream).result.Ok?
    ensures |done| < |all|
    ensures UnmarshalServiceData(ParseFrame(stream).result.data) == Some(ServiceData(id, all[|done|]))
    ensures InFlight(ParseFrame(stream).rest, id, all, done + [all[|done|]])
  {
    hide MarshalServiceData, UnmarshalServiceData, Frame, ParseFrame;
    var pending := all[|done|..];
    if pending == [] {
      NothingToRead();
      EmptyStream();
    } else {
      var head, tail := MarshalServiceData(ServiceData(id, pending[0])), Tagged(id, pending[1..]);
      assert Tagged(id, pending) == [head] + tail;
      assert AllPayloads(tail);
      assert |head| < MAX_SLICE;
      assert stream == Frame(head) + EncodeAll(tail) by { assert ([head] + tail)[1..] == tail; }
      ParseFrameOfFrame(head, EncodeAll(tail));
      ServiceDataRoundTrip(ServiceData(id, pending[0]));
      assert all[|done + [all[|done|]]|..] == pending[1..];
    }
  }

  lemma EmptyStream()
    ensures ParseFrame([]).result == Fail(EOF)
  {
  }

  // ---------------------------------------------------------------- the steps of one connection

  datatype Step =
    | Connect(link: nat)
    | ClientSend(link: nat, data: bytes)
    | AnnounceClient(link: nat, uuid: bytes, peer: bytes)
    | OpenClientConn(link: nat)
    | ForwardFrame(link: nat)
    | OpenServiceConn(link: nat)
    | DeliverToService(link: nat)
    | ServiceSend(link: nat, data: bytes)
    | ReadService(link: nat)
    | DeliverToClient(link: nat)

  /** The steps of one connection alone, with its own sockets as the only destinations. */
  predicate LinkEnabled(l: Option<Link>, s: Step) {
    if s.Connect? then l.None?
    else
      && l.Some?
      && match s
         case ClientSend(_, data) => data != []
         case AnnounceClient(_, uuid, peer) => CanAnnounce(l.value, uuid, peer)
         case OpenClientConn(_) => l.value.phase.Announced?
         case ForwardFrame(_) => CanForward(l.value)
         case OpenServiceConn(_) => CanOpenService(l.value)
         case DeliverToService(_) => CanTakeData(l.value) && l.value.service.Some?
         case ServiceSend(_, data) => l.value.service.Some? && data != []
         case ReadService(_) => CanReturn(l.value)
         case DeliverToClient(_) => CanTakeResp(l.value) && l.value.phase.Open?
  }

  function LinkApply(l: Option<Link>, s: Step): Link
    requires LinkEnabled(l, s)
  {
    match s
    case Connect(_) => NEW_LINK
    case ClientSend(_, data) => ClientSends(l.value, data)
    case AnnounceClient(_, uuid, peer) => Announce(l.value, uuid, peer)
    case OpenClientConn(_) => OpenClient(l.value)
    case ForwardFrame(_) => Forward(l.value)
    case OpenServiceConn(_) => OpenService(l.value)
    case DeliverToService(_) => PutService(TakeData(l.value), DataHead(l.value).rawData)
    case ServiceSend(_, data) => ServiceSends(l.value, data)
    case ReadService(_) => Return(l.value)
    case DeliverToClient(_) => PutClient(TakeResp(l.value), RespHead(l.value).rawData)
  }

  lemma ClientSendsKeeps(l: Link, data: bytes)
    requires LinkInv(l) && data != []
    ensures LinkInv(ClientSends(l, data))
  {
    hide ClientInv, StreamInv, ServiceInv;
    ClientSideTakes(l, data);
    OtherSidesKeep(l, data);
  }

  lemma ClientSideTakes(l: Link, data: bytes)
    requires ClientInv(l) && data != []
    ensures ClientInv(ClientSends(l, data))
  {
    hide Flatten, EncodeAll, InitFrame;
    FlattenSnoc(l.client.chunks, data);
    SameInitFrame(l, data);
    var c := l.client;
    assert c.sent + data == InitFrame(l) + EncodeAll(c.consumed) + (Flatten(c.chunks) + data);
  }

  lemma SameInitFrame(l: Link, data: bytes)
    ensures InitFrame(ClientSends(l, data)) == InitFrame(l)
  {
  }

  lemma OtherSidesKeep(l: Link, data: bytes)
    requires StreamInv(l) && ServiceInv(l)
    ensures StreamInv(ClientSends(l, data)) && ServiceInv(ClientSends(l, data))
  {
    hide Flatten, EncodeAll, InFlight, Frame, MarshalSocketService, NonEmpty;
  }

  lemma AnnounceKeeps(l: Link, uuid: bytes, peer: bytes)
    requires LinkInv(l) && CanAnnounce(l, uuid, peer)
    ensures LinkInv(Announce(l, uuid, peer))
  {
    hide InitStep, FreshStep, ParseFrame, Flatten, Frame, UnmarshalSocketInit, MarshalSocketService, MarshalServiceData;
    var c := l.client;
    var i := InitStep(c.chunks);
    FullInitReadIsFrameRead(c.chunks);
    FreshStepReads(c.chunks);
    ParsedFrameIsPrefix(Flatten(c.chunks));
    assert i.lost + Flatten(i.chunks) == Flatten(i.chunks);
    assert c.sent == Flatten(c.chunks);
    assert c.sent == Frame(i.result.data) + EncodeAll([]) + Flatten(i.chunks);
    var l' := Announce(l, uuid, peer);
    assert l'.init == Frame(MarshalSocketService(l'.phase.req));
    assert InFlight(l'.data, Id(l'), [], []);
  }

  /**
   * What the gateway asks for when a client has sent the init request `m` first: the service that `m`
   * names, under an id made of the user, the service and a uuid with dots between them.
   */
  lemma AnnouncementAsks(l: Link, uuid: bytes, peer: bytes, m: SocketInit, rest: bytes)
    requires LinkInv(l) && CanAnnounce(l, uuid, peer) && |MarshalSocketInit(m)| < MAX_SLICE
    requires Flatten(l.client.chunks) == Frame(MarshalSocketInit(m)) + rest
    ensures var l' := Announce(l, uuid, peer);
            var id := m.userId + [46] + m.serviceId + [46] + uuid;
            && l'.client.initRequest == MarshalSocketInit(m)
            && HasId(l') && Id(l') == id
            && ParseFrame(l'.init).result.Ok? && ParseFrame(l'.init).rest == []
            && UnmarshalSocketInit(ParseFrame(l'.init).result.data) == Some(SocketInit(m.serviceId, id, peer, []))
    ensures Free(m.userId, 46) && Free(m.serviceId, 46)
            ==> Ids.Extract(Id(Announce(l, uuid, peer))) == Some(Ids.Info(m.userId, m.serviceId))
  {
    hide InitStep, FreshStep, ParseFrame, Flatten, Frame, MarshalSocketInit, UnmarshalSocketInit, MarshalSocketService,
      MarshalServiceData;
    FullInitReadIsFrameRead(l.client.chunks);
    FreshStepReads(l.client.chunks);
    ParseFrameOfFrame(MarshalSocketInit(m), rest);
    SocketInitRoundTrip(m);
    var l' := Announce(l, uuid, peer);
    ServiceRequestReadsAsInit(l'.phase.req);
    ParseFrameOfFrame(MarshalSocketService(l'.phase.req), []);
    assert l'.init == Frame(MarshalSocketService(l'.phase.req)) + [];
    Ids.ExtractOfBuildIff(m.userId, m.serviceId, uuid);
  }

  /** When a connection can be announced, for an init request that fits the buffer with its header. */
  lemma AnnounceIff(l: Link, uuid: bytes, peer: bytes, m: SocketInit, tail: bytes)
    requires LinkInv(l) && Flatten(l.client.chunks) == Frame(MarshalSocketInit(m)) + tail
    requires MarshalSocketInit(m) != [] && 8 + |MarshalSocketInit(m)| < BUFFER
    ensures CanAnnounce(l, uuid, peer)
       <==> && l.phase.Accepted?
            && Uncut(l.client.chunks, 8, 8 + |MarshalSocketInit(m)|)
            && ChunkEnds(l.client.chunks, 8 + |MarshalSocketInit(m)|)
            && |MarshalSocketService(Request(m, uuid, peer))| < MAX_SLICE
  {
    hide InitStep, Flatten, Frame, MarshalSocketInit, UnmarshalSocketInit, MarshalSocketService, MarshalServiceData,
      Request, Uncut, ChunkEnds;
    InitReadFullIff(l.client.chunks, MarshalSocketInit(m), tail);
    SocketInitRoundTrip(m);
  }

  lemma ForwardKeeps(l: Link)
    requires LinkInv(l) && CanForward(l)
    ensures LinkInv(Forward(l))
  {
    hide FreshStep, ParseFrame, Flatten, Frame, EncodeAll, InFlight, MarshalServiceData, MarshalSocketService;
    var c := l.client;
    var f := FreshStep(c.chunks);
    FreshStepReads(c.chunks);
    ParsedFrameIsPrefix(Flatten(c.chunks));
    assert f.lost + Flatten(f.chunks) == Flatten(f.chunks);
    EncodeAllSnoc(c.consumed, f.result.data);
    AppendInFlight(l.data, Id(l), c.consumed, Delivered(l), f.result.data);
    assert InitFrame(l) + EncodeAll(c.consumed) + (Frame(f.result.data) + Flatten(f.chunks))
        == InitFrame(l) + (EncodeAll(c.consumed) + Frame(f.result.data)) + Flatten(f.chunks);
  }

  lemma OpenServiceKeeps(l: Link)
    requires LinkInv(l) && CanOpenService(l)
    ensures LinkInv(OpenService(l)) && HasId(l) && OpenService(l).service.value.id == Id(l)
  {
    hide ParseFrame, Frame, UnmarshalSocketInit, MarshalSocketService, MarshalServiceData;
    if l.phase.Accepted? {
      EmptyStream();
    } else {
      var m := MarshalSocketService(l.phase.req);
      assert Frame(m) + [] == Frame(m);
      ParseFrameOfFrame(m, []);
      ServiceRequestReadsAsInit(l.phase.req);
    }
  }

  lemma DataHeadIsOwn(l: Link)
    requires LinkInv(l) && CanTakeData(l)
    ensures HasId(l) && DataHead(l).requestId == Id(l)
  {
    hide ParseFrame, UnmarshalServiceData, InFlight;
    if l.phase.Accepted? {
      EmptyStream();
    } else {
      HeadInFlight(l.data, Id(l), l.client.consumed, Delivered(l));
    }
  }

  /** Bytes under way always begin with a whole message, the oldest that has not come. */
  lemma DataComes(l: Link)
    requires LinkInv(l) && l.data != []
    ensures HasId(l) && CanTakeData(l) && |Delivered(l)| < |l.client.consumed|
    ensures DataHead(l) == ServiceData(Id(l), l.client.consumed[|Delivered(l)|])
  {
    hide MarshalServiceData, UnmarshalServiceData, Frame, ParseFrame, MarshalSocketService, EncodeAll;
    if HasId(l) {
      FirstUnderWay(l.data, Id(l), l.client.consumed, Delivered(l));
      HeadInFlight(l.data, Id(l), l.client.consumed, Delivered(l));
    }
  }

  lemma RespComes(l: Link)
    requires LinkInv(l) && l.resp != []
    ensures HasId(l) && CanTakeResp(l) && |l.client.returned| < |Reads(l)|
    ensures RespHead(l) == ServiceData(Id(l), Reads(l)[|l.client.returned|])
  {
    hide MarshalServiceData, UnmarshalServiceData, Frame, ParseFrame, MarshalSocketService, EncodeAll;
    if HasId(l) {
      FirstUnderWay(l.resp, Id(l), Reads(l), l.client.returned);
      HeadInFlight(l.resp, Id(l), Reads(l), l.client.returned);
    }
  }

  lemma FirstUnderWay(stream: bytes, id: RequestId, all: seq<bytes>, done: seq<bytes>)
    requires InFlight(stream, id, all, done) && stream != []
    ensures |done| < |all| && ParseFrame(stream).result.Ok?
  {
    hide MarshalServiceData, ParseFrame, Frame;
    var pending := Tagged(id, all[|done|..]);
    if pending != [] {
      ParseFrameOfFrame(pending[0], EncodeAll(pending[1..]));
    }
  }

  /** The announcement of a connection is there for the service side until it is read. */
  lemma InitComes(l: Link)
    requires LinkInv(l)
    ensures CanOpenService(l) <==> HasId(l) && l.service.None?
  {
    hide MarshalServiceData, Frame, ParseFrame, MarshalSocketService, UnmarshalSocketInit, EncodeAll, Flatten, InFlight;
    if HasId(l) && l.service.None? {
      ParseFrameOfFrame(MarshalSocketService(l.phase.req), []);
      assert l.init == Frame(MarshalSocketService(l.phase.req)) + [];
      ServiceRequestReadsAsInit(l.phase.req);
    } else {
      NothingToRead();
    }
  }

  lemma DeliverKeeps(l: Link)
    requires LinkInv(l) && CanTakeData(l) && l.service.Some?
    ensures LinkInv(PutService(TakeData(l), DataHead(l).rawData))
  {
    hide ParseFrame, UnmarshalServiceData, InFlight, EncodeAll, Frame, Flatten;
    HeadInFlight(l.data, Id(l), l.client.consumed, Delivered(l));
    EncodeAllSnoc(Delivered(l), DataHead(l).rawData);
  }

  lemma ServiceSendsKeeps(l: Link, data: bytes)
    requires LinkInv(l) && l.service.Some? && data != []
    ensures LinkInv(ServiceSends(l, data))
  {
    hide Flatten, EncodeAll, InFlight, Frame, MarshalSocketService;
    var s := l.service.value;
    FlattenSnoc(s.chunks, data);
    assert s.sent + data == Flatten(s.taken) + (Flatten(s.chunks) + data);
  }

  lemma ReturnKeeps(l: Link)
    requires LinkInv(l) && CanReturn(l)
    ensures LinkInv(Return(l))
  {
    hide ReadSome, Flatten, Frame, EncodeAll, InFlight, MarshalServiceData;
    var s := l.service.value;
    var g := ServiceRead(s);
    FlattenNonEmpty(s.chunks);
    assert Pending(Stream([], s.chunks)) == Flatten(s.chunks);
    assert g.stream.buffered == [] by { DirectRead(s.chunks); }
    assert Pending(g.stream) == Flatten(g.stream.chunks);
    FlattenSnoc(s.taken, g.data);
    AppendInFlight(l.resp, Id(l), s.taken, l.client.returned, g.data);
    assert Flatten(s.taken) + (g.data + Flatten(g.stream.chunks))
        == Flatten(s.taken) + g.data + Flatten(g.stream.chunks);
  }

  lemma DirectRead(chunks: seq<bytes>)
    ensures ReadSome(Stream([], chunks), SERVICE_READ).stream.buffered == []
  {
  }

  lemma RespHeadIsOwn(l: Link)
    requires LinkInv(l) && CanTakeResp(l)
    ensures HasId(l) && RespHead(l).requestId == Id(l)
  {
    hide ParseFrame, UnmarshalServiceData, InFlight;
    if l.phase.Accepted? {
      EmptyStream();
    } else {
      HeadInFlight(l.resp, Id(l), Reads(l), l.client.returned);
    }
  }

  lemma DeliverBackKeeps(l: Link)
    requires LinkInv(l) && CanTakeResp(l) && l.phase.Open?
    ensures LinkInv(PutClient(TakeResp(l), RespHead(l).rawData))
  {
    hide ParseFrame, UnmarshalServiceData, InFlight, EncodeAll, Frame, Flatten;
    HeadInFlight(l.resp, Id(l), Reads(l), l.client.returned);
    EncodeAllSnoc(l.client.returned, RespHead(l).rawData);
  }

  lemma NewLinkKeeps()
    ensures LinkInv(NEW_LINK)
  {
  }

  /** Every step keeps the invariant. */
  lemma LinkStepKeeps(l: Option<Link>, s: Step)
    requires l.Some? ==> LinkInv(l.value)
    requires LinkEnabled(l, s)
    ensures LinkInv(LinkApply(l, s))
  {
    hide LinkInv, CanAnnounce, Announce, CanForward, Forward, CanOpenService, OpenService, CanTakeData, TakeData,
      PutService, ClientSends, ServiceSends, CanReturn, Return, CanTakeResp, TakeResp, PutClient, OpenClient;
    match s
    case Connect(_) => NewLinkKeeps();
    case ClientSend(_, data) => ClientSendsKeeps(l.value, data);
    case AnnounceClient(_, uuid, peer) => AnnounceKeeps(l.value, uuid, peer);
    case OpenClientConn(_) => OpenClientKeeps(l.value);
    case ForwardFrame(_) => ForwardKeeps(l.value);
    case OpenServiceConn(_) => OpenServiceKeeps(l.value);
    case DeliverToService(_) => DeliverKeeps(l.value);
    case ServiceSend(_, data) => ServiceSendsKeeps(l.value, data);
    case ReadService(_) => ReturnKeeps(l.value);
    case DeliverToClient(_) => DeliverBackKeeps(l.value);
  }

  lemma OpenClientKeeps(l: Link)
    requires LinkInv(l) && l.phase.Announced?
    ensures LinkInv(OpenClient(l))
  {
  }

  // ---------------------------------------------------------------- transparency

  /**
   * Towards the service: what the client sent is its init frame, the frames read, and the unread
   * rest; what the service connection received is those frames but for the ones under way.
   */
  lemma ForwardTransparent(l: Link)
    requires LinkInv(l) && l.service.Some?
    ensures var c, s := l.client, l.service.value;
            var underWay := c.consumed[|s.delivered|..];
            && |s.delivered| <= |c.consumed|
            && EncodeAll(c.consumed) == s.out + EncodeAll(underWay)
            && c.sent == InitFrame(l) + EncodeAll(c.consumed) + Flatten(c.chunks)
            && InitFrame(l) + s.out <= c.sent
            && (l.data == [] ==> EncodeAll(c.consumed) == s.out)
  {
    hide Flatten, EncodeAll, Frame, MarshalServiceData, MarshalSocketService, Tagged, AllPayloads;
    var c, s := l.client, l.service.value;
    var underWay := c.consumed[|s.delivered|..];
    assert c.consumed == s.delivered + underWay;
    EncodeAllAppend(s.delivered, underWay);
    assert c.sent == (InitFrame(l) + s.out) + (EncodeAll(underWay) + Flatten(c.chunks));
    NothingUnderWay(Id(l), underWay);
    if l.data == [] {
      assert s.delivered + [] == s.delivered;
    }
  }

  lemma NothingUnderWay(id: RequestId, payloads: seq<bytes>)
    ensures EncodeAll(Tagged(id, payloads)) == [] ==> payloads == []
  {
    hide MarshalServiceData;
  }

  /**
   * Towards the client: what the service sent is the reads and the unread rest; what the client
   * received is one frame for each read but for those under way, so the payloads it received are a
   * prefix of the service's bytes.
   */
  lemma ReturnTransparent(l: Link)
    requires LinkInv(l) && l.service.Some?
    ensures var c, s := l.client, l.service.value;
            && |c.returned| <= |s.taken|
            && EncodeAll(s.taken) == c.out + EncodeAll(s.taken[|c.returned|..])
            && s.sent == Flatten(s.taken) + Flatten(s.chunks)
            && Flatten(c.returned) <= s.sent
            && ParseAll(c.out) == Frames(c.returned, EOF)
  {
    hide Flatten, EncodeAll, Frame, ParseAll, MarshalServiceData, MarshalSocketService, Tagged;
    var c, s := l.client, l.service.value;
    var underWay := s.taken[|c.returned|..];
    assert s.taken == c.returned + underWay;
    EncodeAllAppend(c.returned, underWay);
    FlattenAppend(c.returned, underWay);
    assert s.sent == Flatten(c.returned) + (Flatten(underWay) + Flatten(s.chunks));
    assert AllPayloads(c.returned) by {
      forall i | 0 <= i < |c.returned| ensures |c.returned[i]| < MAX_SLICE {
        assert c.returned[i] == s.taken[i];
      }
    }
    FramedStreamRoundTrip(c.returned);
  }
}

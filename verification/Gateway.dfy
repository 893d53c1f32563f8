/**
 * The gateway node's socket handlers over their connection tables: request ids mapped to connection
 * objects, whose peers see the bytes written. Each handler is proved against a function on views,
 * maps from request id to bytes written, and the tunnel's steps are shown to act on its views by the
 * same functions.
 */
module Gateway {
  import opened Bytes
  import opened Frames
  import opened Bufio
  import opened FrameReaders
  import opened Messages
  import opened Links
  import Tunnel

  type View = map<RequestId, bytes>

  /** One message of a data stream: write its payload, framed, to the connection of its request id. */
  function Dispatch(view: View, message: bytes): Option<View> {
    match UnmarshalServiceData(message)
    case None => None
    case Some(m) =>
      if m.requestId !in view then None
      else Some(view[m.requestId := view[m.requestId] + Frame(m.rawData)])
  }

  /** All messages up to the first that panics. */
  function DispatchAll(view: View, messages: seq<bytes>): (r: (View, bool))
    ensures r.0.Keys == view.Keys
  {
    if messages == [] then (view, true)
    else
      match Dispatch(view, messages[0])
      case None => (view, false)
      case Some(view') => DispatchAll(view', messages[1..])
  }

  /** Up to the first message that panics, and no further. */
  lemma {:induction false} DispatchedUpTo(view: View, messages: seq<bytes>) returns (n: nat)
    ensures n <= |messages| && DispatchAll(view, messages[..n]) == (DispatchAll(view, messages).0, true)
    ensures n == |messages| <==> DispatchAll(view, messages).1
    ensures n < |messages| ==> Dispatch(DispatchAll(view, messages).0, messages[n]) == None
    decreases |messages|
  {
    hide Dispatch;
    n := 0;
    if messages != [] {
      var next := Dispatch(view, messages[0]);
      if next.Some? {
        n := DispatchedUpTo(next.value, messages[1..]);
        n := n + 1;
        assert messages[..n][1..] == messages[1..][..n - 1];
      }
    }
  }

  /** What the service-side gateway finds when it serves an init request. */
  datatype Site = Site(decodes: bytes -> bool,                  // peer.Decode accepts a peer id
                       providers: map<bytes, seq<bytes>>,       // base URLs of the local services
                       reachable: bytes -> bool)                // dialling a base URL succeeds

  /** A service request: a new connection without any bytes under its request id. */
  function OpenIn(view: View, message: bytes): Option<View> {
    match UnmarshalSocketInit(message)
    case None => None
    case Some(m) => Some(view[m.requestId := []])
  }

  /** What ends a loop over a stream: its handler panics on the stream's end, a plain one included. */
  datatype Panic = BadMessage | StreamEnded(error: FrameError)

  /** A connection as the node holds it: the bytes written to it so far. */
  class SocketConn {
    var written: bytes

    constructor ()
      ensures written == []
    {
      written := [];
    }

    method Write(data: bytes)
      modifies this
      ensures written == old(written) + data
    {
      written := written + data;
    }
  }

  class Node {
    var clientSocketConns: map<RequestId, SocketConn>
    var serviceSocketConns: map<RequestId, SocketConn>

    constructor ()
      ensures Valid() && ClientView() == map[] && ServiceView() == map[]
    {
      clientSocketConns, serviceSocketConns := map[], map[];
    }

    static ghost predicate Injective(m: map<RequestId, SocketConn>) {
      forall i, j | i in m && j in m :: m[i] == m[j] ==> i == j
    }

    /** Every accepted or dialled connection is an object of its own. */
    ghost predicate Valid()
      reads this
    {
      && Injective(clientSocketConns) && Injective(serviceSocketConns)
      && clientSocketConns.Values !! serviceSocketConns.Values
    }

    static ghost function ViewOf(m: map<RequestId, SocketConn>): View
      reads m.Values
    {
      map id | id in m :: m[id].written
    }

    ghost function ClientView(): View
      reads this, clientSocketConns.Values
    {
      ViewOf(clientSocketConns)
    }

    ghost function ServiceView(): View
      reads this, serviceSocketConns.Values
    {
      ViewOf(serviceSocketConns)
    }

    /** The table a data stream writes to: its protocol says from which side it comes. */
    ghost function Target(fromClientSide: bool): View
      reads this, clientSocketConns.Values, serviceSocketConns.Values
    {
      if fromClientSide then ServiceView() else ClientView()
    }

    /** Registers the socket of a client whose request has been announced. */
    method RegisterClient(requestId: RequestId, conn: SocketConn)
      requires Valid() && conn !in clientSocketConns.Values && conn !in serviceSocketConns.Values
      modifies this`clientSocketConns
      ensures Valid()
      ensures ClientView() == old(ClientView())[requestId := conn.written]
      ensures ServiceView() == old(ServiceView())
    {
      assert forall id | id in clientSocketConns :: clientSocketConns[id] in clientSocketConns.Values;
      clientSocketConns := clientSocketConns[requestId := conn];
    }

    /** The service-side gateway's handler of one service request; not `ok` is a panic. */
    method HandleSocketInit(site: Site, message: bytes) returns (ok: bool)
      requires Valid()
      modifies this`serviceSocketConns
      ensures Valid() && ClientView() == old(ClientView())
      ensures ok <==> UnmarshalSocketInit(message).Some?
                      && var m := UnmarshalSocketInit(message).value;
                      && site.decodes(m.peerId)
                      && m.serviceId in site.providers && |site.providers[m.serviceId]| > 0
                      && site.reachable(site.providers[m.serviceId][0])
      ensures ok ==> OpenIn(old(ServiceView()), message).Some?
      ensures ServiceView() == if ok then OpenIn(old(ServiceView()), message).value else old(ServiceView())
    {
      hide UnmarshalSocketInit;
      var m := UnmarshalSocketInit(message);
      if m.None? || !site.decodes(m.value.peerId) {
        return false;
      }
      if m.value.serviceId !in site.providers || |site.providers[m.value.serviceId]| < 1 {
        return false;
      }
      var socketServiceUrl := site.providers[m.value.serviceId][0];
      if !site.reachable(socketServiceUrl) {
        return false;
      }
      assert forall id | id in serviceSocketConns :: serviceSocketConns[id] in serviceSocketConns.Values;
      var conn := new SocketConn();
      serviceSocketConns := serviceSocketConns[m.value.requestId := conn];
      return true;
    }

    /** Writes one message of a data stream to the table that the stream's protocol selects. */
    method HandleMessage(fromClientSide: bool, message: bytes) returns (ok: bool)
      requires Valid()
      modifies if fromClientSide then serviceSocketConns.Values else clientSocketConns.Values
      ensures Valid()
      ensures ok <==> Dispatch(old(Target(fromClientSide)), message).Some?
      ensures Target(fromClientSide)
           == if ok then Dispatch(old(Target(fromClientSide)), message).value else old(Target(fromClientSide))
      ensures Target(!fromClientSide) == old(Target(!fromClientSide))
    {
      hide UnmarshalServiceData, Frame;
      var m := UnmarshalServiceData(message);
      if m.None? {
        return false;
      }
      var table := if fromClientSide then serviceSocketConns else clientSocketConns;
      var id := m.value.requestId;
      if id !in table {
        return false;
      }
      assert forall i | i in clientSocketConns :: clientSocketConns[i] in clientSocketConns.Values;
      assert forall i | i in serviceSocketConns :: serviceSocketConns[i] in serviceSocketConns.Values;
      table[id].Write(Frame(m.value.rawData));
      return true;
    }

    /**
     * ProxySocketDataHandler: reads the stream frame by frame, each through a reader of its own, and
     * dispatches every frame, until it panics: on a message, or on the end of the stream.
     */
    method ProxySocketData(fromClientSide: bool, stream: Conn) returns (panic: Panic)
      requires Valid() && NonEmpty(stream.chunks)
      modifies stream, if fromClientSide then serviceSocketConns.Values else clientSocketConns.Values
      ensures Valid()
      ensures Target(fromClientSide)
           == DispatchAll(old(Target(fromClientSide)), FreshRun(old(stream.chunks)).frames).0
      ensures panic
           == if DispatchAll(old(Target(fromClientSide)), FreshRun(old(stream.chunks)).frames).1
              then StreamEnded(FreshRun(old(stream.chunks)).error) else BadMessage
      ensures Target(!fromClientSide) == old(Target(!fromClientSide))
    {
      hide FrameStep, FreshStep, FreshRun, ParseFrame, Flatten, NonEmpty, Dispatch, Target, Valid, ViewOf;
      ghost var all := FreshRun(stream.chunks);
      while true
        invariant Valid() && NonEmpty(stream.chunks)
        invariant clientSocketConns == old(clientSocketConns)
        invariant serviceSocketConns == old(serviceSocketConns)
        invariant Target(!fromClientSide) == old(Target(!fromClientSide))
        invariant all.error == FreshRun(stream.chunks).error
        invariant DispatchAll(old(Target(fromClientSide)), all.frames)
               == DispatchAll(Target(fromClientSide), FreshRun(stream.chunks).frames)
        decreases |Flatten(stream.chunks)|
      {
        ghost var before := stream.chunks;
        FreshRound(before);
        var reader := new Reader(stream);
        var res := ReadOneFrame(reader);
        if res.Fail? {
          return StreamEnded(res.error);
        }
        assert FreshRun(before).frames[1..] == FreshRun(stream.chunks).frames;
        var ok := HandleMessage(fromClientSide, res.data);
        if !ok {
          return BadMessage;
        }
      }
    }
  }

  // ---------------------------------------------------------------- the tunnel's view of the tables

  function ServiceView(st: Tunnel.State): View
    requires Tunnel.ServiceTableInv(st)
  {
    map id | id in st.serviceConns :: st.links[st.serviceConns[id]].service.value.out
  }

  function ClientView(st: Tunnel.State): View
    requires Tunnel.ClientTableInv(st)
  {
    map id | id in st.clientConns :: st.links[st.clientConns[id]].client.out
  }

  /** Entries of the service table are connections of their own. */
  lemma ServiceViewUpdated(st: Tunnel.State, id: RequestId, l: Link)
    requires Tunnel.ServiceTableInv(st) && id in st.serviceConns && l.service.Some?
    requires var st' := st.(links := st.links[st.serviceConns[id] := l]); Tunnel.ServiceTableInv(st')
    ensures var st' := st.(links := st.links[st.serviceConns[id] := l]);
            ServiceView(st') == ServiceView(st)[id := l.service.value.out]
  {
    hide LinkInv;
    var st' := st.(links := st.links[st.serviceConns[id] := l]);
    forall other | other in st.serviceConns && other != id
      ensures ServiceView(st')[other] == ServiceView(st)[other]
    {
      assert st.serviceConns[other] != st.serviceConns[id];
    }
  }

  lemma ClientViewUpdated(st: Tunnel.State, id: RequestId, l: Link)
    requires Tunnel.ClientTableInv(st) && id in st.clientConns
    requires var st' := st.(links := st.links[st.clientConns[id] := l]); Tunnel.ClientTableInv(st')
    ensures var st' := st.(links := st.links[st.clientConns[id] := l]);
            ClientView(st') == ClientView(st)[id := l.client.out]
  {
    var st' := st.(links := st.links[st.clientConns[id] := l]);
    forall other | other in st.clientConns && other != id
      ensures ClientView(st')[other] == ClientView(st)[other]
    {
      assert st.clientConns[other] != st.clientConns[id];
    }
  }

  /** A step that leaves a connection's client socket alone leaves the client view alone. */
  lemma ClientViewKept(st: Tunnel.State, c: nat, l: Link)
    requires Tunnel.ClientTableInv(st) && c in st.links && l.client.out == st.links[c].client.out
    requires Tunnel.ClientTableInv(st.(links := st.links[c := l]))
    ensures ClientView(st.(links := st.links[c := l])) == ClientView(st)
  {
  }

  lemma ServiceViewKept(st: Tunnel.State, c: nat, l: Link)
    requires Tunnel.ServiceTableInv(st) && c in st.links && l.service == st.links[c].service
    requires Tunnel.ServiceTableInv(st.(links := st.links[c := l]))
    ensures ServiceView(st.(links := st.links[c := l])) == ServiceView(st)
  {
  }

  /** Delivering a data message in the tunnel is the data handler's dispatch on the service table. */
  lemma DeliveryIsDispatch(st: Tunnel.State, s: Step)
    requires Tunnel.Inv(st) && Tunnel.Enabled(st, s) && s.DeliverToService?
    ensures var st' := Tunnel.Apply(st, s);
            && Tunnel.Inv(st')
            && Dispatch(ServiceView(st), ParseFrame(st.links[s.link].data).result.data)
               == Some(ServiceView(st'))
            && ClientView(st') == ClientView(st)
  {
    hide LinkInv, ParseFrame, UnmarshalServiceData, Frame, Tunnel.Enabled, Tunnel.Apply, HasId, Id,
      Tunnel.ClientTableInv, Tunnel.ServiceTableInv, Tunnel.DistinctIds, Tunnel.LinksInv;
    Tunnel.StepKeepsInv(st, s);
    Tunnel.DeliveryEffect(st, s);
    var l := st.links[s.link];
    var l' := PutService(TakeData(l), DataHead(l).rawData);
    ServiceViewUpdated(st, DataHead(l).requestId, l');
    ClientViewKept(st, s.link, l');
  }

  /** Delivering a response is the data handler's dispatch on the client table. */
  lemma DeliveryBackIsDispatch(st: Tunnel.State, s: Step)
    requires Tunnel.Inv(st) && Tunnel.Enabled(st, s) && s.DeliverToClient?
    ensures var st' := Tunnel.Apply(st, s);
            && Tunnel.Inv(st')
            && Dispatch(ClientView(st), ParseFrame(st.links[s.link].resp).result.data)
               == Some(ClientView(st'))
            && ServiceView(st') == ServiceView(st)
  {
    hide LinkInv, ParseFrame, UnmarshalServiceData, Frame, Tunnel.Enabled, Tunnel.Apply, HasId, Id,
      Tunnel.ClientTableInv, Tunnel.ServiceTableInv, Tunnel.DistinctIds, Tunnel.LinksInv;
    Tunnel.StepKeepsInv(st, s);
    Tunnel.DeliveryBackEffect(st, s);
    var l := st.links[s.link];
    var l' := PutClient(TakeResp(l), RespHead(l).rawData);
    ClientViewUpdated(st, RespHead(l).requestId, l');
    ServiceViewKept(st, s.link, l');
  }

  lemma ServiceViewOpened(st: Tunnel.State, st': Tunnel.State, c: nat)
    requires Tunnel.ServiceTableInv(st) && Tunnel.ServiceTableInv(st')
    requires c in st.links && st.links[c].service.None?
    requires c in st'.links && st'.links[c].service.Some?
    requires st'.links == st.links[c := st'.links[c]]
    requires st'.serviceConns == st.serviceConns[st'.links[c].service.value.id := c]
    ensures ServiceView(st')
         == ServiceView(st)[st'.links[c].service.value.id := st'.links[c].service.value.out]
  {
    hide HasId, Id;
  }

  lemma ClientViewSame(st: Tunnel.State, st': Tunnel.State, c: nat)
    requires Tunnel.ClientTableInv(st) && Tunnel.ClientTableInv(st')
    requires c in st.links && c in st'.links && st'.links[c].client == st.links[c].client
    requires st'.links == st.links[c := st'.links[c]] && st'.clientConns == st.clientConns
    ensures ClientView(st') == ClientView(st)
  {
    hide HasId, Id;
  }

  /** Opening a service connection in the tunnel is the init handler's effect on the service table. */
  lemma OpeningIsOpenIn(st: Tunnel.State, s: Step)
    requires Tunnel.Inv(st) && Tunnel.Enabled(st, s) && s.OpenServiceConn?
    ensures var st' := Tunnel.Apply(st, s);
            && Tunnel.Inv(st')
            && OpenIn(ServiceView(st), ParseFrame(st.links[s.link].init).result.data)
               == Some(ServiceView(st'))
            && ClientView(st') == ClientView(st)
  {
    hide LinkInv, ParseFrame, UnmarshalSocketInit, CanTakeData, CanTakeResp, CanAnnounce, CanForward, CanReturn,
      Tunnel.ClientTableInv, Tunnel.ServiceTableInv, Tunnel.DistinctIds, Tunnel.LinksInv;
    Tunnel.StepKeepsInv(st, s);
    var st' := Tunnel.Apply(st, s);
    ServiceViewOpened(st, st', s.link);
    ClientViewSame(st, st', s.link);
  }

  // ---------------------------------------------------------------- messages that overtake a set-up

  /** A data message makes its handler panic exactly when its service connection is not open yet. */
  lemma DataPanicsIff(steps: seq<Step>, c: nat)
    requires Tunnel.Exec(steps).Some? && c in Tunnel.Exec(steps).value.links
    requires CanTakeData(Tunnel.Exec(steps).value.links[c])
    ensures var st := Tunnel.Exec(steps).value;
            && Tunnel.ServiceTableInv(st)
            && (Dispatch(ServiceView(st), ParseFrame(st.links[c].data).result.data) == None
                <==> OpenServiceConn(c) !in steps)
  {
    hide Tunnel.Exec, LinkInv, ParseFrame, UnmarshalServiceData, Frame;
    Tunnel.ReachableInv(steps);
    Tunnel.RunOpened(steps, c);
    var st := Tunnel.Exec(steps).value;
    Tunnel.LinkOfInv(st, c);
    DataHeadIsOwn(st.links[c]);
    Tunnel.OwnEntry(st, c);
  }

  /** A response message makes its handler panic exactly when its client is not in the table yet. */
  lemma ResponsePanicsIff(steps: seq<Step>, c: nat)
    requires Tunnel.Exec(steps).Some? && c in Tunnel.Exec(steps).value.links
    requires CanTakeResp(Tunnel.Exec(steps).value.links[c])
    ensures var st := Tunnel.Exec(steps).value;
            && Tunnel.ClientTableInv(st)
            && (Dispatch(ClientView(st), ParseFrame(st.links[c].resp).result.data) == None
                <==> OpenClientConn(c) !in steps)
  {
    hide Tunnel.Exec, LinkInv, ParseFrame, UnmarshalServiceData, Frame;
    Tunnel.ReachableInv(steps);
    Tunnel.RunOpened(steps, c);
    var st := Tunnel.Exec(steps).value;
    Tunnel.LinkOfInv(st, c);
    RespHeadIsOwn(st.links[c]);
    Tunnel.OwnEntry(st, c);
  }

  /** A connection set up and one frame sent, all before the service side has read its init request. */
  function Hasty(init: bytes, uuid: bytes, peer: bytes, p: bytes): seq<Step> {
    [Connect(0), ClientSend(0, Frame(init)), AnnounceClient(0, uuid, peer), OpenClientConn(0),
     ClientSend(0, Frame(p)), ForwardFrame(0)]
  }

  lemma HeaderOfOne(p: Payload)
    requires |Frame(p)| <= BUFFER
    ensures FullRead(Stream([], [Frame(p)]), HEADER) == Got(Frame(p)[..HEADER], Stream(p, []))
    ensures p != [] ==> ReadSome(Stream(p, []), |p|) == Got(p, Stream([], []))
  {
    FrameHeader(p);
    hide Frame, FromBigEndian, FullRead;
    var f := Frame(p);
    LeftOfOne(f, HEADER);
    FullReadTakesPrefix(Stream([], [f]), HEADER);
    assert Pending(Stream([], [f])) == f by { assert f + [] == f; }
    assert p[..|p|] == p && p[|p|..] == [];
  }

  lemma LeftOfOne(f: bytes, n: nat)
    requires 0 < n <= |f| <= BUFFER && n < BUFFER
    ensures FullRead(Stream([], [f]), n).stream == Stream(f[n..], [])
  {
    hide FullRead;
    var none: seq<bytes> := [];
    assert [f][1..] == none;
    AfterRefill([f], n);
    BufferedRead(f, [], n);
  }

  lemma OneFrameIsRead(p: Payload)
    requires |Frame(p)| <= BUFFER
    ensures FreshStep([Frame(p)]) == Fresh(Ok(p), [], [])
    ensures InitStep([Frame(p)]) == InitRead(Ok(p), true, [], [])
  {
    hide Frame, FreshStep, FullRead, ReadSome, FromBigEndian;
    var f, none: seq<bytes> := Frame(p), [];
    assert f + [] == f && [f] + none == [f];
    FirstOfChunk(p, [], none);
    FrameHeader(p);
    HeaderOfOne(p);
    assert p + seq(0, _ => 0) == p;
  }

  /** Such a run can happen, and its first data message finds no connection. */
  lemma HastyDataPanics(m: SocketInit, uuid: bytes, peer: bytes, p: Payload)
    requires |Frame(MarshalSocketInit(m))| <= BUFFER && |Frame(p)| <= BUFFER
    requires |MarshalSocketService(Request(m, uuid, peer))| < MAX_SLICE
    requires |MarshalServiceData(ServiceData(Request(m, uuid, peer).requestId, p))| < MAX_SLICE
    ensures var steps := Hasty(MarshalSocketInit(m), uuid, peer, p);
            Tunnel.Exec(steps).Some?
            && var st := Tunnel.Exec(steps).value;
            && 0 in st.links && CanTakeData(st.links[0]) && Tunnel.ServiceTableInv(st)
            && Dispatch(ServiceView(st), ParseFrame(st.links[0].data).result.data) == None
  {
    var init := MarshalSocketInit(m);
    var steps := Hasty(init, uuid, peer, p);
    HastyLink(m, uuid, peer, p);
    HastyRun(m, uuid, peer, p);
    hide Tunnel.Exec, CanTakeData, Dispatch, MarshalSocketInit, MarshalSocketService, MarshalServiceData, Frame,
      Request, Announce, Forward, CanAnnounce, CanForward, ServiceView, Tunnel.ServiceTableInv, ParseFrame, Hasty;
    HastyOpensNothing(init, uuid, peer, p);
    DataPanicsIff(steps, 0);
  }

  lemma HastyOpensNothing(init: bytes, uuid: bytes, peer: bytes, p: bytes)
    ensures OpenServiceConn(0) !in Hasty(init, uuid, peer, p)
  {
    hide Frame;
  }

  lemma HastyLink(m: SocketInit, uuid: bytes, peer: bytes, p: Payload)
    requires |Frame(MarshalSocketInit(m))| <= BUFFER && |Frame(p)| <= BUFFER
    requires |MarshalSocketService(Request(m, uuid, peer))| < MAX_SLICE
    requires |MarshalServiceData(ServiceData(Request(m, uuid, peer).requestId, p))| < MAX_SLICE
    ensures var l1 := ClientSends(NEW_LINK, Frame(MarshalSocketInit(m)));
            && CanAnnounce(l1, uuid, peer)
            && var l2 := Announce(l1, uuid, peer);
            && l2.phase == Announced(Request(m, uuid, peer))
            && var l4 := ClientSends(OpenClient(l2), Frame(p));
            && CanForward(l4) && CanTakeData(Forward(l4))
  {
    var init := MarshalSocketInit(m);
    hide Frame, FreshStep, InitStep, ParseFrame, MarshalSocketInit, UnmarshalSocketInit, MarshalSocketService,
      MarshalServiceData, UnmarshalServiceData, Request, CanForward, Forward, CanTakeData;
    OneFrameIsRead(init);
    SocketInitRoundTrip(m);
    assert [] + [Frame(init)] == [Frame(init)];
    var l2 := Announce(ClientSends(NEW_LINK, Frame(init)), uuid, peer);
    HastyForward(OpenClient(l2), p);
  }

  lemma HastyForward(l: Link, p: Payload)
    requires l.phase.Open? && l.client.chunks == [] && l.data == [] && |Frame(p)| <= BUFFER
    requires |MarshalServiceData(ServiceData(Id(l), p))| < MAX_SLICE
    ensures var l' := ClientSends(l, Frame(p));
            CanForward(l') && CanTakeData(Forward(l'))
  {
    OneFrameIsRead(p);
    var d := ServiceData(Id(l), p);
    ServiceDataRoundTrip(d);
    ParseFrameOfFrame(MarshalServiceData(d), []);
    hide Frame, FreshStep, ParseFrame, MarshalServiceData, UnmarshalServiceData;
    assert [] + [Frame(p)] == [Frame(p)];
    assert [] + Frame(MarshalServiceData(d)) == Frame(MarshalServiceData(d)) + [];
  }

  lemma HastyRun(m: SocketInit, uuid: bytes, peer: bytes, p: Payload)
    requires var l1 := ClientSends(NEW_LINK, Frame(MarshalSocketInit(m)));
             && CanAnnounce(l1, uuid, peer)
             && Announce(l1, uuid, peer).phase == Announced(Request(m, uuid, peer))
             && CanForward(ClientSends(OpenClient(Announce(l1, uuid, peer)), Frame(p)))
    ensures var l1 := ClientSends(NEW_LINK, Frame(MarshalSocketInit(m)));
            var l4 := ClientSends(OpenClient(Announce(l1, uuid, peer)), Frame(p));
            var run := Tunnel.Exec(Hasty(MarshalSocketInit(m), uuid, peer, p));
            run.Some? && run.value.links == map[0 := Forward(l4)]
  {
    FrameNotEmpty(MarshalSocketInit(m));
    FrameNotEmpty(p);
    hide Frame, CanAnnounce, Announce, CanForward, Forward, MarshalSocketInit, Request, Tunnel.Exec, ClientSends,
      CanTakeData, CanTakeResp, CanOpenService, CanReturn;
    HastyStart(MarshalSocketInit(m), Request(m, uuid, peer), uuid, peer);
    var s3 := HastySetUp(MarshalSocketInit(m), uuid, peer);
    var s4, s5 := s3 + [OpenClientConn(0)], s3 + [OpenClientConn(0)] + [ClientSend(0, Frame(p))];
    var l3 := OpenClient(Announce(ClientSends(NEW_LINK, Frame(MarshalSocketInit(m))), uuid, peer));
    SentKeepsPhase(l3, Frame(p));
    Tunnel.ExecNext(s3, OpenClientConn(0));
    Tunnel.ExecNext(s4, ClientSend(0, Frame(p)));
    Tunnel.ExecNext(s5, ForwardFrame(0));
    assert s5 + [ForwardFrame(0)] == Hasty(MarshalSocketInit(m), uuid, peer, p);
  }

  function HastySetUp(init: bytes, uuid: bytes, peer: bytes): seq<Step> {
    [Connect(0), ClientSend(0, Frame(init)), AnnounceClient(0, uuid, peer)]
  }

  lemma HastyStart(init: bytes, req: SocketService, uuid: bytes, peer: bytes)
    requires var l1 := ClientSends(NEW_LINK, Frame(init));
             CanAnnounce(l1, uuid, peer) && Announce(l1, uuid, peer).phase == Announced(req)
    ensures var l1 := ClientSends(NEW_LINK, Frame(init));
            var run := Tunnel.Exec(HastySetUp(init, uuid, peer));
            run.Some? && run.value.links == map[0 := Announce(l1, uuid, peer)]
  {
    FrameNotEmpty(init);
    hide Frame, CanAnnounce, Announce, CanForward, Forward, Tunnel.Exec, ClientSends, CanTakeData, CanTakeResp,
      CanOpenService, CanReturn;
    SentKeepsPhase(NEW_LINK, Frame(init));
    NoSteps();
    Tunnel.ExecNext([], Connect(0));
    assert [] + [Connect(0)] == [Connect(0)];
    var s1, s2 := [Connect(0)], [Connect(0), ClientSend(0, Frame(init))];
    Tunnel.ExecNext(s1, ClientSend(0, Frame(init)));
    assert s1 + [ClientSend(0, Frame(init))] == s2;
    Tunnel.ExecNext(s2, AnnounceClient(0, uuid, peer));
    assert s2 + [AnnounceClient(0, uuid, peer)] == HastySetUp(init, uuid, peer);
  }

  lemma NoSteps()
    ensures Tunnel.Exec([]) == Some(Tunnel.INITIAL)
  {
  }

  lemma SentKeepsPhase(l: Link, data: bytes)
    ensures ClientSends(l, data).phase == l.phase
  {
  }

  // ---------------------------------------------------------------- a frame each way

  /** One step of the only connection. */
  lemma OnlyLinkNext(steps: seq<Step>, s: Step, l: Link)
    requires Tunnel.Exec(steps).Some? && Tunnel.Exec(steps).value.links == map[0 := l]
    requires s.link == 0 && Tunnel.Enabled(Tunnel.Exec(steps).value, s)
    ensures Tunnel.Exec(steps + [s]).Some? && LinkEnabled(Some(l), s)
    ensures Tunnel.Exec(steps + [s]).value.links == map[0 := LinkApply(Some(l), s)]
    ensures LinkInv(l) && LinkInv(LinkApply(Some(l), s))
  {
    hide Tunnel.Exec, Tunnel.Enabled, Tunnel.Apply, LinkInv, LinkEnabled, LinkApply, Tunnel.Inv;
    Tunnel.ReachableInv(steps);
    var st := Tunnel.Exec(steps).value;
    Tunnel.StepStaysInOwnLink(st, s);
    Tunnel.ExecNext(steps, s);
    Tunnel.ReachableInv(steps + [s]);
    Tunnel.LinkOfInv(st, 0);
    Tunnel.LinkOfInv(Tunnel.Exec(steps + [s]).value, 0);
  }

  /** The frame that is under way reaches the service's connection. */
  lemma FrameReachesService(steps: seq<Step>, l: Link, p: bytes)
    requires Tunnel.Exec(steps).Some? && Tunnel.Exec(steps).value.links == map[0 := l]
    requires OpenServiceConn(0) !in steps && HasId(l) && l.data != []
    requires l.client.consumed == [p] && l.client.returned == [] && l.client.out == [] && l.resp == []
    ensures var steps' := steps + [OpenServiceConn(0)] + [DeliverToService(0)];
            && Tunnel.Exec(steps').Some?
            && var links := Tunnel.Exec(steps').value.links;
            && links.Keys == {0}
            && var l' := links[0];
            && LinkInv(l') && l'.client == l.client && l'.resp == [] && l'.phase == l.phase
            && l'.service == Some(Service(Id(l), [], [], [], Frame(p), [p]))
  {
    hide Tunnel.Exec, Tunnel.Enabled, LinkInv, Frame, ParseFrame, UnmarshalServiceData, UnmarshalSocketInit;
    Tunnel.HandlersEnabledIff(steps, 0);
    OnlyLinkNext(steps, OpenServiceConn(0), l);
    OpenedService(l);
    var l1 := OpenService(l);
    var steps1 := steps + [OpenServiceConn(0)];
    Tunnel.HandlersEnabledIff(steps1, 0);
    OnlyLinkNext(steps1, DeliverToService(0), l1);
    DataComes(l1);
    assert [] + Frame(p) == Frame(p) && [] + [p] == [p];
    assert PutService(TakeData(l1), p).service == Some(Service(Id(l), [], [], [], Frame(p), [p]));
  }

  lemma OpenedService(l: Link)
    requires LinkInv(l) && CanOpenService(l)
    ensures HasId(l) && OpenService(l).service == Some(Service(Id(l), [], [], [], [], []))
  {
    hide LinkInv, ParseFrame, UnmarshalSocketInit;
    OpenServiceKeeps(l);
  }

  /** What the service sends reaches the client's connection as one frame. */
  lemma ReadReachesClient(steps: seq<Step>, l: Link, d: bytes)
    requires Tunnel.Exec(steps).Some? && Tunnel.Exec(steps).value.links == map[0 := l]
    requires OpenClientConn(0) in steps && HasId(l) && l.resp == [] && l.client.returned == [] && l.client.out == []
    requires l.service.Some? && l.service.value.id == Id(l)
    requires l.service.value.chunks == [] && l.service.value.taken == []
    requires 0 < |d| <= 40960 && |MarshalServiceData(ServiceData(Id(l), d))| < MAX_SLICE
    ensures var steps' := steps + [ServiceSend(0, d)] + [ReadService(0)] + [DeliverToClient(0)];
            && Tunnel.Exec(steps').Some?
            && var links := Tunnel.Exec(steps').value.links;
            && links.Keys == {0}
            && links[0].client.out == Frame(d) && links[0].client.returned == [d]
            && links[0].service.Some? && links[0].service.value.out == l.service.value.out
  {
    hide Tunnel.Exec, LinkInv, Frame, ParseFrame, UnmarshalServiceData, MarshalServiceData, LinkEnabled, ReadSome,
      Tunnel.HasServiceConn, Tunnel.HasClientConn, CanTakeData, CanTakeResp, CanOpenService, CanForward, CanAnnounce;
    OnlyLinkNext(steps, ServiceSend(0, d), l);
    var l1 := ServiceSends(l, d);
    assert [] + [d] == [d];
    OneRead(d);
    var steps1 := steps + [ServiceSend(0, d)];
    OnlyLinkNext(steps1, ReadService(0), l1);
    var l2 := Return(l1);
    FrameNotEmpty(MarshalServiceData(ServiceData(Id(l), d)));
    var steps2 := steps1 + [ReadService(0)];
    Tunnel.HandlersEnabledIff(steps2, 0);
    OnlyLinkNext(steps2, DeliverToClient(0), l2);
    RespComes(l2);
  }

  lemma OneRead(d: bytes)
    requires 0 < |d| <= 40960
    ensures ReadSome(Stream([], [d]), SERVICE_READ) == Got(d, Stream([], []))
  {
  }

  /** There are runs in which a frame is delivered each way. */
  lemma FramesBothWays(m: SocketInit, uuid: bytes, peer: bytes, p: Payload, d: bytes)
    requires |Frame(MarshalSocketInit(m))| <= BUFFER && |Frame(p)| <= BUFFER && 0 < |d| <= 40960
    requires |MarshalSocketService(Request(m, uuid, peer))| < MAX_SLICE
    requires |MarshalServiceData(ServiceData(Request(m, uuid, peer).requestId, p))| < MAX_SLICE
    requires |MarshalServiceData(ServiceData(Request(m, uuid, peer).requestId, d))| < MAX_SLICE
    ensures var steps := Hasty(MarshalSocketInit(m), uuid, peer, p) + [OpenServiceConn(0)] + [DeliverToService(0)]
                         + [ServiceSend(0, d)] + [ReadService(0)] + [DeliverToClient(0)];
            && Tunnel.Exec(steps).Some?
            && var links := Tunnel.Exec(steps).value.links;
            && 0 in links && links[0].service.Some?
            && links[0].service.value.out == Frame(p) && links[0].client.out == Frame(d)
  {
    hide Tunnel.Exec, MarshalSocketInit, MarshalSocketService, MarshalServiceData, Frame, Request, Hasty, LinkInv;
    var l := HastyEnds(m, uuid, peer, p);
    var steps := Hasty(MarshalSocketInit(m), uuid, peer, p);
    HastyOpensNothing(MarshalSocketInit(m), uuid, peer, p);
    FrameReachesService(steps, l, p);
    var steps' := steps + [OpenServiceConn(0)] + [DeliverToService(0)];
    var links := Tunnel.Exec(steps').value.links;
    assert links == map[0 := links[0]];
    ReadReachesClient(steps', links[0], d);
  }

  lemma HastyEnds(m: SocketInit, uuid: bytes, peer: bytes, p: Payload) returns (l: Link)
    requires |Frame(MarshalSocketInit(m))| <= BUFFER && |Frame(p)| <= BUFFER
    requires |MarshalSocketService(Request(m, uuid, peer))| < MAX_SLICE
    requires |MarshalServiceData(ServiceData(Request(m, uuid, peer).requestId, p))| < MAX_SLICE
    ensures var steps := Hasty(MarshalSocketInit(m), uuid, peer, p);
            OpenClientConn(0) in steps && Tunnel.Exec(steps).Some? && Tunnel.Exec(steps).value.links == map[0 := l]
    ensures HasId(l) && Id(l) == Request(m, uuid, peer).requestId && l.data != [] && l.resp == []
    ensures l.client.consumed == [p] && l.client.returned == [] && l.client.out == []
  {
    hide Tunnel.Exec, MarshalSocketInit, MarshalSocketService, MarshalServiceData, Frame, Request, Announce, Forward,
      CanAnnounce, CanForward, CanTakeData, Hasty, LinkInv, ClientSends;
    HastyLink(m, uuid, peer, p);
    HastyRun(m, uuid, peer, p);
    HastyState(m, uuid, peer, p);
    var l1 := ClientSends(NEW_LINK, Frame(MarshalSocketInit(m)));
    l := Forward(ClientSends(OpenClient(Announce(l1, uuid, peer)), Frame(p)));
  }

  lemma HastyState(m: SocketInit, uuid: bytes, peer: bytes, p: Payload)
    requires |Frame(MarshalSocketInit(m))| <= BUFFER && |Frame(p)| <= BUFFER
    requires var l1 := ClientSends(NEW_LINK, Frame(MarshalSocketInit(m)));
             && CanAnnounce(l1, uuid, peer)
             && Announce(l1, uuid, peer).phase == Announced(Request(m, uuid, peer))
             && CanForward(ClientSends(OpenClient(Announce(l1, uuid, peer)), Frame(p)))
    ensures OpenClientConn(0) in Hasty(MarshalSocketInit(m), uuid, peer, p)
    ensures var l1 := ClientSends(NEW_LINK, Frame(MarshalSocketInit(m)));
            var l := Forward(ClientSends(OpenClient(Announce(l1, uuid, peer)), Frame(p)));
            && HasId(l) && Id(l) == Request(m, uuid, peer).requestId && l.data != [] && l.resp == []
            && l.client.consumed == [p] && l.client.returned == [] && l.client.out == []
  {
    hide Frame, FreshStep, InitStep, MarshalSocketInit, UnmarshalSocketInit, MarshalSocketService, MarshalServiceData,
      Request, UnmarshalServiceData;
    OneFrameIsRead(MarshalSocketInit(m));
    OneFrameIsRead(p);
    assert [] + [Frame(MarshalSocketInit(m))] == [Frame(MarshalSocketInit(m))] && [] + [Frame(p)] == [Frame(p)];
    FrameNotEmpty(MarshalServiceData(ServiceData(Request(m, uuid, peer).requestId, p)));
    assert Hasty(MarshalSocketInit(m), uuid, peer, p)[3] == OpenClientConn(0);
  }
}

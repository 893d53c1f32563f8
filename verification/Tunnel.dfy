/**
 * The socket tunnel between a client-side and a service-side gateway: any number of connections,
 * interleaved step by step. The destination of every message is looked up in a connection table by
 * the request id found in the message's bytes. The main results: the tables never send a byte astray,
 * so each connection runs exactly as if it were alone, and each connection's byte histories agree.
 */
module Tunnel {
  import opened Bytes
  import opened Frames
  import Bufio
  import FrameReaders
  import opened Links
  import opened Messages

  /** `clientConns` and `serviceConns` are the two gateways' tables: request id to connection. */
  datatype State = State(links: map<nat, Link>,
                         clientConns: map<RequestId, nat>, serviceConns: map<RequestId, nat>)

  const INITIAL: State := State(map[], map[], map[])

  function Look(st: State, c: nat): Option<Link> {
    if c in st.links then Some(st.links[c]) else None
  }

  /** The uuid makes a new request id differ from all earlier ones. */
  predicate FreshId(st: State, id: RequestId) {
    forall c | c in st.links && HasId(st.links[c]) :: Id(st.links[c]) != id
  }

  predicate HasServiceConn(st: State, id: RequestId) {
    && id in st.serviceConns
    && st.serviceConns[id] in st.links && st.links[st.serviceConns[id]].service.Some?
  }

  predicate HasClientConn(st: State, id: RequestId) {
    id in st.clientConns && st.clientConns[id] in st.links
  }

  /** A data step needs the connection of its message's id in the table; a missing one would be nil. */
  predicate Enabled(st: State, s: Step) {
    if s.Connect? then s.link !in st.links
    else
      && s.link in st.links
      && var l := st.links[s.link];
      match s
      case ClientSend(_, data) => data != []
      case AnnounceClient(_, uuid, peer) =>
        CanAnnounce(l, uuid, peer) && FreshId(st, Announce(l, uuid, peer).phase.req.requestId)
      case OpenClientConn(_) => l.phase.Announced?
      case ForwardFrame(_) => CanForward(l)
      case OpenServiceConn(_) => CanOpenService(l)
      case DeliverToService(_) => CanTakeData(l) && HasServiceConn(st, DataHead(l).requestId)
      case ServiceSend(_, data) => l.service.Some? && data != []
      case ReadService(_) => CanReturn(l)
      case DeliverToClient(_) => CanTakeResp(l) && HasClientConn(st, RespHead(l).requestId)
  }

  function Apply(st: State, s: Step): State
    requires Enabled(st, s)
  {
    match s
    case Connect(c) => st.(links := st.links[c := NEW_LINK])
    case ClientSend(c, data) => st.(links := st.links[c := ClientSends(st.links[c], data)])
    case AnnounceClient(c, uuid, peer) => st.(links := st.links[c := Announce(st.links[c], uuid, peer)])
    case OpenClientConn(c) =>
      st.(links := st.links[c := OpenClient(st.links[c])],
          clientConns := st.clientConns[st.links[c].phase.req.requestId := c])
    case ForwardFrame(c) => st.(links := st.links[c := Forward(st.links[c])])
    case OpenServiceConn(c) =>
      var l := OpenService(st.links[c]);
      st.(links := st.links[c := l], serviceConns := st.serviceConns[l.service.value.id := c])
    case DeliverToService(c) =>
      var m := DataHead(st.links[c]);
      var taken := st.links[c := TakeData(st.links[c])];
      var to := st.serviceConns[m.requestId];
      st.(links := taken[to := PutService(taken[to], m.rawData)])
    case ServiceSend(c, data) => st.(links := st.links[c := ServiceSends(st.links[c], data)])
    case ReadService(c) => st.(links := st.links[c := Return(st.links[c])])
    case DeliverToClient(c) =>
      var m := RespHead(st.links[c]);
      var taken := st.links[c := TakeResp(st.links[c])];
      var to := st.clientConns[m.requestId];
      st.(links := taken[to := PutClient(taken[to], m.rawData)])
  }

  /** The state after a run, or None when some step of it was not enabled. */
  function Exec(steps: seq<Step>): Option<State> {
    if steps == [] then Some(INITIAL)
    else
      var last := steps[|steps| - 1];
      match Exec(steps[..|steps| - 1])
      case None => None
      case Some(st) => if Enabled(st, last) then Some(Apply(st, last)) else None
  }

  // ---------------------------------------------------------------- the tables

  predicate ClientTableInv(st: State) {
    && (forall id | id in st.clientConns ::
          && st.clientConns[id] in st.links
          && st.links[st.clientConns[id]].phase.Open? && Id(st.links[st.clientConns[id]]) == id)
    && (forall c | c in st.links && st.links[c].phase.Open? :: Id(st.links[c]) in st.clientConns)
  }

  predicate ServiceTableInv(st: State) {
    && (forall id | id in st.serviceConns ::
          && st.serviceConns[id] in st.links
          && var l := st.links[st.serviceConns[id]];
          && l.service.Some? && HasId(l) && Id(l) == id)
    && (forall c | c in st.links && st.links[c].service.Some? ::
          HasId(st.links[c]) && Id(st.links[c]) in st.serviceConns)
  }

  predicate DistinctIds(st: State) {
    forall c, d | c in st.links && d in st.links && HasId(st.links[c]) && HasId(st.links[d])
      :: Id(st.links[c]) == Id(st.links[d]) ==> c == d
  }

  predicate LinksInv(st: State) {
    forall c | c in st.links :: LinkInv(st.links[c])
  }

  predicate Inv(st: State) {
    ClientTableInv(st) && ServiceTableInv(st) && DistinctIds(st) && LinksInv(st)
  }

  /**
   * Although destinations are looked up by an id in the message, every step changes its own connection
   * only, in the way the connection would change if there were no other.
   */
  lemma StepStaysInOwnLink(st: State, s: Step)
    requires Inv(st) && Enabled(st, s)
    ensures LinkEnabled(Look(st, s.link), s)
    ensures Apply(st, s).links == st.links[s.link := LinkApply(Look(st, s.link), s)]
  {
    hide LinkInv, ParseFrame, CanTakeData, CanTakeResp, DataHead, RespHead, TakeData, TakeResp,
      CanAnnounce, Announce, CanForward, Forward, CanOpenService, OpenService, CanReturn, Return,
      PutService, PutClient, ClientSends, ServiceSends, FreshId;
    match s
    case DeliverToService(c) =>
      DataHeadIsOwn(st.links[c]);
      assert st.serviceConns[DataHead(st.links[c]).requestId] == c;
      DataStays(st.links[c]);
    case DeliverToClient(c) =>
      RespHeadIsOwn(st.links[c]);
      assert st.clientConns[RespHead(st.links[c]).requestId] == c;
    case _ =>
  }

  lemma DataStays(l: Link)
    ensures TakeData(l).service == l.service
  {
  }

  /** How a step can change what the tables are about. */
  lemma LinkShape(l: Link, s: Step)
    requires LinkInv(l) && LinkEnabled(Some(l), s) && !s.Connect?
    ensures var l' := LinkApply(Some(l), s);
            && (s.AnnounceClient? ==>
                  l.phase.Accepted? && l' == Announce(l, s.uuid, s.peer) && l'.phase.Announced?)
            && (s.OpenClientConn? ==> l'.phase == Open(l.phase.req))
            && (!s.AnnounceClient? && !s.OpenClientConn? ==> l'.phase == l.phase)
            && (s.OpenServiceConn? ==>
                  HasId(l) && l' == OpenService(l) && l'.service.Some? && l'.service.value.id == Id(l))
            && (!s.OpenServiceConn? ==> l'.service.Some? == l.service.Some?)
  {
    hide LinkInv, ParseFrame, CanTakeData, CanTakeResp, DataHead, RespHead, CanForward,
      CanOpenService, ServiceRead, FrameReaders.InitStep;
    if s.OpenServiceConn? {
      OpenServiceKeeps(l);
    }
  }

  lemma LinksStepKeeps(st: State, s: Step)
    requires Inv(st) && Enabled(st, s)
    ensures LinksInv(Apply(st, s))
  {
    hide LinkInv, LinkEnabled, LinkApply, Enabled, Apply, ClientTableInv, ServiceTableInv;
    StepStaysInOwnLink(st, s);
    LinkStepKeeps(Look(st, s.link), s);
  }

  lemma TablesAfter(st: State, s: Step)
    requires Inv(st) && Enabled(st, s)
    ensures var st' := Apply(st, s);
            && (s.OpenClientConn? ==> st'.clientConns == st.clientConns[Id(st.links[s.link]) := s.link])
            && (!s.OpenClientConn? ==> st'.clientConns == st.clientConns)
            && (s.OpenServiceConn? ==>
                  HasId(st.links[s.link]) &&
                  st'.serviceConns == st.serviceConns[Id(st.links[s.link]) := s.link])
            && (!s.OpenServiceConn? ==> st'.serviceConns == st.serviceConns)
            && (s.AnnounceClient? ==>
                  FreshId(st, Announce(st.links[s.link], s.uuid, s.peer).phase.req.requestId))
  {
    hide LinkInv, ParseFrame, CanTakeData, CanTakeResp, DataHead, RespHead, CanAnnounce, CanForward,
      CanOpenService, CanReturn, Announce, Forward, OpenService, Return, TakeData, TakeResp, PutService,
      PutClient, ClientSends, ServiceSends, ClientTableInv, ServiceTableInv, DistinctIds;
    if s.OpenServiceConn? {
      OpenServiceKeeps(st.links[s.link]);
    }
  }

  /** What a step does to the tables, to its connection's phase and to its service connection. */
  lemma StepEffect(st: State, s: Step)
    requires Inv(st) && Enabled(st, s)
    ensures var st' := Apply(st, s);
            && s.link in st'.links
            && st'.links == st.links[s.link := st'.links[s.link]]
            && var l' := st'.links[s.link];
            && (s.Connect? ==> s.link !in st.links && l' == NEW_LINK)
            && (!s.Connect? ==>
                  && s.link in st.links
                  && var l := st.links[s.link];
                  && (s.AnnounceClient? ==> !HasId(l) && l'.phase.Announced? && FreshId(st, Id(l')))
                  && (s.OpenClientConn? ==> HasId(l) && l'.phase == Open(l.phase.req))
                  && (!s.AnnounceClient? && !s.OpenClientConn? ==> l'.phase == l.phase)
                  && (s.OpenServiceConn? ==> HasId(l) && l'.service.Some?)
                  && (!s.OpenServiceConn? ==> l'.service.Some? == l.service.Some?))
  {
    hide LinkInv, LinkApply, LinkEnabled, Apply, ClientTableInv, ServiceTableInv, DistinctIds;
    StepStaysInOwnLink(st, s);
    TablesAfter(st, s);
    if s.Connect? {
      NewLinkIsConnect(s);
    } else {
      LinkShape(st.links[s.link], s);
    }
  }

  lemma ClientTableStep(st: State, s: Step)
    requires Inv(st) && Enabled(st, s)
    ensures ClientTableInv(Apply(st, s))
  {
    hide LinkInv, Enabled, Apply, ServiceTableInv, LinksInv, DistinctIds, FreshId;
    StepEffect(st, s);
    TablesAfter(st, s);
    hide ClientTableInv;
    ClientTableFrom(st, Apply(st, s), s.link, s.OpenClientConn?);
  }

  lemma ClientTableFrom(st: State, st': State, c: nat, isOpening: bool)
    requires ClientTableInv(st) && c in st'.links && st'.links == st.links[c := st'.links[c]]
    requires c !in st.links ==> !st'.links[c].phase.Open? && !isOpening
    requires c in st.links && !isOpening ==>
               st.links[c].phase.Open? == st'.links[c].phase.Open?
               && (st.links[c].phase.Open? ==> Id(st.links[c]) == Id(st'.links[c]))
    requires isOpening ==>
               && HasId(st.links[c]) && st'.links[c].phase == Open(st.links[c].phase.req)
               && st'.clientConns == st.clientConns[Id(st.links[c]) := c]
    requires !isOpening ==> st'.clientConns == st.clientConns
    ensures ClientTableInv(st')
  {
  }

  lemma ServiceTableStep(st: State, s: Step)
    requires Inv(st) && Enabled(st, s)
    ensures ServiceTableInv(Apply(st, s))
  {
    hide LinkInv, Enabled, Apply, ClientTableInv, LinksInv, DistinctIds, FreshId;
    StepEffect(st, s);
    TablesAfter(st, s);
    ServiceTableFrom(st, Apply(st, s), s.link, s.OpenServiceConn?);
  }

  lemma ServiceTableFrom(st: State, st': State, c: nat, isOpening: bool)
    requires ServiceTableInv(st) && c in st'.links && st'.links == st.links[c := st'.links[c]]
    requires c !in st.links ==> st'.links[c].service.None? && !isOpening
    requires c in st.links && st.links[c].service.Some? ==>
               HasId(st.links[c]) && HasId(st'.links[c]) && Id(st'.links[c]) == Id(st.links[c])
               && st'.links[c].service.Some?
    requires c in st.links && !isOpening ==> st'.links[c].service.Some? == st.links[c].service.Some?
    requires isOpening ==>
               && HasId(st.links[c]) && HasId(st'.links[c]) && Id(st'.links[c]) == Id(st.links[c])
               && st'.links[c].service.Some? && st'.serviceConns == st.serviceConns[Id(st.links[c]) := c]
    requires !isOpening ==> st'.serviceConns == st.serviceConns
    ensures ServiceTableInv(st')
  {
  }

  lemma DistinctIdsStep(st: State, s: Step)
    requires Inv(st) && Enabled(st, s)
    ensures DistinctIds(Apply(st, s))
  {
    hide LinkInv, Enabled, Apply, ClientTableInv, ServiceTableInv;
    StepEffect(st, s);
  }

  lemma NewLinkIsConnect(s: Step)
    requires s.Connect?
    ensures LinkApply(None, s) == NEW_LINK
  {
  }

  /** Every step keeps the tables and the connections consistent. */
  lemma StepKeepsInv(st: State, s: Step)
    requires Inv(st) && Enabled(st, s)
    ensures Inv(Apply(st, s))
  {
    hide Enabled, Apply, ClientTableInv, ServiceTableInv, DistinctIds, LinksInv;
    LinksStepKeeps(st, s);
    ClientTableStep(st, s);
    ServiceTableStep(st, s);
    DistinctIdsStep(st, s);
  }

  /** Where a data message goes: into the service connection of the connection it came from. */
  lemma DeliveryEffect(st: State, s: Step)
    requires Inv(st) && Enabled(st, s) && s.DeliverToService?
    ensures s.link in st.links && CanTakeData(st.links[s.link])
    ensures var l := st.links[s.link];
            var id := DataHead(l).requestId;
            && id in st.serviceConns && st.serviceConns[id] == s.link && l.service.Some?
            && Apply(st, s) == st.(links := st.links[s.link := PutService(TakeData(l), DataHead(l).rawData)])
  {
    hide LinkInv, ParseFrame, DataHead, PutService, CanTakeData;
    DataHeadIsOwn(st.links[s.link]);
    assert st.serviceConns[DataHead(st.links[s.link]).requestId] == s.link;
  }

  lemma DeliveryBackEffect(st: State, s: Step)
    requires Inv(st) && Enabled(st, s) && s.DeliverToClient?
    ensures s.link in st.links && CanTakeResp(st.links[s.link])
    ensures var l := st.links[s.link];
            var id := RespHead(l).requestId;
            && id in st.clientConns && st.clientConns[id] == s.link
            && Apply(st, s) == st.(links := st.links[s.link := PutClient(TakeResp(l), RespHead(l).rawData)])
  {
    hide LinkInv, ParseFrame, RespHead, PutClient, CanTakeResp;
    RespHeadIsOwn(st.links[s.link]);
    assert st.clientConns[RespHead(st.links[s.link]).requestId] == s.link;
  }

  /** Every reachable state has consistent tables and consistent connections. */
  lemma {:induction false} ReachableInv(steps: seq<Step>)
    ensures Exec(steps).Some? ==> Inv(Exec(steps).value)
  {
    hide Enabled, Apply, Inv;
    if steps == [] {
      InitialInv();
    } else {
      ReachableInv(steps[..|steps| - 1]);
      var before := Exec(steps[..|steps| - 1]);
      if before.Some? && Enabled(before.value, steps[|steps| - 1]) {
        StepKeepsInv(before.value, steps[|steps| - 1]);
      }
    }
  }

  lemma InitialInv()
    ensures Inv(INITIAL)
  {
  }

  lemma LinkOfInv(st: State, c: nat)
    requires Inv(st) && c in st.links
    ensures LinkInv(st.links[c])
  {
    hide LinkInv;
  }

  // ---------------------------------------------------------------- isolation

  /** The steps of connection `c`, in order. */
  function Own(steps: seq<Step>, c: nat): seq<Step> {
    if steps == [] then []
    else
      var own := Own(steps[..|steps| - 1], c);
      var last := steps[|steps| - 1];
      if last.link == c then own + [last] else own
  }

  datatype LinkRun = Stuck | At(link: Option<Link>)

  /** A connection that runs alone. */
  function LinkExec(steps: seq<Step>): LinkRun {
    if steps == [] then At(None)
    else
      var last := steps[|steps| - 1];
      match LinkExec(steps[..|steps| - 1])
      case Stuck => Stuck
      case At(l) => if LinkEnabled(l, last) then At(Some(LinkApply(l, last))) else Stuck
  }

  lemma LinkExecSnoc(steps: seq<Step>, s: Step)
    ensures LinkExec(steps + [s])
         == match LinkExec(steps)
            case Stuck => Stuck
            case At(l) => if LinkEnabled(l, s) then At(Some(LinkApply(l, s))) else Stuck
  {
    hide LinkEnabled, LinkApply;
    assert (steps + [s])[..|steps|] == steps;
  }

  /**
   * Isolation: in every run of the tunnel, what a connection has sent, received and under way is
   * exactly what its own steps produce when run alone; the steps of the others might not exist.
   */
  lemma {:induction false} Isolation(steps: seq<Step>, c: nat)
    requires Exec(steps).Some?
    ensures LinkExec(Own(steps, c)) == At(Look(Exec(steps).value, c))
  {
    hide Enabled, Apply, LinkEnabled, LinkApply, Inv;
    if steps != [] {
      var init, last := steps[..|steps| - 1], steps[|steps| - 1];
      Isolation(init, c);
      ReachableInv(init);
      var st := Exec(init).value;
      StepStaysInOwnLink(st, last);
      if last.link == c {
        LinkExecSnoc(Own(init, c), last);
      }
    }
  }

  // ---------------------------------------------------------------- transparency

  /**
   * In every reachable state, for every connection: the service socket holds the frames the client
   * sent behind its init frame, in order, but for those under way; the client socket holds one frame
   * for each read from the service, but for those under way.
   */
  lemma TunnelTransparent(steps: seq<Step>, c: nat)
    requires Exec(steps).Some? && c in Exec(steps).value.links
    requires Exec(steps).value.links[c].service.Some?
    ensures var l := Exec(steps).value.links[c];
            var client, service := l.client, l.service.value;
            && |service.delivered| <= |client.consumed|
            && EncodeAll(client.consumed)
               == service.out + EncodeAll(client.consumed[|service.delivered|..])
            && InitFrame(l) + service.out <= client.sent
            && (l.data == [] ==> EncodeAll(client.consumed) == service.out)
            && |client.returned| <= |service.taken|
            && EncodeAll(service.taken)
               == client.out + EncodeAll(service.taken[|client.returned|..])
            && Flatten(client.returned) <= service.sent
            && ParseAll(client.out) == Frames(client.returned, EOF)
  {
    hide Exec, EncodeAll, ParseAll, Flatten, ClientTableInv, ServiceTableInv, DistinctIds;
    ReachableInv(steps);
    ForwardTransparent(Exec(steps).value.links[c]);
    ReturnTransparent(Exec(steps).value.links[c]);
  }

  /** A registered request id leads to the connection that announced it, on both gateways. */
  lemma TablesLeadHome(steps: seq<Step>, id: RequestId)
    requires Exec(steps).Some?
    ensures var st := Exec(steps).value;
            && (id in st.clientConns ==>
                  && st.clientConns[id] in st.links
                  && HasId(st.links[st.clientConns[id]]) && Id(st.links[st.clientConns[id]]) == id)
            && (id in st.serviceConns ==>
                  && st.serviceConns[id] in st.links
                  && HasId(st.links[st.serviceConns[id]]) && Id(st.links[st.serviceConns[id]]) == id)
            && (id in st.clientConns && id in st.serviceConns ==>
                  st.clientConns[id] == st.serviceConns[id])
  {
    hide Exec, LinksInv;
    ReachableInv(steps);
  }

  // ---------------------------------------------------------------- what the order of steps tells

  /** The tables' entries of one connection are there exactly when the steps that make them have been. */
  ghost predicate OpenedBy(st: State, steps: seq<Step>, c: nat) {
    && (OpenServiceConn(c) in steps <==> c in st.links && st.links[c].service.Some?)
    && (OpenClientConn(c) in steps <==> c in st.links && st.links[c].phase.Open?)
  }

  lemma OpenedByStep(st: State, steps: seq<Step>, s: Step, c: nat)
    requires Inv(st) && Enabled(st, s) && OpenedBy(st, steps, c)
    ensures OpenedBy(Apply(st, s), steps + [s], c)
  {
    hide Inv, Enabled, Apply;
    StepEffect(st, s);
    assert forall t: Step :: t in steps + [s] <==> t in steps || t == s;
    OpeningStep(st, s);
  }

  lemma OpeningStep(st: State, s: Step)
    requires Inv(st) && Enabled(st, s)
    ensures s.OpenServiceConn? ==> s == OpenServiceConn(s.link)
    ensures s.OpenClientConn? ==> s == OpenClientConn(s.link)
  {
    hide *;
  }

  lemma {:induction false} RunOpened(steps: seq<Step>, c: nat)
    requires Exec(steps).Some?
    ensures OpenedBy(Exec(steps).value, steps, c)
  {
    hide Enabled, Apply, Inv, OpenedBy;
    if steps == [] {
      NothingOpened(c);
    } else {
      var before, last := steps[..|steps| - 1], steps[|steps| - 1];
      RunOpened(before, c);
      ReachableInv(before);
      OpenedByStep(Exec(before).value, before, last, c);
      assert steps == before + [last];
    }
  }

  lemma NothingOpened(c: nat)
    ensures OpenedBy(INITIAL, [], c)
  {
  }

  /** An id is in a table exactly when its own connection has been entered. */
  lemma OwnEntry(st: State, c: nat)
    requires Inv(st) && c in st.links && HasId(st.links[c])
    ensures Id(st.links[c]) in st.serviceConns <==> st.links[c].service.Some?
    ensures Id(st.links[c]) in st.clientConns <==> st.links[c].phase.Open?
  {
    hide LinkInv;
  }

  lemma ExecNext(steps: seq<Step>, s: Step)
    requires Exec(steps).Some? && Enabled(Exec(steps).value, s)
    ensures Exec(steps + [s]) == Some(Apply(Exec(steps).value, s))
  {
    hide Enabled, Apply;
    assert (steps + [s])[..|steps|] == steps;
  }

  /**
   * When the steps of the data and init handlers can be taken in a reachable state: a message whenever
   * bytes are under way and its destination has been opened, an opening once for each announcement.
   */
  lemma HandlersEnabledIff(steps: seq<Step>, c: nat)
    requires Exec(steps).Some? && c in Exec(steps).value.links
    ensures var st := Exec(steps).value;
            var l := st.links[c];
            && (Enabled(st, DeliverToService(c)) <==> l.data != [] && OpenServiceConn(c) in steps)
            && (Enabled(st, DeliverToClient(c)) <==> l.resp != [] && OpenClientConn(c) in steps)
            && (Enabled(st, OpenServiceConn(c)) <==> HasId(l) && OpenServiceConn(c) !in steps)
            && (Enabled(st, OpenClientConn(c)) <==> HasId(l) && OpenClientConn(c) !in steps)
  {
    hide Exec, LinkInv;
    ReachableInv(steps);
    RunOpened(steps, c);
    var st := Exec(steps).value;
    LinkOfInv(st, c);
    HandlerSteps(st, c);
  }

  lemma HandlerSteps(st: State, c: nat)
    requires Inv(st) && c in st.links && LinkInv(st.links[c])
    ensures var l := st.links[c];
            && (Enabled(st, DeliverToService(c)) <==> l.data != [] && l.service.Some?)
            && (Enabled(st, DeliverToClient(c)) <==> l.resp != [] && l.phase.Open?)
            && (Enabled(st, OpenServiceConn(c)) <==> HasId(l) && l.service.None?)
            && (Enabled(st, OpenClientConn(c)) <==> HasId(l) && !l.phase.Open?)
  {
    hide LinkInv, ParseFrame, UnmarshalServiceData, CanOpenService, DataHead, RespHead;
    var l := st.links[c];
    InitComes(l);
    NoBytesNoMessage();
    if l.data != [] { DataComes(l); }
    if l.resp != [] { RespComes(l); }
    if HasId(l) { OwnEntry(st, c); }
    OwnDestination(st, c);
  }

  lemma NoBytesNoMessage()
    ensures ParseFrame([]).result.Fail?
  {
  }

  /** The destination that an id names has what the handlers ask of it. */
  lemma OwnDestination(st: State, c: nat)
    requires Inv(st) && c in st.links
    ensures HasId(st.links[c]) ==>
              && (HasServiceConn(st, Id(st.links[c])) <==> st.links[c].service.Some?)
              && (HasClientConn(st, Id(st.links[c])) <==> st.links[c].phase.Open?)
  {
    hide LinkInv;
    if HasId(st.links[c]) { OwnEntry(st, c); }
  }

  /** The steps on the sockets: sending any time, reading when there is a frame to read, or any byte. */
  lemma SocketsEnabledIff(steps: seq<Step>, c: nat, data: bytes)
    requires Exec(steps).Some? && c in Exec(steps).value.links
    ensures var st := Exec(steps).value;
            var l := st.links[c];
            && (Enabled(st, ClientSend(c, data)) <==> data != [])
            && (Enabled(st, ServiceSend(c, data)) <==> OpenServiceConn(c) in steps && data != [])
            && (Enabled(st, ForwardFrame(c)) <==>
                  OpenClientConn(c) in steps
                  && exists p: Payload, tail: bytes :: FrameComes(l, p, tail))
            && (Enabled(st, ReadService(c)) <==>
                  OpenServiceConn(c) in steps && l.service.Some? && l.service.value.chunks != []
                  && var s := l.service.value;
                     |MarshalServiceData(ServiceData(s.id, ServiceRead(s).data))| < MAX_SLICE)
  {
    hide Exec, LinkInv, FrameComes;
    ReachableInv(steps);
    RunOpened(steps, c);
    var st := Exec(steps).value;
    LinkOfInv(st, c);
    hide Inv, FrameReaders.FreshStep, ServiceRead, MarshalServiceData;
    ForwardIff(st.links[c]);
  }

  /** A frame stands at the front of the client's socket, its chunks fit it, and it can be passed on. */
  ghost predicate FrameComes(l: Link, p: Payload, tail: bytes) {
    && HasId(l) && Flatten(l.client.chunks) == Frame(p) + tail
    && FrameReaders.FrameFits(l.client.chunks, 8, 8 + |p|)
    && |MarshalServiceData(ServiceData(Id(l), p))| < MAX_SLICE
  }

  lemma ForwardIff(l: Link)
    requires LinkInv(l)
    ensures CanForward(l) <==> l.phase.Open? && exists p: Payload, tail: bytes :: FrameComes(l, p, tail)
  {
    hide FrameComes;
    if CanForward(l) {
      ForwardComes(l);
    }
    forall p: Payload, tail: bytes | FrameComes(l, p, tail) ensures l.phase.Open? ==> CanForward(l) {
      ComesForward(l, p, tail);
    }
  }

  lemma ForwardComes(l: Link)
    requires LinkInv(l) && CanForward(l)
    ensures exists p: Payload, tail: bytes :: FrameComes(l, p, tail)
  {
    hide FrameReaders.FreshStep, ParseFrame, Flatten, Frame, MarshalServiceData, NonEmpty, FrameReaders.FrameFits;
    var chunks := l.client.chunks;
    assert NonEmpty(chunks);
    FrameReaders.FreshStepReads(chunks);
    ParsedFrameIsPrefix(Flatten(chunks));
    var p, tail := FrameReaders.FreshStep(chunks).result.data, ParseFrame(Flatten(chunks)).rest;
    FrameReaders.FreshStepReadsOn(chunks, p, tail);
    FrameReaders.ReadOnLosesNothingIff(chunks, 8, 8 + |p|);
    assert FrameComes(l, p, tail);
  }

  lemma ComesForward(l: Link, p: Payload, tail: bytes)
    requires LinkInv(l) && FrameComes(l, p, tail)
    ensures l.phase.Open? ==> CanForward(l)
  {
    hide FrameReaders.FreshStep, ParseFrame, Flatten, Frame, MarshalServiceData, NonEmpty, FrameReaders.FrameFits;
    var chunks := l.client.chunks;
    assert NonEmpty(chunks);
    FrameReaders.FreshStepReadsOn(chunks, p, tail);
    FrameReaders.ReadOnLosesNothingIff(chunks, 8, 8 + |p|);
  }

  /**
   * A new connection can come at any time, and be announced once its init request has arrived in chunks
   * that the gateway's first read can take, under an id that no other connection has.
   */
  lemma AnnounceEnabledIff(steps: seq<Step>, c: nat, uuid: bytes, peer: bytes, m: SocketInit, tail: bytes)
    requires Exec(steps).Some? && c in Exec(steps).value.links
    requires Flatten(Exec(steps).value.links[c].client.chunks) == Frame(MarshalSocketInit(m)) + tail
    requires MarshalSocketInit(m) != [] && 8 + |MarshalSocketInit(m)| < 4096
    ensures var st := Exec(steps).value;
            var l, n := st.links[c], 8 + |MarshalSocketInit(m)|;
            var id := m.userId + [46] + m.serviceId + [46] + uuid;
            Enabled(st, AnnounceClient(c, uuid, peer))
            <==> && l.phase.Accepted?
                 && Bufio.Uncut(l.client.chunks, 8, n) && Bufio.ChunkEnds(l.client.chunks, n)
                 && |MarshalSocketService(SocketService(m.serviceId, id, peer))| < MAX_SLICE
                 && forall d | d in st.links && HasId(st.links[d]) :: Id(st.links[d]) != id
    ensures forall d: nat :: Enabled(Exec(steps).value, Connect(d)) <==> d !in Exec(steps).value.links
  {
    hide Exec, LinkInv, Flatten, Frame, MarshalSocketInit, MarshalSocketService, Bufio.Uncut, Bufio.ChunkEnds;
    ReachableInv(steps);
    var st := Exec(steps).value;
    LinkOfInv(st, c);
    var l := st.links[c];
    AnnounceIff(l, uuid, peer, m, tail);
    if CanAnnounce(l, uuid, peer) {
      AnnouncementAsks(l, uuid, peer, m, tail);
    }
    hide CanAnnounce, Announce, Inv;
  }
}

/**
 * Replication of the registries of many nodes by broadcast. Each node publishes its local updates;
 * every other node applies them as remote updates of the sender, one queue per sender and receiver;
 * and each node sweeps away the services of peers it finds absent. The main result says exactly what
 * each node knows of each other node's services in every reachable state.
 */
module Replication {
  import opened Bytes
  import opened Registry

  /**
   * `log` holds every node's published updates and `queue` those still on the way from the first to
   * the second peer. `since` is history: how many of the first peer's updates the second had received
   * when it last swept the first one away.
   */
  datatype State = State(nodes: map<Peer, View>, log: map<Peer, seq<Service>>,
                         queue: map<(Peer, Peer), seq<Service>>, since: map<(Peer, Peer), nat>)

  datatype Step =
    | Update(peer: Peer, service: Service)
    | Deliver(from: Peer, to: Peer)
    | PeerSweep(peer: Peer, available: set<Peer>)

  function Start(peers: set<Peer>): State {
    State(map p | p in peers :: EMPTY_VIEW,
          map p | p in peers :: [],
          map p, q | p in peers && q in peers :: (p, q) := [],
          map p, q | p in peers && q in peers :: (p, q) := 0)
  }

  predicate Enabled(st: State, s: Step) {
    match s
    case Update(p, _) => p in st.nodes && p in st.log
    case Deliver(p, q) => p != q && q in st.nodes && (p, q) in st.queue && st.queue[(p, q)] != []
    case PeerSweep(q, _) => q in st.nodes
  }

  /** The updates of `p` that have reached `q`. */
  function Received(st: State, p: Peer, q: Peer): seq<Service> {
    if p in st.log && (p, q) in st.queue && |st.queue[(p, q)]| <= |st.log[p]|
    then st.log[p][..|st.log[p]| - |st.queue[(p, q)]|]
    else []
  }

  function Apply(st: State, s: Step): State
    requires Enabled(st, s)
  {
    match s
    case Update(p, service) =>
      st.(nodes := st.nodes[p := Register(st.nodes[p], p, service)],
          log := st.log[p := st.log[p] + [service]],
          queue := map e | e in st.queue ::
                     if e.0 == p then st.queue[e] + [service] else st.queue[e])
    case Deliver(p, q) =>
      var service := st.queue[(p, q)][0];
      st.(nodes := st.nodes[q := Register(st.nodes[q], p, service)],
          queue := st.queue[(p, q) := st.queue[(p, q)][1..]])
    case PeerSweep(q, available) =>
      st.(nodes := st.nodes[q := Sweep(st.nodes[q], q, available)],
          since := map e | e in st.since ::
                     if e.1 == q && e.0 != q && e.0 !in available
                     then |Received(st, e.0, q)| else st.since[e])
  }

  function Exec(peers: set<Peer>, steps: seq<Step>): Option<State> {
    if steps == [] then Some(Start(peers))
    else
      var last := steps[|steps| - 1];
      match Exec(peers, steps[..|steps| - 1])
      case None => None
      case Some(st) => if Enabled(st, last) then Some(Apply(st, last)) else None
  }

  /** Every service id is updated at one node only. */
  predicate OneHome(home: ServiceId -> Peer, steps: seq<Step>) {
    forall i | 0 <= i < |steps| && steps[i].Update? :: home(steps[i].service.id) == steps[i].peer
  }

  // ---------------------------------------------------------------- what a node should know

  /** The services that remain after a list of updates. */
  function Replay(updates: seq<Service>): map<ServiceId, Service> {
    if updates == [] then map[]
    else
      var last := updates[|updates| - 1];
      var before := Replay(updates[..|updates| - 1]);
      if last.isDeleted then before - {last.id} else before[last.id := last]
  }

  /** The services a node reaches through `p`. */
  function Through(v: View, p: Peer): map<ServiceId, Service> {
    map k | k in v.owners && v.owners[k] == p && k in v.services :: v.services[k]
  }

  /** What `q` is to know of `p`: the updates received since it last swept `p` away. */
  function Known(st: State, p: Peer, q: Peer): seq<Service> {
    if p == q then if p in st.log then st.log[p] else []
    else
      var received := Received(st, p, q);
      if (p, q) in st.since && st.since[(p, q)] <= |received| then received[st.since[(p, q)]..] else []
  }

  // ---------------------------------------------------------------- the invariant

  predicate AllHome(home: ServiceId -> Peer, updates: seq<Service>, p: Peer) {
    forall i | 0 <= i < |updates| :: home(updates[i].id) == p
  }

  /** The queue from `p` to `q` is the unreceived end of the log of `p`. */
  predicate PairInv(st: State, p: Peer, q: Peer) {
    && p in st.log && (p, q) in st.queue && (p, q) in st.since
    && |st.queue[(p, q)]| <= |st.log[p]|
    && st.queue[(p, q)] == st.log[p][|st.log[p]| - |st.queue[(p, q)]|..]
    && st.since[(p, q)] <= |st.log[p]| - |st.queue[(p, q)]|
  }

  /** The maps range over the peers. */
  predicate Shape(peers: set<Peer>, st: State) {
    && st.nodes.Keys == peers && st.log.Keys == peers
    && (forall e | e in st.queue :: e.0 in peers && e.1 in peers)
    && (forall e | e in st.since :: e.0 in peers && e.1 in peers)
    && (forall p, q | p in peers && q in peers :: PairInv(st, p, q))
  }

  predicate NodeHome(home: ServiceId -> Peer, v: View) {
    Consistent(v) && forall k | k in v.owners :: v.owners[k] == home(k)
  }

  predicate HomeInv(home: ServiceId -> Peer, st: State) {
    && (forall p | p in st.log :: AllHome(home, st.log[p], p))
    && (forall q | q in st.nodes :: NodeHome(home, st.nodes[q]))
  }

  predicate KnowledgeInv(peers: set<Peer>, st: State) {
    forall p, q | p in peers && q in peers && q in st.nodes ::
      Through(st.nodes[q], p) == Replay(Known(st, p, q))
  }

  // ---------------------------------------------------------------- single updates

  lemma ReplaySnoc(updates: seq<Service>, s: Service)
    ensures Replay(updates + [s])
         == if s.isDeleted then Replay(updates) - {s.id} else Replay(updates)[s.id := s]
  {
    assert (updates + [s])[..|updates|] == updates;
  }

  /** A replay holds of each id the last update, if that is not a deletion. */
  lemma {:induction false} ReplayIsLast(updates: seq<Service>, i: nat)
    requires i < |updates| && forall j | i < j < |updates| :: updates[j].id != updates[i].id
    ensures updates[i].id in Replay(updates) <==> !updates[i].isDeleted
    ensures !updates[i].isDeleted ==> Replay(updates)[updates[i].id] == updates[i]
    decreases |updates|
  {
    var n := |updates| - 1;
    if i < n {
      ReplayIsLast(updates[..n], i);
    }
  }

  /** An update changes what is reached through its own peer, as a replay would. */
  lemma RegisterOwn(v: View, p: Peer, s: Service)
    requires Consistent(v) && (s.id in v.owners ==> v.owners[s.id] == p)
    ensures Through(Register(v, p, s), p)
         == if s.isDeleted then Through(v, p) - {s.id} else Through(v, p)[s.id := s]
  {
  }

  /** It changes nothing that is reached through another peer, as ids have one home. */
  lemma RegisterOther(v: View, p: Peer, s: Service, other: Peer)
    requires Consistent(v) && (s.id in v.owners ==> v.owners[s.id] == p) && other != p
    ensures Through(Register(v, p, s), other) == Through(v, other)
  {
  }

  lemma SweepThrough(v: View, self: Peer, available: set<Peer>, p: Peer)
    requires Consistent(v)
    ensures Through(Sweep(v, self, available), p) == if Stays(p, self, available) then Through(v, p) else map[]
  {
  }

  // ---------------------------------------------------------------- how the steps change what is known

  lemma KnownAfterUpdate(peers: set<Peer>, st: State, s: Step, p: Peer, q: Peer)
    requires Shape(peers, st) && Enabled(st, s) && s.Update? && p in peers && q in peers
    ensures Known(Apply(st, s), p, q)
         == if p == q && s.peer == p then Known(st, p, q) + [s.service] else Known(st, p, q)
  {
    assert PairInv(st, p, q);
    var st' := Apply(st, s);
    if p != q && s.peer == p {
      assert Received(st', p, q) == Received(st, p, q);
    }
  }

  lemma KnownAfterDeliver(peers: set<Peer>, st: State, s: Step, p: Peer, q: Peer)
    requires Shape(peers, st) && Enabled(st, s) && s.Deliver? && p in peers && q in peers
    ensures Known(Apply(st, s), p, q)
         == if s.from == p && s.to == q then Known(st, p, q) + [st.queue[(p, q)][0]] else Known(st, p, q)
  {
    assert PairInv(st, p, q);
    var st' := Apply(st, s);
    if s.from == p && s.to == q {
      var n := |st.log[p]| - |st.queue[(p, q)]|;
      assert st.queue[(p, q)][0] == st.log[p][n];
      assert st.log[p][..n + 1] == st.log[p][..n] + [st.log[p][n]];
      assert Received(st', p, q) == Received(st, p, q) + [st.queue[(p, q)][0]];
    } else if p != q {
      assert Received(st', p, q) == Received(st, p, q);
    }
  }

  lemma KnownAfterSweep(peers: set<Peer>, st: State, s: Step, p: Peer, q: Peer)
    requires Shape(peers, st) && Enabled(st, s) && s.PeerSweep? && p in peers && q in peers
    ensures Known(Apply(st, s), p, q)
         == if s.peer == q && !Stays(p, q, s.available) then [] else Known(st, p, q)
  {
    assert PairInv(st, p, q);
    var st' := Apply(st, s);
    if p != q {
      assert Received(st', p, q) == Received(st, p, q);
    }
  }

  // ---------------------------------------------------------------- the steps keep the invariant

  lemma ShapeStep(peers: set<Peer>, st: State, s: Step)
    requires Shape(peers, st) && Enabled(st, s)
    ensures Shape(peers, Apply(st, s))
  {
    match s
    case Update(p, service) => ShapeUpdate(peers, st, p, service);
    case Deliver(p, q) => ShapeDeliver(peers, st, p, q);
    case PeerSweep(q, available) => ShapeSweep(peers, st, q, available);
  }

  lemma ShapeUpdate(peers: set<Peer>, st: State, p: Peer, service: Service)
    requires Shape(peers, st) && Enabled(st, Update(p, service))
    ensures Shape(peers, Apply(st, Update(p, service)))
  {
    hide Register, PairInv;
    var st' := Apply(st, Update(p, service));
    forall p', q | p' in peers && q in peers
      ensures PairInv(st', p', q)
    {
      PairUpdate(st, p, service, p', q);
    }
  }

  lemma PairUpdate(st: State, p: Peer, service: Service, p': Peer, q: Peer)
    requires PairInv(st, p', q) && Enabled(st, Update(p, service))
    ensures PairInv(Apply(st, Update(p, service)), p', q)
  {
    var n := |st.log[p']| - |st.queue[(p', q)]|;
    assert (st.log[p'] + [service])[n..] == st.log[p'][n..] + [service];
  }

  lemma ShapeDeliver(peers: set<Peer>, st: State, p: Peer, q: Peer)
    requires Shape(peers, st) && Enabled(st, Deliver(p, q))
    ensures Shape(peers, Apply(st, Deliver(p, q)))
  {
    hide Register, PairInv;
    var st' := Apply(st, Deliver(p, q));
    forall p', q' | p' in peers && q' in peers
      ensures PairInv(st', p', q')
    {
      PairDeliver(st, p, q, p', q');
    }
  }

  lemma PairDeliver(st: State, p: Peer, q: Peer, p': Peer, q': Peer)
    requires PairInv(st, p', q') && Enabled(st, Deliver(p, q))
    ensures PairInv(Apply(st, Deliver(p, q)), p', q')
  {
    hide Register;
    if p' == p && q' == q {
      var n := |st.log[p]| - |st.queue[(p, q)]|;
      assert st.log[p][n..][1..] == st.log[p][n + 1..];
    }
  }

  lemma ShapeSweep(peers: set<Peer>, st: State, q: Peer, available: set<Peer>)
    requires Shape(peers, st) && Enabled(st, PeerSweep(q, available))
    ensures Shape(peers, Apply(st, PeerSweep(q, available)))
  {
    hide Sweep, PairInv;
    var st' := Apply(st, PeerSweep(q, available));
    forall p', q' | p' in peers && q' in peers
      ensures PairInv(st', p', q')
    {
      PairSweep(st, q, available, p', q');
    }
  }

  lemma PairSweep(st: State, q: Peer, available: set<Peer>, p': Peer, q': Peer)
    requires PairInv(st, p', q') && Enabled(st, PeerSweep(q, available))
    ensures PairInv(Apply(st, PeerSweep(q, available)), p', q')
  {
    hide Sweep;
  }

  lemma RegisterHome(home: ServiceId -> Peer, v: View, p: Peer, s: Service)
    requires NodeHome(home, v) && home(s.id) == p
    ensures NodeHome(home, Register(v, p, s))
  {
  }

  lemma SweepHome(home: ServiceId -> Peer, v: View, self: Peer, available: set<Peer>)
    requires NodeHome(home, v)
    ensures NodeHome(home, Sweep(v, self, available))
  {
  }

  lemma HomeStep(home: ServiceId -> Peer, peers: set<Peer>, st: State, s: Step)
    requires Shape(peers, st) && HomeInv(home, st) && Enabled(st, s)
    requires s.Update? ==> home(s.service.id) == s.peer
    ensures HomeInv(home, Apply(st, s))
  {
    hide NodeHome, Register, Sweep, PairInv;
    match s {
      case Update(p, service) => RegisterHome(home, st.nodes[p], p, service);
      case Deliver(p, q) =>
        QueueIsHome(home, peers, st, p, q);
        RegisterHome(home, st.nodes[q], p, st.queue[(p, q)][0]);
      case PeerSweep(q, available) => SweepHome(home, st.nodes[q], q, available);
    }
  }

  lemma QueueIsHome(home: ServiceId -> Peer, peers: set<Peer>, st: State, p: Peer, q: Peer)
    requires Shape(peers, st) && HomeInv(home, st) && (p, q) in st.queue && st.queue[(p, q)] != []
    ensures home(st.queue[(p, q)][0].id) == p
  {
    assert PairInv(st, p, q);
    assert st.queue[(p, q)][0] == st.log[p][|st.log[p]| - |st.queue[(p, q)]|];
  }

  lemma KnowledgeStep(home: ServiceId -> Peer, peers: set<Peer>, st: State, s: Step)
    requires Shape(peers, st) && HomeInv(home, st) && KnowledgeInv(peers, st) && Enabled(st, s)
    requires s.Update? ==> home(s.service.id) == s.peer
    ensures KnowledgeInv(peers, Apply(st, s))
  {
    forall p, q | p in peers && q in peers
      ensures Through(Apply(st, s).nodes[q], p) == Replay(Known(Apply(st, s), p, q))
    {
      KnowledgeOf(home, peers, st, s, p, q);
    }
  }

  lemma KnowledgeOf(home: ServiceId -> Peer, peers: set<Peer>, st: State, s: Step, p: Peer, q: Peer)
    requires Shape(peers, st) && HomeInv(home, st) && KnowledgeInv(peers, st) && Enabled(st, s)
    requires s.Update? ==> home(s.service.id) == s.peer
    requires p in peers && q in peers && q in Apply(st, s).nodes
    ensures Through(Apply(st, s).nodes[q], p) == Replay(Known(Apply(st, s), p, q))
  {
    hide Known, Replay, Through, Register, Sweep, Consistent, PairInv, AllHome;
    var v := st.nodes[q];
    assert NodeHome(home, v);
    match s {
      case Update(p0, service) =>
        KnownAfterUpdate(peers, st, s, p, q);
        if p0 == q {
          ReplaySnoc(Known(st, p, q), service);
          if p == q { RegisterOwn(v, q, service); } else { RegisterOther(v, q, service, p); }
        }
      case Deliver(p0, q0) =>
        KnownAfterDeliver(peers, st, s, p, q);
        QueueIsHome(home, peers, st, p0, q0);
        if q0 == q {
          var service := st.queue[(p0, q0)][0];
          ReplaySnoc(Known(st, p, q), service);
          if p == p0 { RegisterOwn(v, p0, service); } else { RegisterOther(v, p0, service, p); }
        }
      case PeerSweep(q0, available) =>
        KnownAfterSweep(peers, st, s, p, q);
        if q0 == q {
          SweepThrough(v, q, available, p);
          ReplayNothing();
        }
    }
  }

  lemma ReplayNothing()
    ensures Replay([]) == map[]
  {
  }

  lemma StartInv(home: ServiceId -> Peer, peers: set<Peer>)
    ensures Shape(peers, Start(peers)) && HomeInv(home, Start(peers)) && KnowledgeInv(peers, Start(peers))
  {
    hide Start, Replay, Through, Known, Shape, HomeInv;
    StartShape(peers);
    StartHome(home, peers);
    forall p, q | p in peers && q in peers && q in Start(peers).nodes
      ensures Through(Start(peers).nodes[q], p) == Replay(Known(Start(peers), p, q))
    {
      KnownAtStart(peers, p, q);
    }
  }

  lemma StartShape(peers: set<Peer>)
    ensures Shape(peers, Start(peers))
  {
    hide PairInv;
    forall p, q | p in peers && q in peers ensures PairInv(Start(peers), p, q) {
      StartPair(peers, p, q);
    }
  }

  lemma StartPair(peers: set<Peer>, p: Peer, q: Peer)
    requires p in peers && q in peers
    ensures PairInv(Start(peers), p, q)
  {
  }

  lemma StartHome(home: ServiceId -> Peer, peers: set<Peer>)
    ensures HomeInv(home, Start(peers))
  {
  }

  lemma KnownAtStart(peers: set<Peer>, p: Peer, q: Peer)
    requires p in peers && q in peers
    ensures Through(Start(peers).nodes[q], p) == map[] == Replay(Known(Start(peers), p, q))
  {
    assert Known(Start(peers), p, q) == [];
  }

  lemma {:induction false} ReachableInv(home: ServiceId -> Peer, peers: set<Peer>, steps: seq<Step>)
    requires OneHome(home, steps) && Exec(peers, steps).Some?
    ensures var st := Exec(peers, steps).value;
            Shape(peers, st) && HomeInv(home, st) && KnowledgeInv(peers, st)
  {
    hide Shape, HomeInv, KnowledgeInv, Enabled, Apply, Start;
    if steps == [] {
      StartInv(home, peers);
    } else {
      var before, last := steps[..|steps| - 1], steps[|steps| - 1];
      assert OneHome(home, before) by { assert forall i | 0 <= i < |before| :: before[i] == steps[i]; }
      ReachableInv(home, peers, before);
      var st := Exec(peers, before).value;
      ShapeStep(peers, st, last);
      HomeStep(home, peers, st, last);
      KnowledgeStep(home, peers, st, last);
    }
  }

  // ---------------------------------------------------------------- main results

  /**
   * In every reachable state, what a node reaches through itself is the replay of its own updates, and
   * what it reaches through any other peer is the replay of that peer's updates that it has received
   * since it last swept the peer away; deletions included.
   */
  lemma WhatNodesKnow(home: ServiceId -> Peer, peers: set<Peer>, steps: seq<Step>, p: Peer, q: Peer)
    requires OneHome(home, steps) && Exec(peers, steps).Some? && p in peers && q in peers
    ensures var st := Exec(peers, steps).value;
            && q in st.nodes && q in st.log && p in st.log
            && Through(st.nodes[q], q) == Replay(st.log[q])
            && (p != q ==>
                  && (p, q) in st.queue && (p, q) in st.since
                  && st.since[(p, q)] <= |Received(st, p, q)|
                  && Received(st, p, q) + st.queue[(p, q)] == st.log[p]
                  && Through(st.nodes[q], p) == Replay(Received(st, p, q)[st.since[(p, q)]..]))
  {
    hide Exec, Replay, Through, HomeInv, KnowledgeInv;
    ReachableInv(home, peers, steps);
    var st := Exec(peers, steps).value;
    KnowledgeAt(peers, st, q, q);
    KnowledgeAt(peers, st, p, q);
    PairSplits(st, p, q);
  }

  lemma KnowledgeAt(peers: set<Peer>, st: State, p: Peer, q: Peer)
    requires Shape(peers, st) && KnowledgeInv(peers, st) && p in peers && q in peers
    ensures q in st.nodes && Through(st.nodes[q], p) == Replay(Known(st, p, q)) && PairInv(st, p, q)
  {
    hide Through, Replay, Known, PairInv;
  }

  lemma PairSplits(st: State, p: Peer, q: Peer)
    requires PairInv(st, p, q)
    ensures Received(st, p, q) + st.queue[(p, q)] == st.log[p]
    ensures st.since[(p, q)] <= |Received(st, p, q)|
  {
  }

  predicate Mentioned(k: ServiceId, updates: seq<Service>) {
    exists i | 0 <= i < |updates| :: updates[i].id == k
  }

  lemma {:induction false} ReplayAppend(a: seq<Service>, b: seq<Service>, k: ServiceId)
    ensures Mentioned(k, b) ==> ((k in Replay(a + b) <==> k in Replay(b))
                                 && (k in Replay(b) ==> Replay(a + b)[k] == Replay(b)[k]))
    ensures !Mentioned(k, b) ==> k !in Replay(b) && (k in Replay(a + b) <==> k in Replay(a))
  {
    if b == [] {
      assert a + b == a;
    } else {
      var init, last := b[..|b| - 1], b[|b| - 1];
      ReplayAppend(a, init, k);
      assert (a + b)[..|a + b| - 1] == a + init;
      assert Mentioned(k, b) <==> Mentioned(k, init) || last.id == k by {
        assert b == init + [last];
      }
    }
  }

  /**
   * Once nothing is on the way from `p` to `q`, what `q` reaches through `p` is what `p` offers itself,
   * exactly when `p` has published every service it still offers again since `q` last swept it away;
   * so always when `q` never did.
   */
  lemma CaughtUpIff(home: ServiceId -> Peer, peers: set<Peer>, steps: seq<Step>, p: Peer, q: Peer)
    requires OneHome(home, steps) && Exec(peers, steps).Some? && p in peers && q in peers && p != q
    requires (p, q) in Exec(peers, steps).value.queue && Exec(peers, steps).value.queue[(p, q)] == []
    ensures var st := Exec(peers, steps).value;
            && p in st.nodes && q in st.nodes && p in st.log
            && (p, q) in st.since && st.since[(p, q)] <= |st.log[p]|
            && (Through(st.nodes[q], p) == Through(st.nodes[p], p)
                <==> forall k | k in Through(st.nodes[p], p) :: Mentioned(k, st.log[p][st.since[(p, q)]..]))
            && (st.since[(p, q)] == 0 ==> Through(st.nodes[q], p) == Through(st.nodes[p], p))
  {
    hide Exec, Through, Replay, Mentioned;
    WhatNodesKnow(home, peers, steps, p, q);
    WhatNodesKnow(home, peers, steps, q, p);
    var st := Exec(peers, steps).value;
    var n := st.since[(p, q)];
    assert Received(st, p, q) == st.log[p];
    SuffixReplay(st.log[p], n);
    if n == 0 {
      assert st.log[p][0..] == st.log[p];
    }
  }

  lemma SuffixReplay(log: seq<Service>, n: nat)
    requires n <= |log|
    ensures Replay(log[n..]) == Replay(log) <==> forall k | k in Replay(log) :: Mentioned(k, log[n..])
  {
    hide Replay, Mentioned;
    var a, b := log[..n], log[n..];
    assert a + b == log;
    forall k
      ensures Mentioned(k, b) ==> ((k in Replay(log) <==> k in Replay(b))
                                   && (k in Replay(b) ==> Replay(log)[k] == Replay(b)[k]))
      ensures !Mentioned(k, b) ==> k !in Replay(b)
    {
      ReplayAppend(a, b, k);
    }
  }

  lemma AfterUpdate(st: State, p: Peer, s: Service)
    requires Enabled(st, Update(p, s))
    ensures var st' := Apply(st, Update(p, s));
            && st'.nodes.Keys == st.nodes.Keys && st'.log.Keys == st.log.Keys && st'.queue.Keys == st.queue.Keys
            && (forall e | e in st.queue :: st'.queue[e] == if e.0 == p then st.queue[e] + [s] else st.queue[e])
            && (!s.isDeleted ==> s.id in Through(st'.nodes[p], p))
  {
  }

  lemma EmptyStart(p: Peer, q: Peer)
    ensures var st := Start({p, q});
            && p in st.nodes && q in st.nodes && p in st.log && q in st.log
            && (p, q) in st.queue && (q, p) in st.queue && st.queue[(p, q)] == [] && st.queue[(q, p)] == []
  {
  }

  lemma BothUpdate(p: Peer, q: Peer, s: Service)
    requires p != q && !s.isDeleted
    ensures Exec({p, q}, [Update(p, s), Update(q, s)]).Some?
    ensures var st := Exec({p, q}, [Update(p, s), Update(q, s)]).value;
            && p in st.nodes && q in st.nodes
            && (p, q) in st.queue && (q, p) in st.queue
            && st.queue[(p, q)] == [s] && st.queue[(q, p)] == [s]
  {
    hide Exec, Register, Apply, Through, Start;
    ExecNone({p, q});
    EmptyStart(p, q);
    ExecSnoc({p, q}, [], Update(p, s));
    ExecSnoc({p, q}, [Update(p, s)], Update(q, s));
    assert [] + [Update(p, s)] == [Update(p, s)];
    assert [Update(p, s)] + [Update(q, s)] == [Update(p, s), Update(q, s)];
    var st := Start({p, q});
    AfterUpdate(st, p, s);
    AfterUpdate(Apply(st, Update(p, s)), q, s);
  }

  lemma BothDeliver(st: State, p: Peer, q: Peer, s: Service)
    requires p != q && !s.isDeleted && p in st.nodes && q in st.nodes
    requires (p, q) in st.queue && (q, p) in st.queue && st.queue[(p, q)] == [s] && st.queue[(q, p)] == [s]
    ensures Enabled(st, Deliver(p, q)) && Enabled(Apply(st, Deliver(p, q)), Deliver(q, p))
    ensures var st' := Apply(Apply(st, Deliver(p, q)), Deliver(q, p));
            && p in st'.nodes && q in st'.nodes && (p, q) in st'.queue && (q, p) in st'.queue
            && st'.queue[(p, q)] == [] && st'.queue[(q, p)] == []
            && s.id in Through(st'.nodes[q], p) && s.id !in Through(st'.nodes[p], p)
  {
  }

  /** With two homes for one id the nodes can end up disagreeing with nothing on the way. */
  lemma TwoHomesDiverge(p: Peer, q: Peer, s: Service)
    requires p != q && !s.isDeleted
    ensures var run := Exec({p, q}, [Update(p, s), Update(q, s), Deliver(p, q), Deliver(q, p)]);
            && run.Some?
            && p in run.value.nodes && q in run.value.nodes
            && (p, q) in run.value.queue && (q, p) in run.value.queue
            && run.value.queue[(p, q)] == [] && run.value.queue[(q, p)] == []
            && Through(run.value.nodes[q], p) != Through(run.value.nodes[p], p)
  {
    hide Exec, Apply, Enabled;
    var two := [Update(p, s), Update(q, s)];
    BothUpdate(p, q, s);
    BothDeliver(Exec({p, q}, two).value, p, q, s);
    ExecSnoc({p, q}, two, Deliver(p, q));
    ExecSnoc({p, q}, two + [Deliver(p, q)], Deliver(q, p));
    assert two + [Deliver(p, q)] + [Deliver(q, p)]
        == [Update(p, s), Update(q, s), Deliver(p, q), Deliver(q, p)];
  }

  lemma AfterSweep(st: State, p: Peer, q: Peer, s: Service)
    requires p != q && !s.isDeleted && p in st.nodes && q in st.nodes
    requires (p, q) in st.queue && st.queue[(p, q)] == [s] && s.id in Through(st.nodes[p], p)
    ensures Enabled(st, Deliver(p, q)) && Enabled(Apply(st, Deliver(p, q)), PeerSweep(q, {}))
    ensures var st' := Apply(Apply(st, Deliver(p, q)), PeerSweep(q, {}));
            && p in st'.nodes && q in st'.nodes && (p, q) in st'.queue && st'.queue[(p, q)] == []
            && s.id in Through(st'.nodes[p], p) && s.id !in Through(st'.nodes[q], p)
  {
  }

  lemma AfterRegister(p: Peer, q: Peer, s: Service)
    requires p != q && !s.isDeleted
    ensures Exec({p, q}, [Update(p, s)]).Some?
    ensures var st := Exec({p, q}, [Update(p, s)]).value;
            && p in st.nodes && q in st.nodes
            && (p, q) in st.queue && st.queue[(p, q)] == [s] && s.id in Through(st.nodes[p], p)
  {
    hide Exec, Register, Apply, Through, Start;
    ExecNone({p, q});
    EmptyStart(p, q);
    ExecSnoc({p, q}, [], Update(p, s));
    assert [] + [Update(p, s)] == [Update(p, s)];
    AfterUpdate(Start({p, q}), p, s);
  }

  /**
   * A node that is missing for one sweep only loses its services for good, although it goes on offering
   * them: one home, nothing on the way, and the node available again.
   */
  lemma SweptServicesStayLost(p: Peer, q: Peer, s: Service)
    requires p != q && !s.isDeleted
    ensures var run := Exec({p, q}, [Update(p, s), Deliver(p, q), PeerSweep(q, {}), PeerSweep(q, {p})]);
            && run.Some?
            && p in run.value.nodes && q in run.value.nodes
            && (p, q) in run.value.queue && run.value.queue[(p, q)] == []
            && s.id in Through(run.value.nodes[p], p) && s.id !in Through(run.value.nodes[q], p)
  {
    hide Exec, Apply, Enabled;
    var one := [Update(p, s)];
    AfterRegister(p, q, s);
    var st := Exec({p, q}, one).value;
    AfterSweep(st, p, q, s);
    ExecSnoc({p, q}, one, Deliver(p, q));
    ExecSnoc({p, q}, one + [Deliver(p, q)], PeerSweep(q, {}));
    var swept := Apply(Apply(st, Deliver(p, q)), PeerSweep(q, {}));
    AfterIdleSweep(swept, p, q, s);
    ExecSnoc({p, q}, one + [Deliver(p, q)] + [PeerSweep(q, {})], PeerSweep(q, {p}));
    assert one + [Deliver(p, q)] + [PeerSweep(q, {})] + [PeerSweep(q, {p})]
        == [Update(p, s), Deliver(p, q), PeerSweep(q, {}), PeerSweep(q, {p})];
  }

  lemma AfterIdleSweep(st: State, p: Peer, q: Peer, s: Service)
    requires p != q && p in st.nodes && q in st.nodes && (p, q) in st.queue && st.queue[(p, q)] == []
    requires s.id in Through(st.nodes[p], p) && s.id !in Through(st.nodes[q], p)
    ensures Enabled(st, PeerSweep(q, {p}))
    ensures var st' := Apply(st, PeerSweep(q, {p}));
            && p in st'.nodes && q in st'.nodes && (p, q) in st'.queue && st'.queue[(p, q)] == []
            && s.id in Through(st'.nodes[p], p) && s.id !in Through(st'.nodes[q], p)
  {
  }

  /** In every reachable state each node can publish anything, receive what is on the way, and sweep. */
  lemma StepsEnabledIff(home: ServiceId -> Peer, peers: set<Peer>, steps: seq<Step>, p: Peer, q: Peer, s: Service,
                        available: set<Peer>)
    requires OneHome(home, steps) && Exec(peers, steps).Some?
    ensures var st := Exec(peers, steps).value;
            && (Enabled(st, Update(p, s)) <==> p in peers)
            && (Enabled(st, PeerSweep(q, available)) <==> q in peers)
            && (Enabled(st, Deliver(p, q)) <==>
                  p in peers && q in peers && p != q && (p, q) in st.queue && st.queue[(p, q)] != [])
  {
    hide Exec, OneHome, HomeInv, KnowledgeInv, PairInv;
    ReachableInv(home, peers, steps);
  }

  lemma ExecNone(peers: set<Peer>)
    ensures Exec(peers, []) == Some(Start(peers))
  {
  }

  lemma ExecSnoc(peers: set<Peer>, steps: seq<Step>, s: Step)
    ensures Exec(peers, steps + [s])
         == match Exec(peers, steps)
            case None => None
            case Some(st) => if Enabled(st, s) then Some(Apply(st, s)) else None
  {
    hide Enabled, Apply;
    assert (steps + [s])[..|steps|] == steps;
  }
}

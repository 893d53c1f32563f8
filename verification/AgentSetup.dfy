/**
 * Session set-up in the client-side agent. Every session dials a gateway connection of its own, but
 * keeps it in one field shared by all sessions, RemoteSocketConn, and reads that field again for its
 * connect message and when its copy loop starts. Sessions run concurrently; this module says exactly
 * for which orders of their steps every message travels on its own session's connection.
 */
module AgentSetup {
  import opened Bytes

  /** A session is named by a number, and so is the connection it dials. */
  datatype Action =
    | Dial(session: nat)
    | SendConnect(session: nat)
    | StartProxy(session: nat)
    | SendData(session: nat, msgId: bytes, content: bytes)

  datatype Item =
    | Init(session: nat)
    | Connect(session: nat)
    | Data(session: nat, msgId: bytes, content: bytes)

  /** How far a session's goroutine has come. */
  datatype Phase = Dialled | Connected | Proxying

  /** `remote` is the shared field; `captured` the connection each copy loop was started with. */
  datatype State = State(phases: map<nat, Phase>, remote: Option<nat>, captured: map<nat, nat>,
                         sent: map<nat, seq<Item>>)

  const INITIAL: State := State(map[], None, map[], map[])

  predicate Enabled(st: State, a: Action) {
    match a
    case Dial(i) => i !in st.phases
    case SendConnect(i) => i in st.phases && st.phases[i] == Dialled && st.remote.Some? && st.remote.value in st.sent
    case StartProxy(i) => i in st.phases && st.phases[i] == Connected && st.remote.Some?
    case SendData(i, _, _) =>
      i in st.phases && st.phases[i] == Proxying && i in st.captured && st.captured[i] in st.sent
  }

  function Apply(st: State, a: Action): State
    requires Enabled(st, a)
  {
    match a
    case Dial(i) =>
      State(st.phases[i := Dialled], Some(i), st.captured, st.sent[i := [Init(i)]])
    case SendConnect(i) =>
      var to := st.remote.value;
      st.(phases := st.phases[i := Connected], sent := st.sent[to := st.sent[to] + [Connect(i)]])
    case StartProxy(i) =>
      st.(phases := st.phases[i := Proxying], captured := st.captured[i := st.remote.value])
    case SendData(i, msgId, content) =>
      var to := st.captured[i];
      st.(sent := st.sent[to := st.sent[to] + [Data(i, msgId, content)]])
  }

  function Exec(actions: seq<Action>): Option<State> {
    if actions == [] then Some(INITIAL)
    else
      var last := actions[|actions| - 1];
      match Exec(actions[..|actions| - 1])
      case None => None
      case Some(st) => if Enabled(st, last) then Some(Apply(st, last)) else None
  }

  /** No message is on another session's connection. */
  predicate Separate(st: State) {
    forall to | to in st.sent :: forall k | 0 <= k < |st.sent[to]| :: st.sent[to][k].session == to
  }

  // ---------------------------------------------------------------- what can be told from the order alone

  /** The session that dialled last. */
  function LastDial(actions: seq<Action>): Option<nat> {
    if actions == [] then None
    else
      var last := actions[|actions| - 1];
      if last.Dial? then Some(last.session) else LastDial(actions[..|actions| - 1])
  }

  /** The session that had dialled last when the copy loop of session `i` started. */
  function DialAtStart(actions: seq<Action>, i: nat): Option<nat> {
    if actions == [] then None
    else
      var last := actions[|actions| - 1];
      var before := actions[..|actions| - 1];
      if last.StartProxy? && last.session == i then LastDial(before) else DialAtStart(before, i)
  }

  /**
   * No other session has dialled between a session's own dialling and its connect message, nor, if it
   * goes on to send data, between its dialling and the start of its copy loop.
   */
  predicate Undisturbed(actions: seq<Action>) {
    if actions == [] then true
    else
      var last := actions[|actions| - 1];
      var before := actions[..|actions| - 1];
      && Undisturbed(before)
      && (last.SendConnect? ==> LastDial(before) == Some(last.session))
      && (last.SendData? ==> DialAtStart(before, last.session) == Some(last.session))
  }

  lemma {:induction false} FieldsFollowOrder(actions: seq<Action>)
    requires Exec(actions).Some?
    ensures var st := Exec(actions).value;
            && st.remote == LastDial(actions)
            && forall i | i in st.captured :: DialAtStart(actions, i) == Some(st.captured[i])
  {
    if actions != [] {
      FieldsFollowOrder(actions[..|actions| - 1]);
    }
  }

  lemma SeparateStep(st: State, a: Action)
    requires Enabled(st, a)
    ensures Separate(Apply(st, a))
      <==> && (Separate(st) || (a.Dial? && Separate(Apply(st, a))))
           && (a.SendConnect? ==> st.remote.value == a.session)
           && (a.SendData? ==> st.captured[a.session] == a.session)
  {
    var st' := Apply(st, a);
    if !a.Dial? && Separate(st') {
      assert Separate(st) by {
        forall to, k | to in st.sent && 0 <= k < |st.sent[to]| ensures st.sent[to][k].session == to {
          assert st'.sent[to][k] == st.sent[to][k];
        }
      }
      match a {
        case SendConnect(i) => var to := st.remote.value; assert st'.sent[to][|st.sent[to]|] == Connect(i);
        case SendData(i, m, c) => var to := st.captured[i]; assert st'.sent[to][|st.sent[to]|] == Data(i, m, c);
        case _ =>
      }
    }
  }

  predicate SentOnlyDialled(st: State) {
    forall to | to in st.sent :: to in st.phases
  }

  lemma DialIsFresh(st: State, i: nat)
    requires SentOnlyDialled(st) && Enabled(st, Dial(i))
    ensures Separate(Apply(st, Dial(i))) <==> Separate(st)
  {
    var st' := Apply(st, Dial(i));
    if Separate(st') {
      forall to, k | to in st.sent && 0 <= k < |st.sent[to]| ensures st.sent[to][k].session == to {
        assert to != i && st'.sent[to] == st.sent[to];
      }
    }
  }

  lemma {:induction false} SentOnlyDialledAlways(actions: seq<Action>)
    requires Exec(actions).Some?
    ensures SentOnlyDialled(Exec(actions).value)
  {
    if actions != [] {
      SentOnlyDialledAlways(actions[..|actions| - 1]);
    }
  }

  /** For every run: all messages are on their own session's connection iff the order is undisturbed. */
  lemma {:induction false} SeparateIffUndisturbed(actions: seq<Action>)
    requires Exec(actions).Some?
    ensures Separate(Exec(actions).value) <==> Undisturbed(actions)
  {
    hide Enabled, Apply, Separate, LastDial, DialAtStart, SentOnlyDialled;
    if actions == [] {
      NothingSent();
    } else {
      var before, last := actions[..|actions| - 1], actions[|actions| - 1];
      SeparateIffUndisturbed(before);
      FieldsFollowOrder(before);
      SentOnlyDialledAlways(before);
      var st := Exec(before).value;
      EnabledFields(st, last);
      if last.Dial? {
        DialIsFresh(st, last.session);
      } else {
        SeparateStep(st, last);
      }
    }
  }

  lemma NothingSent()
    ensures Separate(INITIAL)
  {
  }

  lemma EnabledFields(st: State, a: Action)
    requires Enabled(st, a)
    ensures a.SendConnect? ==> st.remote.Some?
    ensures a.SendData? ==> a.session in st.captured
    ensures a.Dial? ==> a == Dial(a.session)
  {
  }

  /** Two sessions that set up at the same time are enough to cross their messages. */
  lemma InterleavedSetupsCross()
    ensures var actions := [Dial(0), Dial(1), SendConnect(0)];
            && Exec(actions).Some?
            && Connect(0) in Exec(actions).value.sent[1]
            && !Undisturbed(actions)
  {
    var a1, a2, a3 := [Dial(0)], [Dial(0), Dial(1)], [Dial(0), Dial(1), SendConnect(0)];
    assert a3[..2] == a2 && a2[..1] == a1 && a1[..0] == [];
    var s1 := Apply(INITIAL, Dial(0));
    var s2 := Apply(s1, Dial(1));
    assert Exec(a1) == Some(s1);
    assert Exec(a2) == Some(s2);
    assert s2.remote == Some(1) && s2.sent[1] == [Init(1)];
    assert Enabled(s2, SendConnect(0));
    var s3 := Apply(s2, SendConnect(0));
    assert Exec(a3) == Some(s3);
    assert s3.sent[1][1] == Connect(0);
    SeparateIffUndisturbed(a3);
  }

  // ---------------------------------------------------------------- what an undisturbed session sends

  /** The messages of session `i`, in the order of its steps. */
  function OwnItems(actions: seq<Action>, i: nat): seq<Item> {
    if actions == [] then []
    else
      var own := OwnItems(actions[..|actions| - 1], i);
      match actions[|actions| - 1]
      case Dial(j) => if j == i then own + [Init(i)] else own
      case SendConnect(j) => if j == i then own + [Connect(i)] else own
      case StartProxy(_) => own
      case SendData(j, msgId, content) => if j == i then own + [Data(i, msgId, content)] else own
  }

  /** The shape of a session: an init request, then a connect message, then data. */
  predicate SessionShape(items: seq<Item>, phase: Phase, i: nat) {
    && |items| > 0 && items[0] == Init(i)
    && (phase == Dialled ==> |items| == 1)
    && (phase != Dialled ==> |items| > 1 && items[1] == Connect(i))
    && (phase == Connected ==> |items| == 2)
    && forall k | 2 <= k < |items| :: items[k].Data? && items[k].session == i
  }

  ghost predicate SessionsInv(actions: seq<Action>, st: State) {
    && st.sent.Keys == st.phases.Keys
    && (forall i | i !in st.phases :: OwnItems(actions, i) == [])
    && forall i | i in st.phases ::
         st.sent[i] == OwnItems(actions, i) && SessionShape(st.sent[i], st.phases[i], i)
  }

  lemma OwnItemsStep(actions: seq<Action>, i: nat)
    requires actions != []
    ensures var own, last := OwnItems(actions[..|actions| - 1], i), actions[|actions| - 1];
            && (last.session != i || last.StartProxy? ==> OwnItems(actions, i) == own)
            && (last.session == i ==>
                  && (last.Dial? ==> OwnItems(actions, i) == own + [Init(i)])
                  && (last.SendConnect? ==> OwnItems(actions, i) == own + [Connect(i)])
                  && (last.SendData? ==>
                        OwnItems(actions, i) == own + [Data(i, last.msgId, last.content)]))
  {
  }

  lemma {:induction false} UndisturbedSession(actions: seq<Action>, i: nat)
    requires Exec(actions).Some? && Undisturbed(actions)
    ensures var st := Exec(actions).value;
            && st.sent.Keys == st.phases.Keys
            && (i !in st.phases ==> OwnItems(actions, i) == [])
            && (i in st.phases ==>
                  st.sent[i] == OwnItems(actions, i) && SessionShape(st.sent[i], st.phases[i], i))
  {
    if actions != [] {
      hide LastDial, DialAtStart, OwnItems, SessionShape;
      var before, last := actions[..|actions| - 1], actions[|actions| - 1];
      UndisturbedSession(before, i);
      FieldsFollowOrder(before);
      OwnItemsStep(actions, i);
      if last.session == i {
        ShapeStep(Exec(before).value, last);
      }
    }
  }

  /** In an undisturbed run each connection carries its session, complete and in order. */
  lemma UndisturbedSessions(actions: seq<Action>)
    requires Exec(actions).Some? && Undisturbed(actions)
    ensures SessionsInv(actions, Exec(actions).value)
  {
    UndisturbedSession(actions, 0);
    hide Exec, Undisturbed, OwnItems, SessionShape;
    var st := Exec(actions).value;
    forall i
      ensures i !in st.phases ==> OwnItems(actions, i) == []
      ensures i in st.phases ==> st.sent[i] == OwnItems(actions, i) && SessionShape(st.sent[i], st.phases[i], i)
    {
      UndisturbedSession(actions, i);
    }
  }

  lemma ShapeStep(st: State, a: Action)
    requires Enabled(st, a) && st.sent.Keys == st.phases.Keys
    requires a.session in st.phases ==> SessionShape(st.sent[a.session], st.phases[a.session], a.session)
    requires a.SendConnect? ==> st.remote == Some(a.session)
    requires a.SendData? ==> st.captured[a.session] == a.session
    ensures var st' := Apply(st, a);
            a.session in st'.phases && a.session in st'.sent
            && SessionShape(st'.sent[a.session], st'.phases[a.session], a.session)
  {
  }

  // ---------------------------------------------------------------- what can happen next

  predicate FieldsInv(st: State) {
    && st.sent.Keys == st.phases.Keys
    && (st.phases != map[] ==> st.remote.Some? && st.remote.value in st.sent)
    && (forall i | i in st.phases && st.phases[i] == Proxying :: i in st.captured && st.captured[i] in st.sent)
  }

  lemma {:induction false} FieldsAlways(actions: seq<Action>)
    requires Exec(actions).Some?
    ensures FieldsInv(Exec(actions).value)
  {
    if actions != [] {
      FieldsAlways(actions[..|actions| - 1]);
      FieldsStep(Exec(actions[..|actions| - 1]).value, actions[|actions| - 1]);
    }
  }

  lemma FieldsStep(st: State, a: Action)
    requires FieldsInv(st) && Enabled(st, a)
    ensures FieldsInv(Apply(st, a))
  {
  }

  /** Each session can take its steps in order, whatever the others do. */
  lemma SessionsEnabledIff(actions: seq<Action>, i: nat, msgId: bytes, content: bytes)
    requires Exec(actions).Some?
    ensures var st := Exec(actions).value;
            && (Enabled(st, Dial(i)) <==> i !in st.phases)
            && (Enabled(st, SendConnect(i)) <==> i in st.phases && st.phases[i] == Dialled)
            && (Enabled(st, StartProxy(i)) <==> i in st.phases && st.phases[i] == Connected)
            && (Enabled(st, SendData(i, msgId, content)) <==> i in st.phases && st.phases[i] == Proxying)
  {
    hide Exec;
    FieldsAlways(actions);
  }
}

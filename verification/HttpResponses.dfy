/**
 * How the client side gateway hands HTTP responses to the clients that wait for them. The request goes
 * out before its channel is entered in the table, so the response can come first; and the table is
 * searched for the id that the response's bytes carry. The main result says which client gets which
 * response in any interleaving.
 */
module HttpResponses {
  import opened Bytes
  import opened Messages

  type Id = bytes

  datatype Step =
    | Issue(id: Id)                  // the request is written to the service side
    | Wait(id: Id)                   // its channel is entered in the table and waited for
    | Respond(id: Id, body: bytes)   // the service side writes the response to a stream of its own
    | Arrive(id: Id)                 // the client side reads that stream and looks for the channel

  datatype Phase = Sent | Waiting | Answered(body: bytes)

  /**
   * The table `clientHttpDataChan` holds the ids that are Waiting. `responses` has the message of every
   * request that was responded to while it is under way, and None once it has arrived.
   */
  datatype State = State(clients: map<Id, Phase>, responses: map<Id, Option<bytes>>)

  const START: State := State(map[], map[])

  /** Ids are fresh, a client waits once, and a service answers a request once. */
  predicate Enabled(st: State, step: Step) {
    match step
    case Issue(id) => id !in st.clients
    case Wait(id) => id in st.clients && st.clients[id] == Sent
    case Respond(id, _) => id in st.clients && id !in st.responses
    case Arrive(id) => id in st.responses && st.responses[id].Some?
  }

  /** A body without an entry in the table is sent to a nil channel, which blocks for ever. */
  function Deliver(clients: map<Id, Phase>, message: bytes): map<Id, Phase> {
    match UnmarshalServiceData(message)
    case None => clients
    case Some(m) =>
      if m.requestId in clients && clients[m.requestId] == Waiting then clients[m.requestId := Answered(m.rawData)]
      else clients
  }

  function Apply(st: State, step: Step): State
    requires Enabled(st, step)
  {
    match step
    case Issue(id) => st.(clients := st.clients[id := Sent])
    case Wait(id) => st.(clients := st.clients[id := Waiting])
    case Respond(id, body) =>
      st.(responses := st.responses[id := Some(MarshalServiceData(ServiceData(id, body)))])
    case Arrive(id) => State(Deliver(st.clients, st.responses[id].value), st.responses[id := None])
  }

  /** The state after a run; None when a step of it is not enabled. */
  function Run(steps: seq<Step>): Option<State> {
    if steps == [] then Some(START)
    else
      match Run(steps[..|steps| - 1])
      case None => None
      case Some(st) => if Enabled(st, steps[|steps| - 1]) then Some(Apply(st, steps[|steps| - 1])) else None
  }

  // ---------------------------------------------------------------- what can be told from the order alone

  ghost predicate Before(steps: seq<Step>, first: Step, second: Step) {
    exists i, j | 0 <= i < j < |steps| :: steps[i] == first && steps[j] == second
  }

  lemma BeforeGrows(steps: seq<Step>, last: Step, first: Step, second: Step)
    requires Before(steps, first, second) || (first in steps && last == second)
    ensures Before(steps + [last], first, second)
  {
    var all := steps + [last];
    if Before(steps, first, second) {
      var i, j :| 0 <= i < j < |steps| && steps[i] == first && steps[j] == second;
      assert all[i] == first && all[j] == second;
    } else {
      var i :| 0 <= i < |steps| && steps[i] == first;
      assert all[i] == first && all[|steps|] == second;
    }
  }

  lemma BeforeShrinks(steps: seq<Step>, last: Step, first: Step, second: Step)
    requires Before(steps + [last], first, second)
    ensures Before(steps, first, second) || (first in steps && last == second)
  {
    var all := steps + [last];
    var i, j :| 0 <= i < j < |all| && all[i] == first && all[j] == second;
    assert steps[i] == first;
    assert j < |steps| ==> steps[j] == second;
  }

  lemma BeforeSnoc(steps: seq<Step>, last: Step, first: Step, second: Step)
    ensures Before(steps + [last], first, second)
       <==> Before(steps, first, second) || (first in steps && last == second)
  {
    hide Before;
    if Before(steps, first, second) || (first in steps && last == second) {
      BeforeGrows(steps, last, first, second);
    }
    if Before(steps + [last], first, second) {
      BeforeShrinks(steps, last, first, second);
    }
  }

  /** It waits in vain. */
  predicate Hung(st: State, id: Id) {
    id in st.clients && st.clients[id] == Waiting && id in st.responses && st.responses[id].None?
  }

  /** What the state knows of one id, from the run. */
  ghost predicate Tells(st: State, steps: seq<Step>, id: Id) {
    && (Wait(id) in steps <==> id in st.clients && st.clients[id] != Sent)
    && (Arrive(id) in steps <==> id in st.responses && st.responses[id].None?)
    && (Before(steps, Wait(id), Arrive(id)) <==> id in st.clients && st.clients[id].Answered?)
    && (Before(steps, Arrive(id), Wait(id)) <==> Hung(st, id))
    && (id in st.responses ==> id in st.clients)
  }

  /** The response under way, or got, is the one that was made for the id. */
  ghost predicate OwnResponse(st: State, steps: seq<Step>, id: Id) {
    && (id !in st.responses ==> forall body :: Respond(id, body) !in steps)
    && (id in st.responses ==> exists body :: Respond(id, body) in steps)
    && (id in st.responses && st.responses[id].Some? ==>
          forall body :: Respond(id, body) in steps
                    <==> st.responses[id] == Some(MarshalServiceData(ServiceData(id, body))))
    && (id in st.clients && st.clients[id].Answered? ==>
          && id in st.responses && st.responses[id].None?
          && forall body :: Respond(id, body) in steps <==> body == st.clients[id].body)
  }

  lemma RunStep(steps: seq<Step>)
    requires steps != [] && Run(steps).Some?
    ensures var before, last := Run(steps[..|steps| - 1]), steps[|steps| - 1];
            before.Some? && Enabled(before.value, last) && Run(steps) == Some(Apply(before.value, last))
  {
  }

  /** Bytes made for an id are delivered to that id, if it waits. */
  lemma DeliverToOwner(clients: map<Id, Phase>, id: Id, body: bytes)
    ensures Deliver(clients, MarshalServiceData(ServiceData(id, body)))
         == if id in clients && clients[id] == Waiting then clients[id := Answered(body)] else clients
  {
    ServiceDataRoundTrip(ServiceData(id, body));
    hide MarshalServiceData, UnmarshalServiceData;
  }

  lemma MarshalInjective(id: Id, a: bytes, b: bytes)
    requires MarshalServiceData(ServiceData(id, a)) == MarshalServiceData(ServiceData(id, b))
    ensures a == b
  {
    ServiceDataRoundTrip(ServiceData(id, a));
    ServiceDataRoundTrip(ServiceData(id, b));
  }

  /** An arriving response changes the client of its own id only. */
  lemma ArriveEffect(st: State, steps: seq<Step>, id: Id) returns (body: bytes)
    requires Enabled(st, Arrive(id)) && OwnResponse(st, steps, id)
    ensures Respond(id, body) in steps && (forall b | Respond(id, b) in steps :: b == body)
    ensures Apply(st, Arrive(id)).responses == st.responses[id := None]
    ensures Apply(st, Arrive(id)).clients
         == if id in st.clients && st.clients[id] == Waiting then st.clients[id := Answered(body)] else st.clients
  {
    hide MarshalServiceData, Deliver;
    body :| Respond(id, body) in steps;
    DeliverToOwner(st.clients, id, body);
    forall b | Respond(id, b) in steps ensures b == body {
      MarshalInjective(id, b, body);
    }
  }

  lemma OwnResponseStep(st: State, steps: seq<Step>, step: Step, id: Id)
    requires Enabled(st, step) && OwnResponse(st, steps, id)
    requires step.Arrive? ==> OwnResponse(st, steps, step.id)
    ensures OwnResponse(Apply(st, step), steps + [step], id)
  {
    hide MarshalServiceData, Deliver;
    assert forall body ::
        Respond(id, body) in steps + [step] <==> Respond(id, body) in steps || step == Respond(id, body);
    match step {
      case Arrive(other) =>
        hide OwnResponse;
        var body := ArriveEffect(st, steps, other);
        OwnResponseArrived(st, steps, Apply(st, step), other, body, id);
      case Respond(other, body) =>
        forall b | other == id && MarshalServiceData(ServiceData(id, b)) == MarshalServiceData(ServiceData(id, body))
          ensures b == body
        {
          MarshalInjective(id, b, body);
        }
        assert step in steps + [step];
      case _ =>
    }
  }

  lemma OwnResponseArrived(st: State, steps: seq<Step>, st': State, other: Id, body: bytes, id: Id)
    requires OwnResponse(st, steps, id) && other in st.responses && st.responses[other].Some?
    requires Respond(other, body) in steps && (forall b | Respond(other, b) in steps :: b == body)
    requires st'.responses == st.responses[other := None]
    requires st'.clients
          == if other in st.clients && st.clients[other] == Waiting then st.clients[other := Answered(body)]
             else st.clients
    ensures OwnResponse(st', steps + [Arrive(other)], id)
  {
    assert forall b :: Respond(id, b) in steps + [Arrive(other)] <==> Respond(id, b) in steps;
  }

  lemma TellsStep(st: State, steps: seq<Step>, step: Step, id: Id)
    requires Enabled(st, step) && Tells(st, steps, id)
    requires step.Arrive? ==> OwnResponse(st, steps, step.id)
    ensures Tells(Apply(st, step), steps + [step], id)
  {
    hide MarshalServiceData, Deliver, Before, OwnResponse;
    BeforeSnoc(steps, step, Wait(id), Arrive(id));
    BeforeSnoc(steps, step, Arrive(id), Wait(id));
    assert forall s: Step :: s in steps + [step] <==> s in steps || s == step;
    if step.Arrive? {
      var body := ArriveEffect(st, steps, step.id);
    }
  }

  lemma {:induction false} RunTells(steps: seq<Step>, id: Id)
    requires Run(steps).Some?
    ensures Tells(Run(steps).value, steps, id) && OwnResponse(Run(steps).value, steps, id)
    decreases |steps|
  {
    if steps != [] {
      hide Run, Tells, OwnResponse, Apply;
      RunStep(steps);
      var before, last := steps[..|steps| - 1], steps[|steps| - 1];
      RunTells(before, id);
      RunTells(before, last.id);
      OwnResponseStep(Run(before).value, before, last, id);
      TellsStep(Run(before).value, before, last, id);
      assert steps == before + [last];
    }
  }

  // ---------------------------------------------------------------- who gets what

  /**
   * A client is answered with a body exactly when that body was the response to its own request and
   * arrived after the client had begun to wait.
   */
  lemma AnsweredIffInTime(steps: seq<Step>, id: Id, body: bytes)
    requires Run(steps).Some?
    ensures var st := Run(steps).value;
            id in st.clients && st.clients[id] == Answered(body)
            <==> Respond(id, body) in steps && Before(steps, Wait(id), Arrive(id))
  {
    hide Run, Before;
    RunTells(steps, id);
  }

  /** A client hangs exactly when its response arrived before it began to wait. */
  lemma HungIffEarly(steps: seq<Step>, id: Id)
    requires Run(steps).Some?
    ensures Hung(Run(steps).value, id) <==> Before(steps, Arrive(id), Wait(id))
  {
    hide Run, Before;
    RunTells(steps, id);
  }

  lemma RunSnoc(steps: seq<Step>, step: Step)
    requires Run(steps).Some? && Enabled(Run(steps).value, step)
    ensures Run(steps + [step]) == Some(Apply(Run(steps).value, step))
  {
    assert (steps + [step])[..|steps|] == steps;
  }

  /** There are such runs. */
  lemma EarlyResponseHangs(id: Id, body: bytes)
    ensures var steps := [Issue(id), Respond(id, body), Arrive(id), Wait(id)];
            Run(steps).Some? && Hung(Run(steps).value, id)
  {
    hide Run, MarshalServiceData, Deliver;
    assert Run([]) == Some(START) by { StartsEmpty(); }
    RunSnoc([], Issue(id));
    assert [] + [Issue(id)] == [Issue(id)];
    RunSnoc([Issue(id)], Respond(id, body));
    assert [Issue(id)] + [Respond(id, body)] == [Issue(id), Respond(id, body)];
    RunSnoc([Issue(id), Respond(id, body)], Arrive(id));
    assert [Issue(id), Respond(id, body)] + [Arrive(id)] == [Issue(id), Respond(id, body), Arrive(id)];
    DeliverToOwner(map[id := Sent], id, body);
    assert Run([Issue(id), Respond(id, body), Arrive(id)]).value == State(map[id := Sent], map[id := None]);
    RunSnoc([Issue(id), Respond(id, body), Arrive(id)], Wait(id));
    assert [Issue(id), Respond(id, body), Arrive(id)] + [Wait(id)]
        == [Issue(id), Respond(id, body), Arrive(id), Wait(id)];
  }

  /** What can happen next in any run: every request once through its stages, and nothing else stops it. */
  lemma EnabledIff(steps: seq<Step>, id: Id, body: bytes)
    requires Run(steps).Some?
    ensures var st := Run(steps).value;
            && (Enabled(st, Issue(id)) <==> Issue(id) !in steps)
            && (Enabled(st, Wait(id)) <==> Issue(id) in steps && Wait(id) !in steps)
            && (Enabled(st, Respond(id, body)) <==> Issue(id) in steps && forall b :: Respond(id, b) !in steps)
            && (Enabled(st, Arrive(id)) <==> Arrive(id) !in steps && exists b :: Respond(id, b) in steps)
  {
    hide Run, Before;
    RunTells(steps, id);
    RunIssued(steps, id);
  }

  lemma {:induction false} RunIssued(steps: seq<Step>, id: Id)
    requires Run(steps).Some?
    ensures Issue(id) in steps <==> id in Run(steps).value.clients
    decreases |steps|
  {
    if steps != [] {
      hide Run, OwnResponse, MarshalServiceData, Deliver, Tells;
      RunStep(steps);
      var before, last := steps[..|steps| - 1], steps[|steps| - 1];
      RunIssued(before, id);
      RunTells(before, last.id);
      if last.Arrive? {
        var body := ArriveEffect(Run(before).value, before, last.id);
      }
      assert steps == before + [last];
    }
  }

  /** A response that is waited for is handed over. */
  lemma TimelyResponseAnswers(id: Id, body: bytes)
    ensures var steps := [Issue(id), Wait(id), Respond(id, body), Arrive(id)];
            Run(steps).Some? && Run(steps).value.clients == map[id := Answered(body)]
  {
    hide Run, MarshalServiceData, Deliver;
    StartsEmpty();
    RunSnoc([], Issue(id));
    assert [] + [Issue(id)] == [Issue(id)];
    RunSnoc([Issue(id)], Wait(id));
    assert [Issue(id)] + [Wait(id)] == [Issue(id), Wait(id)];
    RunSnoc([Issue(id), Wait(id)], Respond(id, body));
    assert [Issue(id), Wait(id)] + [Respond(id, body)] == [Issue(id), Wait(id), Respond(id, body)];
    DeliverToOwner(map[id := Waiting], id, body);
    var message := MarshalServiceData(ServiceData(id, body));
    assert Run([Issue(id), Wait(id)]).value.clients == map[id := Waiting];
    assert Run([Issue(id), Wait(id), Respond(id, body)]).value == State(map[id := Waiting], map[id := Some(message)]);
    RunSnoc([Issue(id), Wait(id), Respond(id, body)], Arrive(id));
    assert [Issue(id), Wait(id), Respond(id, body)] + [Arrive(id)]
        == [Issue(id), Wait(id), Respond(id, body), Arrive(id)];
  }

  lemma StartsEmpty()
    ensures Run([]) == Some(START)
  {
  }

  /** Nothing that happens later frees a hung client, or changes what an answered one got. */
  lemma {:induction false} SettledForGood(steps: seq<Step>, more: seq<Step>, id: Id)
    requires Run(steps).Some? && Run(steps + more).Some?
    ensures var st, st' := Run(steps).value, Run(steps + more).value;
            && (Hung(st, id) ==> Hung(st', id))
            && (id in st.clients && st.clients[id].Answered?
                ==> id in st'.clients && st'.clients[id] == st.clients[id])
    decreases |more|
  {
    hide *;
    if more == [] {
      assert steps + more == steps;
    } else {
      var before, last := more[..|more| - 1], more[|more| - 1];
      assert (steps + more)[..|steps + more| - 1] == steps + before;
      assert (steps + more)[|steps + more| - 1] == last;
      RunStep(steps + more);
      SettledForGood(steps, before, id);
      RunTells(steps + before, id);
      RunTells(steps + before, last.id);
      SettledStep(Run(steps + before).value, steps + before, last, id);
    }
  }

  lemma SettledStep(st: State, steps: seq<Step>, step: Step, id: Id)
    requires Enabled(st, step) && OwnResponse(st, steps, step.id)
    ensures var st' := Apply(st, step);
            && (Hung(st, id) ==> Hung(st', id))
            && (id in st.clients && st.clients[id].Answered?
                ==> id in st'.clients && st'.clients[id] == st.clients[id])
  {
    hide MarshalServiceData, Deliver, OwnResponse;
    if step.Arrive? {
      var body := ArriveEffect(st, steps, step.id);
    }
  }
}

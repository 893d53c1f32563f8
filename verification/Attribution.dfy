/**
 * From a URL to a usage report: the gateway looks up the service that the path names, builds a request
 * id from it, and usage accounting splits that id again. The main result: what is reported for a user
 * and a service is what the requests recorded whose paths name that user and service.
 */
module Attribution {
  import opened Bytes
  import opened RequestId
  import opened Text
  import NamePattern
  import RequestPath
  import Registry
  import Usage

  /** User and service named by a path; both empty when it is not understood, as the gateway goes on then. */
  function NamedBy(path: bytes): Info {
    match RequestPath.ExtractDetail(path)
    case None => Info([], [])
    case Some(d) => Info(d.user, d.service)
  }

  /** The request id that a gateway gives the request, if it can forward it. */
  function RequestIdFor(v: Registry.View, path: bytes, uuid: bytes): Option<bytes> {
    var who := NamedBy(path);
    if who.service !in v.owners || who.service !in v.services then None
    else
      var service := v.services[who.service];
      if |service.providers| < 1 then None else Some(Build(who.user, service.id, uuid))
  }

  lemma NamesAreDotFree(path: bytes)
    ensures Free(NamedBy(path).user, DOT) && Free(NamedBy(path).service, DOT)
  {
    if RequestPath.ExtractDetail(path).Some? {
      RequestPath.DetailNames(path);
      hide RequestPath.ExtractDetail, NamePattern.ExtractNames;
      NamePattern.NamesAreWords(path);
    }
  }

  /** In every reachable registry, the id of a request splits back into what its path names. */
  lemma RequestIdNamesPath(self: Registry.Peer, updates: seq<Registry.Update>, path: bytes, uuid: bytes)
    requires RequestIdFor(Registry.Run(self, updates), path, uuid).Some?
    ensures Extract(RequestIdFor(Registry.Run(self, updates), path, uuid).value) == Some(NamedBy(path))
  {
    hide NamedBy, Build, Extract;
    var v, who := Registry.Run(self, updates), NamedBy(path);
    Registry.AlwaysConsistent(self, updates);
    NamesAreDotFree(path);
    ExtractOfBuildIff(who.user, v.services[who.service].id, uuid);
  }

  /**
   * In every reachable registry a request is forwarded exactly when the service that its path names is
   * registered with a provider, and under an id of the user, the service and the uuid.
   */
  lemma RequestIdIff(self: Registry.Peer, updates: seq<Registry.Update>, path: bytes, uuid: bytes)
    ensures var v, who := Registry.Run(self, updates), NamedBy(path);
            var id := RequestIdFor(v, path, uuid);
            && (RequestPath.ExtractDetail(path).None? ==> who == Info([], []))
            && (RequestPath.ExtractDetail(path).Some? ==>
                  var d := RequestPath.ExtractDetail(path).value; who == Info(d.user, d.service))
            && (id.Some? <==> who.service in v.services && v.services[who.service].providers != [])
            && (id.Some? ==> id.value == who.user + [46] + who.service + [46] + uuid)
  {
    hide RequestPath.ExtractDetail, Registry.Run;
    Registry.AlwaysConsistent(self, updates);
  }

  /** Requests with different uuids have different ids, whatever else they are. */
  lemma UuidsSeparate(self: Registry.Peer, updates: seq<Registry.Update>, path: bytes, uuid: bytes, uuid': bytes)
    requires RequestIdFor(Registry.Run(self, updates), path, uuid).Some?
    ensures RequestIdFor(Registry.Run(self, updates), path, uuid')
            == RequestIdFor(Registry.Run(self, updates), path, uuid)
       <==> uuid == uuid'
  {
    hide RequestIdFor, NamedBy, Registry.Run;
    RequestIdIff(self, updates, path, uuid);
    RequestIdIff(self, updates, path, uuid');
    var who := NamedBy(path);
    var front := who.user + [46] + who.service + [46];
    assert (front + uuid)[|front|..] == uuid && (front + uuid')[|front|..] == uuid';
  }

  /** A request as a gateway meets it: its own history of registry updates, and the request's path. */
  datatype Request = Request(gateway: Registry.Peer, updates: seq<Registry.Update>, path: bytes, uuid: bytes)

  function IdOf(r: Request): Option<bytes> {
    RequestIdFor(Registry.Run(r.gateway, r.updates), r.path, r.uuid)
  }

  /** Each event but an export is recorded for a request that some gateway accepted. */
  ghost predicate Serve(events: seq<Usage.Event>, requests: seq<Request>) {
    && |requests| == |events|
    && forall i | 0 <= i < |events| :: events[i].Export? || IdOf(requests[i]) == Some(events[i].requestId)
  }

  /** What the events record for requests whose path names `who`. */
  function NamedTotal(events: seq<Usage.Event>, requests: seq<Request>, who: Info, c: Usage.Counter): nat
    requires |requests| == |events|
  {
    if events == [] then 0
    else
      var n := |events| - 1;
      NamedTotal(events[..n], requests[..n], who, c)
      + if !events[n].Export? && NamedBy(requests[n].path) == who then Usage.Weight(events[n], c) else 0
  }

  lemma {:induction false} RecordedIsNamed(
    events: seq<Usage.Event>, requests: seq<Request>, who: Info, c: Usage.Counter)
    requires Serve(events, requests)
    ensures Usage.Recorded(events, who, c) == NamedTotal(events, requests, who, c)
  {
    if events != [] {
      var n := |events| - 1;
      hide NamedBy, RequestIdFor, Extract, Usage.Weight, Registry.Run;
      RecordedIsNamed(events[..n], requests[..n], who, c);
      Usage.RecordedStep(events, who, c);
      if !events[n].Export? {
        RequestIdNamesPath(requests[n].gateway, requests[n].updates, requests[n].path, requests[n].uuid);
      }
    }
  }

  /**
   * Attribution: after any history of accepted requests and exports, what was exported and what is still
   * recorded for a user and a service add up to what the requests recorded whose paths name them, modulo
   * 2^64, and exactly when no counter overflowed.
   */
  lemma UsageGoesToNamedUser(events: seq<Usage.Event>, requests: seq<Request>, who: Info, c: Usage.Counter)
    requires Serve(events, requests) && Usage.Run(events).Some?
    ensures var l := Usage.Run(events).value;
            && Usage.Accounted(l, who, c) % U64 == NamedTotal(events, requests, who, c) % U64
            && (Usage.Accounted(l, who, c) == NamedTotal(events, requests, who, c)
                <==> forall i | 0 <= i < |Usage.Amounts(events, who, c)| ::
                       Usage.Amounts(events, who, c)[i] < U64)
  {
    hide Usage.Run, Usage.Accounted, Usage.Recorded, NamedTotal, Serve, Usage.Amounts;
    RecordedIsNamed(events, requests, who, c);
    Usage.UsageConserved(events, who, c);
  }

  /** Only data without a record can make accounting panic, never the id of an accepted request. */
  lemma AcceptedRequestPanicsIff(l: Usage.Ledger, e: Usage.Event, r: Request)
    requires e.Export? || IdOf(r) == Some(e.requestId)
    ensures Usage.Apply(l, e).None?
       <==> e.HttpData? && var who := NamedBy(r.path); RecordKey(who.service, who.user) !in l.live
  {
    hide NamedBy, RequestIdFor, RecordKey, Extract, Registry.Run;
    if !e.Export? {
      RequestIdNamesPath(r.gateway, r.updates, r.path, r.uuid);
    }
    Usage.PanicsIff(l, e);
  }
}

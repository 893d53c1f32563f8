/**
 * The service registry of one node: two maps that must agree, changed by local and remote updates and
 * by the sweep of departed peers, and read by the gateways' lookups and the management listings.
 */
module Registry {
  import opened Bytes

  type ServiceId = bytes
  type Peer = bytes

  /** A service as it is registered and broadcast; `providers` are base addresses. */
  datatype Service = Service(id: ServiceId, providers: seq<bytes>, detail: bytes, isDeleted: bool)

  /** The registry as a value: services by id, and the peer each one is reached through. */
  datatype View = View(services: map<ServiceId, Service>, owners: map<ServiceId, Peer>)

  const EMPTY_VIEW: View := View(map[], map[])

  /** One update that `peer` answers for. */
  function Register(v: View, peer: Peer, s: Service): View {
    if s.isDeleted then View(v.services - {s.id}, v.owners - {s.id})
    else View(v.services[s.id := s], v.owners[s.id := peer])
  }

  predicate Stays(owner: Peer, self: Peer, available: set<Peer>) {
    owner == self || owner in available
  }

  /** Drops every service of a peer that is neither this node nor available. */
  function Sweep(v: View, self: Peer, available: set<Peer>): View {
    View(map k | k in v.services && (k in v.owners ==> Stays(v.owners[k], self, available)) :: v.services[k],
         map k | k in v.owners && Stays(v.owners[k], self, available) :: v.owners[k])
  }

  /** The maps have the same keys, and every service is stored under its own id. */
  predicate Consistent(v: View) {
    && v.services.Keys == v.owners.Keys
    && forall k | k in v.services :: v.services[k].id == k && !v.services[k].isDeleted
  }

  datatype Update =
    | Local(service: Service)
    | Remote(peer: Peer, service: Service)
    | SweepPeers(available: set<Peer>)

  function ApplyUpdate(v: View, self: Peer, u: Update): View {
    match u
    case Local(s) => Register(v, self, s)
    case Remote(peer, s) => Register(v, peer, s)
    case SweepPeers(available) => Sweep(v, self, available)
  }

  function Run(self: Peer, updates: seq<Update>): View {
    if updates == [] then EMPTY_VIEW
    else ApplyUpdate(Run(self, updates[..|updates| - 1]), self, updates[|updates| - 1])
  }

  /** Whatever updates come in whatever order, the two maps agree. */
  lemma {:induction false} AlwaysConsistent(self: Peer, updates: seq<Update>)
    ensures Consistent(Run(self, updates))
  {
    if updates != [] {
      AlwaysConsistent(self, updates[..|updates| - 1]);
    }
  }

  // ---------------------------------------------------------------- lookups

  datatype Lookup =
    | NotFound
    | DataMissing
    | NoProviders
    | Found(peer: Peer, service: Service)

  // ---------------------------------------------------------------- listings

  datatype Scope = All | LocalOnly | RemoteOnly

  predicate InScope(v: View, self: Peer, scope: Scope, k: ServiceId) {
    match scope
    case All => true
    case LocalOnly => k in v.owners && v.owners[k] == self
    case RemoteOnly => k in v.owners && v.owners[k] != self
  }

  /** The list holds each service of the scope, among the keys `done`, once, and nothing else. */
  ghost predicate Lists(rslt: seq<Service>, v: View, self: Peer, scope: Scope, done: set<ServiceId>) {
    forall s: Service :: multiset(rslt)[s]
      == if s.id in done && s.id in v.services && v.services[s.id] == s && InScope(v, self, scope, s.id)
         then 1 else 0
  }

  lemma OwnerDecidesScope(v: View, self: Peer, local: bool, k: ServiceId)
    requires k in v.owners
    ensures InScope(v, self, if local then LocalOnly else RemoteOnly, k) <==> (v.owners[k] == self) == local
  {
  }

  lemma ListsNone(v: View, self: Peer, scope: Scope)
    ensures Lists([], v, self, scope, {})
  {
  }

  lemma ListsNext(rslt: seq<Service>, v: View, self: Peer, scope: Scope, done: set<ServiceId>, k: ServiceId)
    requires Consistent(v) && k in v.services && k !in done
    requires Lists(rslt, v, self, scope, done)
    ensures Lists(if InScope(v, self, scope, k) then rslt + [v.services[k]] else rslt,
                  v, self, scope, done + {k})
  {
  }

  /** The local and the remote listing partition the full one, as multisets. */
  lemma ListingsPartition(v: View, self: Peer, all: seq<Service>, local: seq<Service>, remote: seq<Service>)
    requires Consistent(v)
    requires Lists(all, v, self, All, v.services.Keys)
    requires Lists(local, v, self, LocalOnly, v.services.Keys)
    requires Lists(remote, v, self, RemoteOnly, v.services.Keys)
    ensures multiset(all) == multiset(local) + multiset(remote)
    ensures |all| == |v.services|
  {
    var services := set k | k in v.services :: v.services[k];
    assert multiset(all) == multiset(services) by {
      forall s: Service ensures multiset(all)[s] == multiset(services)[s] {
        assert s in services <==> s.id in v.services && v.services[s.id] == s;
      }
    }
    ValuesCount(v.services);
  }

  /** Services stored under their own ids are as many as the keys. */
  lemma {:induction false} ValuesCount(services: map<ServiceId, Service>)
    requires forall k | k in services :: services[k].id == k
    ensures |set k | k in services :: services[k]| == |services|
    decreases |services|
  {
    if services != map[] {
      var k :| k in services;
      var rest := services - {k};
      ValuesCount(rest);
      var values := set j | j in rest :: rest[j];
      var all := set j | j in services :: services[j];
      forall s ensures s in all <==> s in values + {services[k]} {
        if s in all {
          var j :| j in services && services[j] == s;
          assert j == k || (j in rest && rest[j] == s);
        }
      }
      assert all == values + {services[k]};
      assert services[k] !in values;
      assert services.Keys == rest.Keys + {k};
    } else {
      assert services == map[];
    }
  }

  // ---------------------------------------------------------------- the node

  class Node {
    const selfID: Peer
    var services: map<ServiceId, Service>
    var servicePeerMapping: map<ServiceId, Peer>
    /** What the node has published on the broadcast topic, in order. */
    var published: seq<Service>

    ghost function Registered(): View
      reads this
    {
      View(services, servicePeerMapping)
    }

    ghost predicate Valid()
      reads this
    {
      Consistent(Registered())
    }

    constructor (selfID: Peer)
      ensures Valid() && Registered() == EMPTY_VIEW && this.selfID == selfID && published == []
    {
      this.selfID := selfID;
      services, servicePeerMapping, published := map[], map[], [];
    }

    method RegisterLocalService(service: Service)
      requires Valid()
      modifies this
      ensures Valid() && Registered() == Register(old(Registered()), selfID, service)
      ensures published == old(published) + [service]
    {
      if service.isDeleted {
        services := services - {service.id};
        servicePeerMapping := servicePeerMapping - {service.id};
      } else {
        services := services[service.id := service];
        servicePeerMapping := servicePeerMapping[service.id := selfID];
      }
      published := published + [service];
    }

    method RegisterRemoteService(peerId: Peer, service: Service)
      requires Valid()
      modifies this`services, this`servicePeerMapping
      ensures Valid() && Registered() == Register(old(Registered()), peerId, service)
    {
      if service.isDeleted {
        services := services - {service.id};
        servicePeerMapping := servicePeerMapping - {service.id};
      } else {
        services := services[service.id := service];
        servicePeerMapping := servicePeerMapping[service.id := peerId];
      }
    }

    /** One message of the broadcast subscription; None is one that does not decode. */
    method OnBroadcast(receivedFrom: Peer, message: Option<Service>)
      requires Valid()
      modifies this`services, this`servicePeerMapping
      ensures Valid()
      ensures Registered()
           == if receivedFrom == selfID || message.None? then old(Registered())
              else Register(old(Registered()), receivedFrom, message.value)
    {
      if receivedFrom == selfID || message.None? {
        return;
      }
      RegisterRemoteService(receivedFrom, message.value);
    }

    /** The handler of a delete request publishes the deletion like any update. */
    method DeleteService(service: Service)
      requires Valid()
      modifies this
      ensures Valid() && Registered() == Register(old(Registered()), selfID, service.(isDeleted := true))
      ensures service.id !in services && service.id !in servicePeerMapping
      ensures published == old(published) + [service.(isDeleted := true)]
    {
      RegisterLocalService(service.(isDeleted := true));
    }

    /** The services of peers that are neither this node nor available. */
    method FindInvalid(availablePeers: seq<Peer>) returns (invalid: seq<ServiceId>)
      ensures forall k :: k in invalid <==>
                k in servicePeerMapping
                && servicePeerMapping[k] != selfID && servicePeerMapping[k] !in availablePeers
    {
      invalid := [];
      var keys := servicePeerMapping.Keys;
      while keys != {}
        invariant keys <= servicePeerMapping.Keys
        invariant forall k :: k in invalid <==>
                    k in servicePeerMapping && k !in keys
                    && servicePeerMapping[k] != selfID && servicePeerMapping[k] !in availablePeers
        decreases |keys|
      {
        var k :| k in keys;
        keys := keys - {k};
        var v := servicePeerMapping[k];
        if v != selfID {
          var found := false;
          for i := 0 to |availablePeers|
            invariant found <==> v in availablePeers[..i]
          {
            if v == availablePeers[i] {
              found := true;
            }
          }
          assert availablePeers[..|availablePeers|] == availablePeers;
          if !found {
            invalid := invalid + [k];
          }
        }
      }
    }

    /** Deletes the given keys from both maps. */
    method RemoveServices(invalid: seq<ServiceId>)
      modifies this`services, this`servicePeerMapping
      ensures services == old(services) - (set k | k in invalid)
      ensures servicePeerMapping == old(servicePeerMapping) - (set k | k in invalid)
    {
      for i := 0 to |invalid|
        invariant services == old(services) - (set k | k in invalid[..i])
        invariant servicePeerMapping == old(servicePeerMapping) - (set k | k in invalid[..i])
      {
        assert invalid[..i + 1] == invalid[..i] + [invalid[i]];
        services := services - {invalid[i]};
        servicePeerMapping := servicePeerMapping - {invalid[i]};
      }
      assert invalid[..|invalid|] == invalid;
    }

    /** One round of the peer monitor: collect the services of absent peers, then delete them. */
    method UpdatePeers(availablePeers: seq<Peer>)
      requires Valid()
      modifies this`services, this`servicePeerMapping
      ensures Valid()
      ensures Registered() == Sweep(old(Registered()), selfID, set p | p in availablePeers)
      ensures forall k | k in servicePeerMapping ::
                servicePeerMapping[k] == selfID || servicePeerMapping[k] in availablePeers
      ensures forall k | k in old(services) &&
                (old(servicePeerMapping)[k] == selfID || old(servicePeerMapping)[k] in availablePeers) ::
                k in services && services[k] == old(services)[k]
    {
      var invalid := FindInvalid(availablePeers);
      RemoveServices(invalid);
    }

    /** The gateways' lookup of a requested service. */
    method LookupService(serviceId: ServiceId) returns (r: Lookup)
      requires Valid()
      ensures r != DataMissing
      ensures r == NotFound <==> serviceId !in services
      ensures r.Found? ==> r.service.id == serviceId && r.service.providers != []
                           && serviceId in services && r.service == services[serviceId]
                           && r.peer == servicePeerMapping[serviceId]
      ensures r == NoProviders <==> serviceId in services && services[serviceId].providers == []
    {
      if serviceId !in servicePeerMapping {
        return NotFound;
      }
      if serviceId !in services {
        return DataMissing;
      }
      var service := services[serviceId];
      if |service.providers| < 1 {
        return NoProviders;
      }
      return Found(servicePeerMapping[serviceId], service);
    }

    /** All services, by a loop over the service map. */
    method ListService() returns (rslt: seq<Service>)
      requires Valid()
      ensures Lists(rslt, Registered(), selfID, All, services.Keys)
    {
      hide Lists, Consistent;
      rslt := [];
      ListsNone(Registered(), selfID, All);
      var keys := services.Keys;
      assert services.Keys - keys == {};
      while keys != {}
        invariant keys <= services.Keys
        invariant Lists(rslt, Registered(), selfID, All, services.Keys - keys)
        decreases |keys|
      {
        var k :| k in keys;
        ListsNext(rslt, Registered(), selfID, All, services.Keys - keys, k);
        assert services.Keys - keys + {k} == services.Keys - (keys - {k});
        keys := keys - {k};
        rslt := rslt + [services[k]];
      }
      assert services.Keys - keys == services.Keys;
    }

    /** The local or the remote services, by a loop over the peer mapping. */
    method ListByOwner(local: bool) returns (rslt: seq<Service>)
      requires Valid()
      ensures Lists(rslt, Registered(), selfID, if local then LocalOnly else RemoteOnly, services.Keys)
    {
      ghost var scope := if local then LocalOnly else RemoteOnly;
      assert services.Keys == servicePeerMapping.Keys;
      hide Lists, Consistent, InScope;
      rslt := [];
      ListsNone(Registered(), selfID, scope);
      var keys := servicePeerMapping.Keys;
      assert services.Keys - keys == {};
      while keys != {}
        invariant keys <= servicePeerMapping.Keys
        invariant Lists(rslt, Registered(), selfID, scope, services.Keys - keys)
        decreases |keys|
      {
        var k :| k in keys;
        ListsNext(rslt, Registered(), selfID, scope, services.Keys - keys, k);
        assert services.Keys - keys + {k} == services.Keys - (keys - {k});
        OwnerDecidesScope(Registered(), selfID, local, k);
        keys := keys - {k};
        if (servicePeerMapping[k] == selfID) == local {
          rslt := rslt + [services[k]];
        }
      }
      assert services.Keys - keys == services.Keys;
    }
  }
}

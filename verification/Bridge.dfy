/**
 * All routes of a bridge over one DDS participant: whatever happens to which route, and whatever fails on
 * the way, live entities and advertised GIDs are exactly those the routes hold.
 */
module Bridge {
  import opened Wrappers
  import opened Dds
  import opened RouteEntities
  import S = RouteSubscriber
  import P = RoutePublisher
  import Qos

  datatype RouteId = SubscriberOf(name: string) | PublisherOf(name: string) | ClientOf(name: string)
                   | ServerOf(name: string)

  class Bridge {
    const dds: Dds
    var subscribers: map<string, S.RouteSubscriber>
    var publishers: map<string, P.RoutePublisher>
    var clients: map<string, RouteServiceCli>
    var servers: map<string, RouteServiceSrv>

    ghost function Routes(): set<object>
      reads this
    {
      subscribers.Values + publishers.Values + clients.Values + servers.Values
    }

    ghost function HeldBy(id: RouteId): set<Handle>
      reads this, Routes()
    {
      match id
      case SubscriberOf(n) => if n in subscribers then subscribers[n].Held() else {}
      case PublisherOf(n) => if n in publishers then publishers[n].Held() else {}
      case ClientOf(n) => if n in clients then clients[n].Held() else {}
      case ServerOf(n) => if n in servers then servers[n].Held() else {}
    }

    ghost function Held(): imap<RouteId, set<Handle>>
      reads this, Routes()
    {
      imap id: RouteId :: HeldBy(id)
    }

    /** The route, if it is there, is valid and of this bridge. */
    ghost predicate RouteValid(id: RouteId)
      reads this, Routes(), dds
    {
      match id
      case SubscriberOf(n) => n in subscribers ==> subscribers[n].dds == dds && subscribers[n].Valid()
      case PublisherOf(n) => n in publishers ==> publishers[n].dds == dds && publishers[n].Valid()
      case ClientOf(n) => n in clients ==> clients[n].dds == dds && clients[n].Valid()
      case ServerOf(n) => n in servers ==> servers[n].dds == dds && servers[n].Valid()
    }

    ghost function ObjectOf(id: RouteId): object?
      reads this
    {
      match id
      case SubscriberOf(n) => if n in subscribers then subscribers[n] else null
      case PublisherOf(n) => if n in publishers then publishers[n] else null
      case ClientOf(n) => if n in clients then clients[n] else null
      case ServerOf(n) => if n in servers then servers[n] else null
    }

    /** Nothing leaks and nothing stale is advertised. */
    ghost predicate Valid()
      reads this, Routes(), dds
    {
      dds.Valid() && NothingLeaks(dds.live, dds.advertised, Held())
      && (forall id :: RouteValid(id))
      && forall a, b | a != b && ObjectOf(a) != null :: ObjectOf(a) != ObjectOf(b)
    }

    constructor ()
      ensures Valid() && fresh(dds)
      ensures subscribers == map[] && publishers == map[] && clients == map[] && servers == map[]
    {
      dds := new Dds();
      subscribers, publishers, clients, servers := map[], map[], map[], map[];
    }

    /** A route is an object of its own. */
    lemma Apart(id: RouteId)
      requires Valid()
      ensures forall other | other != id && ObjectOf(other) != null ::
                ObjectOf(other) != ObjectOf(id) && ObjectOf(other) != dds
      ensures RouteValid(id)
    {
    }

    /** A route nobody touched holds what it did, and is valid as long as that is live and advertised. */
    twostate lemma Untouched(id: RouteId)
      requires ObjectOf(id) == old(ObjectOf(id)) && (ObjectOf(id) != null ==> unchanged(ObjectOf(id)))
      ensures HeldBy(id) == old(HeldBy(id))
      ensures old(RouteValid(id)) && dds.Valid() && HeldBy(id) <= dds.live && HeldBy(id) <= dds.advertised
              ==> RouteValid(id)
    {
      match id
      case SubscriberOf(n) =>
        assert n in subscribers <==> n in old(subscribers);
        assert n in subscribers ==> subscribers[n] == old(subscribers[n]);
      case PublisherOf(n) =>
        assert n in publishers <==> n in old(publishers);
        assert n in publishers ==> publishers[n] == old(publishers[n]);
      case ClientOf(n) =>
        assert n in clients <==> n in old(clients);
        assert n in clients ==> clients[n] == old(clients[n]);
      case ServerOf(n) =>
        assert n in servers <==> n in old(servers);
        assert n in servers ==> servers[n] == old(servers[n]);
    }

    /** What a step of one route has to see to. */
    twostate lemma Kept(id: RouteId)
      requires old(Valid())
      requires forall other | other != id ::
                 ObjectOf(other) == old(ObjectOf(other)) && (ObjectOf(other) != null ==> unchanged(ObjectOf(other)))
      requires dds.Valid() && RouteValid(id) && HeldBy(id) <= dds.live && HeldBy(id) <= dds.advertised
      requires dds.live - HeldBy(id) == old(dds.live - HeldBy(id))
      requires dds.advertised - HeldBy(id) == old(dds.advertised - HeldBy(id))
      requires forall other | other != id && ObjectOf(id) != null :: ObjectOf(other) != ObjectOf(id)
      ensures Valid()
    {
      hide HeldBy, RouteValid, ObjectOf;
      ghost var before := old(Held());
      StepLeaksNothing(old(dds.live), old(dds.advertised), before, id, HeldBy(id), dds.live, dds.advertised);
      forall other: RouteId ensures Held()[other] == before[id := HeldBy(id)][other] {
        if other != id {
          Untouched(other);
        }
      }
      assert Held() == before[id := HeldBy(id)];
      forall other | other != id ensures RouteValid(other) {
        assert old(RouteValid(other));
        Untouched(other);
        assert HeldBy(other) == Held()[other];
        assert HeldBy(other) <= dds.live;
      }
    }

    // ---- Subscriber routes ----------------------------------------------------------------

    method CreateSubscriber(name: string, announceQos: Qos.Qos)
      requires Valid() && name !in subscribers
      modifies `subscribers
      ensures Valid() && subscribers.Keys == old(subscribers.Keys) + {name}
    {
      var route := new S.RouteSubscriber(dds, announceQos);
      subscribers := subscribers[name := route];
      Kept(SubscriberOf(name));
    }

    /** Whatever happens to a subscriber route. */
    method OnSubscriber(name: string, op: S.Op)
      requires Valid() && name in subscribers
      modifies subscribers[name], dds
      ensures Valid()
      ensures subscribers[name].State() == S.Step(old(subscribers[name].State()),
                                                                subscribers[name].announceQos, op).0
    {
      hide S.Update, S.AddNode, S.RemoveNode, S.MatchedReaders;
      var route := subscribers[name];
      Apart(SubscriberOf(name));
      match op {
        case Announced(key, qos, o) => var ok := route.AddRemotePublisher(key, qos, o);
        case Retired(key, o) => var ok := route.RemoveRemotePublisher(key, o);
        case BridgeLeft(zid, o) => var ok := route.PruneBridge(zid, o);
        case NodeAdded(node, o) => route.AddLocalNode(node, o);
        case NodeRemoved(node) => route.RemoveLocalNode(node);
        case Matched(matched, o) => route.UpdateMatchedReaders(matched, o);
      }
      Kept(SubscriberOf(name));
    }

    method DropSubscriber(name: string)
      requires Valid() && name in subscribers
      modifies `subscribers, subscribers[name], dds
      ensures Valid() && subscribers == old(subscribers) - {name}
    {
      var route := subscribers[name];
      Apart(SubscriberOf(name));
      route.Drop();
      subscribers := subscribers - {name};
      assert forall other | other != SubscriberOf(name) :: ObjectOf(other) == old(ObjectOf(other));
      Kept(SubscriberOf(name));
    }

    // ---- Publisher routes -----------------------------------------------------------------

    /** A route that cannot be completed leaves nothing behind. */
    method CreatePublisher(name: string, topic: P.Topic, writers: seq<Qos.Qos>, o: P.Outcome) returns (ok: bool)
      requires Valid() && name !in publishers
      modifies `publishers, dds
      ensures Valid() && publishers.Keys == old(publishers.Keys) + if ok then {name} else {}
      ensures ok == P.Created(topic, writers, o).Some?
    {
      hide P.Created;
      Apart(PublisherOf(name));
      var route := P.RoutePublisher.Create(dds, topic, writers, o);
      ok := route != null;
      if ok {
        publishers := publishers[name := route];
      }
      assert forall other | other != PublisherOf(name) :: ObjectOf(other) == old(ObjectOf(other));
      Kept(PublisherOf(name));
    }

    /** Whatever happens to a publisher route. */
    method OnPublisher(name: string, op: P.Op)
      requires Valid() && name in publishers
      modifies publishers[name], dds
      ensures Valid()
      ensures publishers[name].State() == P.Step(publishers[name].topic, old(publishers[name].State()), op).0
    {
      hide P.Update, P.AddNode, P.RemoveNode, P.RemoveRemote, P.PruneRemotes, P.OnMatching, P.IfMatching, P.Activated;
      var route := publishers[name];
      Apart(PublisherOf(name));
      match op {
        case WritersChanged(writers, o) => var ok := route.UpdateLocalWriters(writers, o);
        case NodeAdded(node, qos, token) => route.AddLocalNode(node, qos, token);
        case NodeRemoved(node) => route.RemoveLocalNode(node);
        case RemoteAdded(remote, c) => route.AddRemoteRoute(remote, c);
        case RemoteRemoved(remote) => route.RemoveRemoteRoute(remote);
        case BridgePruned(prefix) => var pruned := route.PruneRemoteRoutes(prefix);
        case MatchingChanged(matching, c) => route.OnMatchingStatus(matching, c);
        case LateActivation(c) => route.Activate(c);
      }
      Kept(PublisherOf(name));
    }

    method DropPublisher(name: string)
      requires Valid() && name in publishers
      modifies `publishers, publishers[name], dds
      ensures Valid() && publishers == old(publishers) - {name}
    {
      var route := publishers[name];
      Apart(PublisherOf(name));
      route.Drop();
      publishers := publishers - {name};
      assert forall other | other != PublisherOf(name) :: ObjectOf(other) == old(ObjectOf(other));
      Kept(PublisherOf(name));
    }

    // ---- Service routes -------------------------------------------------------------------

    method CreateClient(name: string)
      requires Valid() && name !in clients
      modifies `clients
      ensures Valid() && clients.Keys == old(clients.Keys) + {name}
    {
      var route := new RouteServiceCli(dds);
      clients := clients[name := route];
      Kept(ClientOf(name));
    }

    method ActivateClient(name: string, named: bool, writer: Creation, reader: Creation) returns (ok: bool)
      requires Valid() && name in clients
      modifies clients[name], dds
      ensures Valid() && (clients[name].Held() != {} <==> ok)
    {
      var route := clients[name];
      Apart(ClientOf(name));
      ok := route.Activate(named, writer, reader);
      Kept(ClientOf(name));
    }

    method DeactivateClient(name: string)
      requires Valid() && name in clients
      modifies clients[name], dds
      ensures Valid() && clients[name].Held() == {}
    {
      var route := clients[name];
      Apart(ClientOf(name));
      route.Deactivate();
      Kept(ClientOf(name));
    }

    method DropClient(name: string)
      requires Valid() && name in clients
      modifies `clients, clients[name], dds
      ensures Valid() && clients == old(clients) - {name}
    {
      var route := clients[name];
      Apart(ClientOf(name));
      route.Deactivate();
      clients := clients - {name};
      assert forall other | other != ClientOf(name) :: ObjectOf(other) == old(ObjectOf(other));
      Kept(ClientOf(name));
    }

    method CreateServer(name: string, named: bool, writer: Creation, instance: bool, reader: Creation)
        returns (ok: bool)
      requires Valid() && name !in servers
      modifies `servers, dds
      ensures Valid() && servers.Keys == old(servers.Keys) + if ok then {name} else {}
      ensures ok <==> named && Works(writer) && instance && Works(reader)
    {
      Apart(ServerOf(name));
      var route := RouteServiceSrv.Create(dds, named, writer, instance, reader);
      ok := route != null;
      if ok {
        servers := servers[name := route];
      }
      assert forall other | other != ServerOf(name) :: ObjectOf(other) == old(ObjectOf(other));
      Kept(ServerOf(name));
    }

    method DropServer(name: string)
      requires Valid() && name in servers
      modifies `servers, dds
      ensures Valid() && servers == old(servers) - {name}
    {
      var route := servers[name];
      Apart(ServerOf(name));
      route.Drop();
      servers := servers - {name};
      assert forall other | other != ServerOf(name) :: ObjectOf(other) == old(ObjectOf(other));
      Kept(ServerOf(name));
    }
  }
}

/**
 * Discovery drives the route manager: on its events alone, an interface has a route exactly while some
 * node holds it complete, unless two nodes of one full name get into each other's way.
 */
module LocalRoutes {
  import opened Wrappers
  import opened Text
  import opened Iteration
  import opened NodeInfo
  import opened Discovery
  import opened DiscoveryEvents
  import opened Names
  import Routes
  import DiscoveryRefs
  import DiscoveryTransfer
  import DiscoveryConfluence

  /** How routes know a node. The participant is part of the name of an orphan node, not of others. */
  type Naming = NodeId -> string

  const SUCCESS := Routes.Outcome(true, true, true)

  function ToLocal(fullname: Naming, e: Event): Routes.LocalEvent {
    if e.event.discovered then Routes.Discovered(fullname(e.id), e.event.key)
    else Routes.Undiscovered(fullname(e.id), e.event.key)
  }

  /** The events as the main loop passes them on, every call succeeding. */
  function ToRoutes(fullname: Naming, events: seq<Event>): seq<Routes.Op> {
    if events == [] then []
    else [Routes.Local(ToLocal(fullname, events[0]), SUCCESS)] + ToRoutes(fullname, events[1..])
  }

  /** Who holds what, by full name. */
  function ByName(fullname: Naming, known: Known): set<(Key, string)> {
    set x | x in known :: (x.1, fullname(x.0))
  }

  /** When a node gives up an interface, no other node of its full name holds it. */
  ghost predicate Alone(fullname: Naming, known: Known, e: Event) {
    !e.event.discovered ==>
      forall id | (id, e.event.key) in known && id != e.id :: fullname(id) != fullname(e.id)
  }

  ghost predicate AllAlone(fullname: Naming, known: Known, events: seq<Event>)
    decreases events
  {
    events == [] || (Alone(fullname, known, events[0]) && AllAlone(fullname, Hear(known, events[0]), events[1..]))
  }

  // ---- Names are absolute, and only nodes declared and orphan nodes have events ------------

  /** Nodes there may be. */
  type IdFilter = NodeId -> bool

  const ANY: IdFilter := _ => true

  /** Interfaces have absolute names, for others are not created. */
  ghost predicate Absolute(ifaces: Ifaces) {
    forall k | k in ifaces :: ValidRosName(k.name)
  }

  ghost predicate AllAbsolute(ids: IdFilter, nodes: Nodes) {
    forall id | id in nodes :: ids(id) && Absolute(nodes[id].ifaces)
  }

  ghost predicate AbsoluteEvents(ids: IdFilter, events: seq<Event>) {
    forall e | e in events :: ids(e.id) && ValidRosName(e.event.key.name)
  }

  ghost predicate AbsoluteNodeEvents(events: seq<NodeEvent>) {
    forall e | e in events :: ValidRosName(e.key.name)
  }

  lemma TagAbsolute(ids: IdFilter, id: NodeId, events: seq<NodeEvent>)
    requires AbsoluteNodeEvents(events) && (events == [] || ids(id))
    ensures AbsoluteEvents(ids, Tag(id, events))
  {
  }

  lemma FeedAbsolute(ifaces: Ifaces, e: Entity)
    requires Absolute(ifaces)
    ensures Absolute(Feed(ifaces, e).0) && AbsoluteNodeEvents(Feed(ifaces, e).1)
  {
    hide Classify, Roles;
  }

  lemma FeedAllAbsolute(ifaces: Ifaces, es: seq<Entity>)
    requires Absolute(ifaces)
    ensures Absolute(FeedAll(ifaces, es).0) && AbsoluteNodeEvents(FeedAll(ifaces, es).1)
    decreases es
  {
    hide Feed, Absolute;
    if es != [] {
      FeedAbsolute(ifaces, es[0]);
      FeedAllAbsolute(Feed(ifaces, es[0]).0, es[1..]);
    }
  }

  lemma RemoveAbsolute(node: Node, end: End, order: seq<Key>)
    requires Absolute(node.ifaces)
    ensures Absolute(Remove(node, end, order).0.ifaces) && AbsoluteNodeEvents(Remove(node, end, order).1)
  {
    RemoveKeys(node, end, order);
    hide DropEndpoint, FirstFilled;
    DropEndpointKeys(node.ifaces, end, order);
  }

  lemma AddToAbsolute(ids: IdFilter, nodes: Nodes, e: Entity, order: seq<NodeId>, hit: set<Gid>)
    requires AllAbsolute(ids, nodes)
    ensures AllAbsolute(ids, AddTo(nodes, e, order, hit).0) && AbsoluteEvents(ids, AddTo(nodes, e, order, hit).1)
    decreases order
  {
    hide Feed, Absolute;
    if order != [] && order[0] in nodes {
      FeedAbsolute(nodes[order[0]].ifaces, e);
      TagAbsolute(ids, order[0], Feed(nodes[order[0]].ifaces, e).1);
    }
  }

  lemma RemoveFromAbsolute(ids: IdFilter, nodes: Nodes, end: End, order: seq<(NodeId, seq<Key>)>)
    requires AllAbsolute(ids, nodes)
    ensures AllAbsolute(ids, RemoveFrom(nodes, end, order).0) && AbsoluteEvents(ids, RemoveFrom(nodes, end, order).1)
    decreases order
  {
    hide Remove, Absolute;
    if order != [] && order[0].0 in nodes {
      RemoveAbsolute(nodes[order[0].0], end, order[0].1);
      TagAbsolute(ids, order[0].0, Remove(nodes[order[0].0], end, order[0].1).1);
    }
  }

  lemma CloseAllAbsolute(ids: IdFilter, nodes: Nodes, order: seq<(NodeId, seq<Key>)>)
    requires AllAbsolute(ids, nodes)
    ensures AllAbsolute(ids, CloseAll(nodes, order).0) && AbsoluteEvents(ids, CloseAll(nodes, order).1)
    decreases order
  {
    if order != [] {
      var (id, keys) := order[0];
      AllUndiscoveredAbsolute(NodeAt(nodes, id).ifaces, keys);
      TagAbsolute(ids, id, AllUndiscovered(NodeAt(nodes, id).ifaces, keys));
      CloseAllAbsolute(ids, nodes - {id}, order[1..]);
    }
  }

  lemma AllUndiscoveredAbsolute(ifaces: Ifaces, order: seq<Key>)
    requires Absolute(ifaces)
    ensures AbsoluteNodeEvents(AllUndiscovered(ifaces, order))
    ensures ifaces == map[] ==> AllUndiscovered(ifaces, order) == []
  {
  }

  lemma DeclareEndsAbsolute(node: Node, ends: seq<End>, endpoints: map<End, Entity>)
    requires Absolute(node.ifaces)
    ensures Absolute(DeclareEnds(node, ends, endpoints).0.ifaces)
    ensures AbsoluteNodeEvents(DeclareEnds(node, ends, endpoints).1)
    decreases ends
  {
    hide Feed, Absolute;
    if ends != [] {
      if ends[0] in endpoints {
        var e := endpoints[ends[0]];
        FeedAbsolute(node.ifaces, e);
        DeclareEndsAbsolute(node.(ifaces := Feed(node.ifaces, e).0), ends[1..], endpoints);
      } else {
        DeclareEndsAbsolute(node.(parked := node.parked + {ends[0]}), ends[1..], endpoints);
      }
    }
  }

  lemma DeclareAllAbsolute(ids: IdFilter, nodes: Nodes, endpoints: map<End, Entity>, p: Gid,
      names: seq<(string, seq<End>)>)
    requires AllAbsolute(ids, nodes) && forall x | x in names :: ids(NodeId(p, Named(x.0)))
    ensures AllAbsolute(ids, DeclareAll(nodes, endpoints, p, names).0)
    ensures AbsoluteEvents(ids, DeclareAll(nodes, endpoints, p, names).1)
    decreases names
  {
    hide DeclareEnds;
    if names != [] {
      var id := NodeId(p, Named(names[0].0));
      var (node, e1) := DeclareEnds(NodeAt(nodes, id), names[0].1, endpoints);
      DeclareEndsAbsolute(NodeAt(nodes, id), names[0].1, endpoints);
      TagAbsolute(ids, id, e1);
      DeclareAllAbsolute(ids, nodes[id := node], endpoints, p, names[1..]);
    }
  }

  lemma ReleaseAllAbsolute(ids: IdFilter, nodes: Nodes, orphan: NodeId, writers: seq<(Gid, seq<Key>)>)
    requires AllAbsolute(ids, nodes)
    ensures AllAbsolute(ids, ReleaseAll(nodes, orphan, writers).0)
    ensures AbsoluteEvents(ids, ReleaseAll(nodes, orphan, writers).1)
    decreases writers
  {
    hide Remove, Absolute;
    if writers != [] && orphan in nodes {
      var (node, e1) := Remove(nodes[orphan], End(Writer, writers[0].0), writers[0].1);
      RemoveAbsolute(nodes[orphan], End(Writer, writers[0].0), writers[0].1);
      TagAbsolute(ids, orphan, e1);
      ReleaseAllAbsolute(ids, if Publishes(node) then nodes[orphan := node] else nodes - {orphan}, orphan,
                         writers[1..]);
    }
  }

  lemma ResolveAllAbsolute(ids: IdFilter, nodes: Nodes, endpoints: map<End, Entity>, order: seq<(NodeId, seq<End>)>)
    requires AllAbsolute(ids, nodes)
    ensures AllAbsolute(ids, ResolveAll(nodes, endpoints, order).0)
    ensures AbsoluteEvents(ids, ResolveAll(nodes, endpoints, order).1)
    decreases order
  {
    hide FeedAll, Absolute, EntitiesOf;
    if order != [] {
      var (id, ends) := order[0];
      if id in nodes {
        var (ifaces, e1) := FeedAll(nodes[id].ifaces, EntitiesOf(ends, endpoints));
        FeedAllAbsolute(nodes[id].ifaces, EntitiesOf(ends, endpoints));
        TagAbsolute(ids, id, e1);
        ResolveAllAbsolute(ids, nodes[id := Node(ifaces, nodes[id].parked - Elements(ends))], endpoints, order[1..]);
      } else {
        ResolveAllAbsolute(ids, nodes, endpoints, order[1..]);
      }
    }
  }

  lemma ClaimAllAbsolute(ids: IdFilter, nodes: Nodes, writers: seq<Entity>)
    requires AllAbsolute(ids, nodes) && forall e | e in writers :: ids(NodeId(e.participant, Orphan))
    ensures AllAbsolute(ids, ClaimAll(nodes, writers).0) && AbsoluteEvents(ids, ClaimAll(nodes, writers).1)
    decreases writers
  {
    hide Feed;
    if writers != [] {
      var id := NodeId(writers[0].participant, Orphan);
      var (ifaces, e1) := Feed(NodeAt(nodes, id).ifaces, writers[0]);
      FeedAbsolute(NodeAt(nodes, id).ifaces, writers[0]);
      TagAbsolute(ids, id, e1);
      ClaimAllAbsolute(ids, nodes[id := NodeAt(nodes, id).(ifaces := ifaces)], writers[1..]);
    }
  }

  /** The nodes `op` may bring. */
  ghost predicate Brings(ids: IdFilter, op: Op) {
    (forall p :: ids(NodeId(p, Orphan))) && (op.Declare? ==> forall x | x in op.names :: ids(NodeId(op.p, Named(x.0))))
  }

  lemma AdmittedNames(nodes: Nodes, p: Gid, decls: map<string, NodeDecl>, names: seq<(string, seq<End>)>)
    ensures forall x | x in Admitted(nodes, p, decls, names) :: x in names
  {
  }

  lemma StepAbsolute(ids: IdFilter, s: Disc, op: Op)
    requires AllAbsolute(ids, s.nodes) && Brings(ids, op)
    ensures AllAbsolute(ids, Step(s, op).0.nodes) && AbsoluteEvents(ids, Step(s, op).1)
  {
    hide AllAbsolute, Candidates, DueWriters, Due, FirstSeen, Admitted;
    match op
    case AddParticipant(_) =>
    case RemoveParticipant(_, order) => CloseAllAbsolute(ids, s.nodes, order);
    case AddEndpoint(e, nodes) => AddToAbsolute(ids, s.nodes, e, nodes, {});
    case RemoveEndpoint(end, order) => RemoveFromAbsolute(ids, s.nodes, end, order);
    case Declare(p, decls, order, names, released) =>
      var (closed, declared, freed) := DeclareParts(s, op);
      CloseAllAbsolute(ids, s.nodes, order);
      AdmittedNames(closed.0, p, decls, names);
      DeclareAllAbsolute(ids, closed.0, s.endpoints, p, Admitted(closed.0, p, decls, names));
      ReleaseAllAbsolute(ids, declared.0, NodeId(p, Orphan), released);
    case Resolve(pending) => ResolveAllAbsolute(ids, s.nodes, s.endpoints, pending);
    case Sweep(now, grace, gids) => ClaimAllAbsolute(ids, s.nodes, DueWriters(s, now, grace, gids));
  }

  lemma {:induction false} RunAbsolute(ids: IdFilter, s: Disc, ops: seq<Op>)
    requires AllAbsolute(ids, s.nodes) && forall op | op in ops :: Brings(ids, op)
    ensures AbsoluteEvents(ids, Run(s, ops).1) && AllAbsolute(ids, Run(s, ops).0.nodes)
    decreases ops
  {
    hide AllAbsolute, Step, Brings;
    if ops != [] {
      assert ops[0] in ops;
      StepAbsolute(ids, s, ops[0]);
      RunAbsolute(ids, Step(s, ops[0]).0, ops[1..]);
    }
  }

  // ---- What the route manager makes of it -------------------------------------------------

  /** After an event the route manager has the holders' names iff the node giving up was alone with its name. */
  lemma OneEvent(fullname: Naming, known: Known, e: Event, n: Routes.Needs)
    requires n.local == ByName(fullname, known)
    ensures var n' := Routes.NeedsAfterDiscovery(n, ToLocal(fullname, e), e.event.discovered);
            n'.local == ByName(fullname, Hear(known, e)) <==> Alone(fullname, known, e)
  {
  }

  lemma ToRoutesProper(ns: string, fullname: Naming, events: seq<Event>)
    requires ValidNamespace(ns) && AbsoluteEvents(ANY, events)
    ensures forall op | op in ToRoutes(fullname, events) :: Routes.Proper(ns, op) && op.Local? && op.o == SUCCESS
  {
  }

  /** Over a whole run of events. */
  lemma {:induction false} NamesFollow(ns: string, fullname: Naming, known: Known, events: seq<Event>, s: Routes.Mgr,
                                       n: Routes.Needs)
    requires ValidNamespace(ns) && AbsoluteEvents(ANY, events) && AllAlone(fullname, known, events)
    requires Routes.AbsoluteNames(s) && n.local == ByName(fullname, known) && n.remote == {}
    requires forall op | op in ToRoutes(fullname, events) :: Routes.Proper(ns, op)
    ensures var n' := Routes.Run(ns, s, n, ToRoutes(fullname, events)).1;
            n'.local == ByName(fullname, HearAll(known, events)) && n'.remote == {}
    decreases events
  {
    hide ByName, Alone, Routes.Apply, Routes.OnDiscovery, Hear;
    if events != [] {
      var e, ops := events[0], ToRoutes(fullname, events);
      assert ops[0] in ops && ops[1..] == ToRoutes(fullname, events[1..]);
      OneEvent(fullname, known, e, n);
      NamesFollow(ns, fullname, Hear(known, e), events[1..], Routes.Apply(ns, s, ops[0]),
                  Routes.Need(ns, s, n, ops[0]));
    }
  }

  /**
   * After any run of discovery whose events all reached the route manager, an interface has a route iff a
   * node holds it complete, and the route serves exactly those nodes; provided that no node ever gave up
   * an interface which another one of the same full name still held.
   */
  lemma RoutedIffHeld(ns: string, fullname: Naming, ops: seq<Op>, k: Key)
    requires ValidNamespace(ns) && LegalRun(INITIAL, ops) && AllAlone(fullname, {}, Run(INITIAL, ops).1)
    ensures var nodes, events := Run(INITIAL, ops).0.nodes, ToRoutes(fullname, Run(INITIAL, ops).1);
            (forall op | op in events :: Routes.Proper(ns, op))
            && var routes := Routes.Run(ns, Routes.NO_ROUTES, Routes.NO_NEEDS, events).0.routes;
               (k in routes <==> exists id :: Holds(nodes, id, k))
               && (k in routes ==>
                     routes[k] == Routes.Route(set id | id in nodes && Holds(nodes, id, k) :: fullname(id), {}))
  {
    hide Run, Routes.Run, LegalRun, AllAlone, Routes.Proper, ToRoutes, AbsoluteEvents;
    var (s, events) := Run(INITIAL, ops);
    var rops := ToRoutes(fullname, events);
    EventsTellAll(ops);
    RunAbsolute(ANY, INITIAL, ops);
    ToRoutesProper(ns, fullname, events);
    NamesFollow(ns, fullname, {}, events, Routes.NO_ROUTES, Routes.NO_NEEDS);
    Routes.RoutedIffNeeded(ns, rops, k);
    var (m, n) := Routes.Run(ns, Routes.NO_ROUTES, Routes.NO_NEEDS, rops);
    assert n.local == ByName(fullname, Held(s.nodes)) && n.remote == {};
    HoldersNamed(fullname, s.nodes, k, n);
  }

  /** Orphan nodes, and those declared in the run. */
  predicate Appears(ops: seq<Op>, id: NodeId) {
    id.name.Orphan? || exists op | op in ops :: op.Declare? && op.p == id.participant && id.name.fullname in op.decls
  }

  ghost predicate DistinctNames(fullname: Naming, ops: seq<Op>) {
    forall a, b | Appears(ops, a) && Appears(ops, b) && fullname(a) == fullname(b) :: a == b
  }

  lemma {:induction false} DistinctAlone(fullname: Naming, ids: IdFilter, known: Known, events: seq<Event>)
    requires AbsoluteEvents(ids, events) && forall x | x in known :: ids(x.0)
    requires forall a, b | ids(a) && ids(b) && fullname(a) == fullname(b) :: a == b
    ensures AllAlone(fullname, known, events)
    decreases events
  {
    if events != [] {
      assert events[0] in events;
      DistinctAlone(fullname, ids, Hear(known, events[0]), events[1..]);
    }
  }

  lemma {:induction false} DeclaredAppear(s: Disc, ops: seq<Op>, all: seq<Op>)
    requires LegalRun(s, ops) && forall op | op in ops :: op in all
    ensures forall op | op in ops :: Brings(id => Appears(all, id), op)
    decreases ops
  {
    hide Step, DeclareParts, ReleaseOrder, NodeOrder;
    if ops != [] {
      var op := ops[0];
      assert op in ops;
      if op.Declare? {
        assert NameOrder(op.names, op.decls);
        forall x | x in op.names ensures Appears(all, NodeId(op.p, Named(x.0))) {
          var i :| 0 <= i < |op.names| && op.names[i] == x;
        }
      }
      assert Brings(id => Appears(all, id), op);
      DeclaredAppear(Step(s, op).0, ops[1..], all);
      assert ops == [op] + ops[1..];
    }
  }

  /** So interfaces are routed iff held if all nodes of the run have names of their own. */
  lemma RoutedIfDistinct(ns: string, fullname: Naming, ops: seq<Op>, k: Key)
    requires ValidNamespace(ns) && LegalRun(INITIAL, ops) && DistinctNames(fullname, ops)
    ensures var nodes, events := Run(INITIAL, ops).0.nodes, ToRoutes(fullname, Run(INITIAL, ops).1);
            (forall op | op in events :: Routes.Proper(ns, op))
            && var routes := Routes.Run(ns, Routes.NO_ROUTES, Routes.NO_NEEDS, events).0.routes;
               (k in routes <==> exists id :: Holds(nodes, id, k))
               && (k in routes ==>
                     routes[k] == Routes.Route(set id | id in nodes && Holds(nodes, id, k) :: fullname(id), {}))
  {
    hide Run, Routes.Run, LegalRun, AllAlone, Routes.Proper, ToRoutes, Appears, Brings;
    var ids := (id: NodeId) => Appears(ops, id);
    DeclaredAppear(INITIAL, ops, ops);
    RunAbsolute(ids, INITIAL, ops);
    DistinctAlone(fullname, ids, {}, Run(INITIAL, ops).1);
    RoutedIffHeld(ns, fullname, ops, k);
  }

  lemma HoldersNamed(fullname: Naming, nodes: Nodes, k: Key, n: Routes.Needs)
    requires n.local == ByName(fullname, Held(nodes)) && n.remote == {}
    ensures Routes.Needed(n, k) <==> exists id :: Holds(nodes, id, k)
    ensures (set x | x in n.local && x.0 == k :: x.1)
         == (set id | id in nodes && Holds(nodes, id, k) :: fullname(id))
    ensures (set x | x in n.remote && x.0 == k :: x.1) == {}
  {
    forall id | Holds(nodes, id, k) ensures (k, fullname(id)) in n.local {
      assert (id, k) in Held(nodes);
    }
    forall x | x in n.local && x.0 == k ensures exists id :: Holds(nodes, id, k) && x.1 == fullname(id) {
      var y :| y in Held(nodes) && x == (y.1, fullname(y.0));
      assert Holds(nodes, y.0, k);
    }
  }

  lemma EventsOf(ops: seq<Op>, op: Op)
    requires LegalRun(INITIAL, ops)
    ensures AbsoluteEvents(ANY, Run(INITIAL, ops).1 + Step(Run(INITIAL, ops).0, op).1)
    ensures HearAll({}, Run(INITIAL, ops).1) == Held(Run(INITIAL, ops).0.nodes)
  {
    hide Run, Step;
    EventsTellAll(ops);
    RunAbsolute(ANY, INITIAL, ops);
    StepAbsolute(ANY, Run(INITIAL, ops).0, op);
  }

  /**
   * When a participant declares Writers its orphan node holds, the route of their topic stays in place
   * at every point of the declaration's events.
   */
  lemma TransferKeepsRoute(env: DiscoveryRefs.Env, ns: string, fullname: Naming, ops: seq<Op>, op: Op, k: Key, n: nat)
    requires ValidNamespace(ns) && DiscoveryRefs.AdmissibleRun(env, INITIAL, ops)
    requires op.Declare? && Legal(Run(INITIAL, ops).0, op) && DiscoveryRefs.Admissible(env, op)
    requires var nodes, orphan := Run(INITIAL, ops).0.nodes, NodeId(op.p, Orphan);
             orphan in nodes && k in nodes[orphan].ifaces
    requires n <= |Step(Run(INITIAL, ops).0, op).1|
    requires AllAlone(fullname, {}, Run(INITIAL, ops).1 + Step(Run(INITIAL, ops).0, op).1[..n])
    ensures var events := ToRoutes(fullname, Run(INITIAL, ops).1 + Step(Run(INITIAL, ops).0, op).1[..n]);
            (forall e | e in events :: Routes.Proper(ns, e))
            && k in Routes.Run(ns, Routes.NO_ROUTES, Routes.NO_NEEDS, events).0.routes
  {
    hide Run, Step, Routes.Run, Legal, AllAlone, Routes.Proper, ToRoutes, AbsoluteEvents, HearAll,
        DiscoveryRefs.Admissible, DiscoveryRefs.AdmissibleRun, DiscoveryRefs.Coherent;
    DiscoveryConfluence.AdmissibleLegal(env, INITIAL, ops);
    EventsOf(ops, op);
    var s, before, more := Run(INITIAL, ops).0, Run(INITIAL, ops).1, Step(Run(INITIAL, ops).0, op).1;
    InitialCoherent(env);
    DiscoveryRefs.RunCoherent(env, INITIAL, ops);
    DiscoveryTransfer.NeverUnserved(env, s, op, k, n);
    HearConcat({}, before, more[..n]);
    PrefixAbsolute(before, more, n);
    var rops := ToRoutes(fullname, before + more[..n]);
    ToRoutesProper(ns, fullname, before + more[..n]);
    NamesFollow(ns, fullname, {}, before + more[..n], Routes.NO_ROUTES, Routes.NO_NEEDS);
    Routes.RoutedIffNeeded(ns, rops, k);
    var id: NodeId :| id.participant == op.p && (id, k) in HearAll({}, before + more[..n]);
    assert (k, fullname(id)) in Routes.Run(ns, Routes.NO_ROUTES, Routes.NO_NEEDS, rops).1.local;
  }

  lemma InitialCoherent(env: DiscoveryRefs.Env)
    ensures DiscoveryRefs.Coherent(env, INITIAL)
  {
  }

  lemma PrefixAbsolute(before: seq<Event>, more: seq<Event>, n: nat)
    requires AbsoluteEvents(ANY, before + more) && n <= |more|
    ensures AbsoluteEvents(ANY, before + more[..n])
  {
  }

  /** Of two nodes of one full name, the first to give up an interface takes its route away. */
  lemma FirstTakesRoute(ns: string, fullname: Naming, a: NodeId, b: NodeId, k: Key, iface: Iface,
                        theirs: Iface)
    requires ValidNamespace(ns) && ValidRosName(k.name) && a != b && fullname(a) == fullname(b)
    ensures var events := [Event(a, NodeEvent(true, k, iface)), Event(b, NodeEvent(true, k, theirs)),
                           Event(a, NodeEvent(false, k, iface))];
            (forall op | op in ToRoutes(fullname, events) :: Routes.Proper(ns, op))
            && (b, k) in HearAll({}, events)
            && k !in Routes.Run(ns, Routes.NO_ROUTES, Routes.NO_NEEDS, ToRoutes(fullname, events)).0.routes
  {
    var gain, also, loss := Event(a, NodeEvent(true, k, iface)), Event(b, NodeEvent(true, k, theirs)),
                            Event(a, NodeEvent(false, k, iface));
    var events := [gain, also, loss];
    ToRoutesProper(ns, fullname, events);
    assert events[1..] == [also, loss] && [also, loss][1..] == [loss] && [loss][1..] == [];
    assert HearAll({}, events) == HearAll(Hear({}, gain), [also, loss]);
    assert HearAll(Hear({}, gain), [also, loss]) == HearAll(Hear(Hear({}, gain), also), [loss]);
    assert HearAll(Hear(Hear({}, gain), also), [loss]) == HearAll(Hear(Hear(Hear({}, gain), also), loss), []);
    var up, down := Routes.Local(Routes.Discovered(fullname(a), k), SUCCESS),
                    Routes.Local(Routes.Undiscovered(fullname(a), k), SUCCESS);
    assert ToRoutes(fullname, [loss]) == [down] + ToRoutes(fullname, []);
    assert ToRoutes(fullname, [also, loss]) == [up] + ToRoutes(fullname, [loss]);
    assert ToRoutes(fullname, events) == [up, up, down];
    Routes.RoutedIffNeeded(ns, [up, up, down], k);
    NeedsOfThree(ns, k, fullname(a));
  }

  lemma NeedsOfThree(ns: string, k: Key, node: string)
    requires ValidNamespace(ns) && ValidRosName(k.name)
    ensures var up, down := Routes.Local(Routes.Discovered(node, k), SUCCESS),
                            Routes.Local(Routes.Undiscovered(node, k), SUCCESS);
            Routes.Run(ns, Routes.NO_ROUTES, Routes.NO_NEEDS, [up, up, down]).1 == Routes.NO_NEEDS
  {
    hide Routes.Apply;
    var up, down := Routes.Local(Routes.Discovered(node, k), SUCCESS),
                    Routes.Local(Routes.Undiscovered(node, k), SUCCESS);
    assert [up, up, down][1..] == [up, down] && [up, down][1..] == [down] && [down][1..] == [];
    var s1, n1 := Routes.Apply(ns, Routes.NO_ROUTES, up), Routes.Need(ns, Routes.NO_ROUTES, Routes.NO_NEEDS, up);
    var s2, n2 := Routes.Apply(ns, s1, up), Routes.Need(ns, s1, n1, up);
    var s3, n3 := Routes.Apply(ns, s2, down), Routes.Need(ns, s2, n2, down);
    assert n1.local == n2.local == {(k, node)} && n3.local == {};
    assert Routes.Run(ns, s3, n3, []).1 == n3;
    assert Routes.Run(ns, s2, n2, [down]).1 == n3;
    assert Routes.Run(ns, s1, n1, [up, down]).1 == n3;
  }

  function Declaration(g: Gid, name: string): map<string, NodeDecl> {
    map[name := NodeDecl({}, {g}, true)]
  }

  function DeclareWriter(e: Entity, name: string): Op {
    Declare(e.participant, Declaration(e.end.gid, name), [], [(name, [e.end])], [])
  }

  /** A new node that declares one known Writer. */
  lemma NodeDeclared(nodes: Nodes, endpoints: map<End, Entity>, e: Entity, name: string)
    requires e.end.side.Writer? && OrphanTopic(e.topic) && e.end in endpoints && endpoints[e.end] == e
    requires NodeId(e.participant, Named(name)) !in nodes
    ensures var id, k := NodeId(e.participant, Named(name)), Key(MsgPub, e.topic[2..]);
            var iface := Iface(MessageType(e.typ), {e.end.gid}, map[]);
            DeclareAll(nodes, endpoints, e.participant, [(name, [e.end])])
            == (nodes[id := Node(map[k := iface], {})], [Event(id, NodeEvent(true, k, iface))])
  {
    ClassifyOrphan(e);
    hide Classify, OrphanTopic, MessageType;
    var id, k, ends := NodeId(e.participant, Named(name)), Key(MsgPub, e.topic[2..]), [e.end];
    var iface := Iface(MessageType(e.typ), {e.end.gid}, map[]);
    var node, gain := Node(map[k := iface], {}), [NodeEvent(true, k, iface)];
    assert Feed(map[], e) == (map[k := iface], gain);
    assert ends[1..] == [] && DeclareEnds(node, [], endpoints) == (node, []);
    assert DeclareEnds(EMPTY_NODE, ends, endpoints) == (node, gain + []);
    assert [(name, ends)][1..] == [];
    assert DeclareAll(nodes[id := node], endpoints, e.participant, []) == (nodes[id := node], []);
    assert Tag(id, gain) == [Event(id, gain[0])] + Tag(id, gain[1..]) && gain[1..] == [];
    assert DeclareAll(nodes, endpoints, e.participant, [(name, ends)]) == (nodes[id := node], Tag(id, gain) + []);
    assert Tag(id, gain) + [] == [Event(id, NodeEvent(true, k, iface))];
  }

  lemma NothingTransferred(end: End, name: string)
    ensures Transferred({}, [(name, [end])]) == []
  {
    assert [end][1..] == [] && [(name, [end])][1..] == [];
    assert TransferredEnds({}, [end]) == TransferredEnds({}, []);
    assert Transferred({}, [(name, [end])]) == TransferredEnds({}, [end]) + Transferred({}, []);
  }

  /** A participant without nodes declares one that publishes a topic. */
  lemma FirstDeclared(s: Disc, e: Entity, name: string)
    requires e.end.side.Writer? && OrphanTopic(e.topic) && e.end in s.endpoints && s.endpoints[e.end] == e
    requires forall id | id in s.nodes :: id.participant != e.participant
    ensures var op, id, k := DeclareWriter(e, name), NodeId(e.participant, Named(name)), Key(MsgPub, e.topic[2..]);
            var iface := Iface(MessageType(e.typ), {e.end.gid}, map[]);
            Legal(s, op) && Step(s, op).0.nodes == s.nodes[id := Node(map[k := iface], {})]
            && Step(s, op).0.endpoints == s.endpoints && Step(s, op).1 == [Event(id, NodeEvent(true, k, iface))]
  {
    hide DeclareAll, OrphanTopic, MessageType, Transferred, TransferredEnds, EndKeys;
    var op := DeclareWriter(e, name);
    NodeDeclared(s.nodes, s.endpoints, e, name);
    NothingTransferred(e.end, name);
    assert Gone(s.nodes, op.p, op.decls) == {};
    assert CloseAll(s.nodes, []) == (s.nodes, []);
    assert op.names[1..] == [];
    assert Admitted(s.nodes, op.p, op.decls, op.names) == [op.names[0]] + Admitted(s.nodes, op.p, op.decls, []);
    assert Admitted(s.nodes, op.p, op.decls, op.names) == op.names;
    assert DeclaredEnds(op.decls[name]) == {e.end};
    assert OrphanOwned(s.nodes, op.p) == {};
    assert Firsts(op.names) == [name] && Firsts(op.released) == [] && Firsts(op.order) == [];
    var (nodes', gain) := DeclareAll(s.nodes, s.endpoints, op.p, op.names);
    assert DeclareParts(s, op) == ((s.nodes, []), (nodes', gain), (nodes', []));
    assert Step(s, op).1 == [] + gain + [] == gain;
    assert NodeOrder(op.order, {}, s.nodes) && NameOrder(op.names, op.decls);
  }

  /** The participant of one node departs. */
  lemma OneDeparts(s: Disc, id: NodeId, k: Key, iface: Iface)
    requires id in s.nodes && s.nodes[id] == Node(map[k := iface], {})
    requires forall other | other in s.nodes && other.participant == id.participant :: other == id
    ensures var op := RemoveParticipant(id.participant, [(id, [k])]);
            Legal(s, op) && Step(s, op).0.nodes == s.nodes - {id}
            && Step(s, op).1 == [Event(id, NodeEvent(false, k, iface))]
  {
    hide EndKeys, NodeKeys;
    var order, loss := [(id, [k])], [NodeEvent(false, k, iface)];
    assert Ids(s.nodes, id.participant) == {id} && Firsts(order) == [id];
    assert order[1..] == [] && [k][1..] == [] && s.nodes[id].ifaces.Keys == {k};
    assert AllUndiscovered(s.nodes[id].ifaces, [k]) == loss + AllUndiscovered(s.nodes[id].ifaces, []) == loss;
    assert Tag(id, loss) == [Event(id, loss[0])] + Tag(id, []) == [Event(id, loss[0])];
    assert CloseAll(s.nodes - {id}, []) == (s.nodes - {id}, []);
    assert CloseAll(s.nodes, order) == (s.nodes - {id}, Tag(id, loss) + []);
  }

  lemma RunFive(a: Op, b: Op, c: Op, d: Op, e: Op)
    ensures var (s1, e1) := Step(INITIAL, a);
            var (s2, e2) := Step(s1, b);
            var (s3, e3) := Step(s2, c);
            var (s4, e4) := Step(s3, d);
            var (s5, e5) := Step(s4, e);
            Run(INITIAL, [a, b, c, d, e]) == (s5, e1 + (e2 + (e3 + (e4 + e5))))
            && (Legal(INITIAL, a) && Legal(s1, b) && Legal(s2, c) && Legal(s3, d) && Legal(s4, e)
                && (forall op | op in {a, b, c, d, e} && op.AddEndpoint? :: op.e.end.gid != NOT_DISCOVERED)
                ==> LegalRun(INITIAL, [a, b, c, d, e]))
  {
    hide Step, Legal;
    assert [a, b, c, d, e][1..] == [b, c, d, e] && [b, c, d, e][1..] == [c, d, e];
    assert [c, d, e][1..] == [d, e] && [d, e][1..] == [e] && [e][1..] == [];
    var (s1, e1) := Step(INITIAL, a);
    var (s2, e2) := Step(s1, b);
    var (s3, e3) := Step(s2, c);
    var (s4, e4) := Step(s3, d);
    var (s5, e5) := Step(s4, e);
    assert Run(s5, []) == (s5, []) && e5 + [] == e5;
    assert Run(s4, [e]) == (s5, e5);
    assert Run(s3, [d, e]) == (s5, e4 + e5);
    assert Run(s2, [c, d, e]) == (s5, e3 + (e4 + e5));
    assert Run(s1, [b, c, d, e]) == (s5, e2 + (e3 + (e4 + e5)));
    if Legal(INITIAL, a) && Legal(s1, b) && Legal(s2, c) && Legal(s3, d) && Legal(s4, e)
       && (forall op | op in {a, b, c, d, e} && op.AddEndpoint? :: op.e.end.gid != NOT_DISCOVERED) {
      assert LegalRun(s5, []) && LegalRun(s4, [e]) && LegalRun(s3, [d, e]);
      assert LegalRun(s2, [c, d, e]) && LegalRun(s1, [b, c, d, e]);
    }
  }

  lemma Added(s: Disc, e: Entity)
    requires s.nodes == map[]
    ensures Legal(s, AddEndpoint(e, []))
    ensures Step(s, AddEndpoint(e, [])).0.nodes == map[] && Step(s, AddEndpoint(e, [])).1 == []
    ensures Step(s, AddEndpoint(e, [])).0.endpoints == s.endpoints[e.end := e]
  {
  }

  /**
   * Two participants each declare a node of the same full name that publishes a topic: when the first one departs,
   * the topic has no route though the other node still publishes it.
   */
  lemma SharedNameLosesRoute(ns: string, fullname: Naming, topic: string, typ: string, name: string)
    requires ValidNamespace(ns) && OrphanTopic(topic)
    requires fullname(NodeId(1, Named(name))) == fullname(NodeId(2, Named(name)))
    ensures var e, f := Entity(End(Writer, 7), 1, topic, typ), Entity(End(Writer, 8), 2, topic, typ);
            var id, k := NodeId(1, Named(name)), Key(MsgPub, topic[2..]);
            var ops := [AddEndpoint(e, []), AddEndpoint(f, []), DeclareWriter(e, name), DeclareWriter(f, name),
                        RemoveParticipant(1, [(id, [k])])];
            var rops := ToRoutes(fullname, Run(INITIAL, ops).1);
            LegalRun(INITIAL, ops) && Holds(Run(INITIAL, ops).0.nodes, NodeId(2, Named(name)), k)
            && (forall op | op in rops :: Routes.Proper(ns, op))
            && k !in Routes.Run(ns, Routes.NO_ROUTES, Routes.NO_NEEDS, rops).0.routes
  {
    var e, f := Entity(End(Writer, 7), 1, topic, typ), Entity(End(Writer, 8), 2, topic, typ);
    ClassifyOrphan(e);
    hide Step, Legal, OrphanTopic, MessageType, Classify, Routes.Run, Routes.Proper, ToRoutes;
    var id, other, k := NodeId(1, Named(name)), NodeId(2, Named(name)), Key(MsgPub, topic[2..]);
    var mine, theirs := Iface(MessageType(typ), {7}, map[]), Iface(MessageType(typ), {8}, map[]);
    var a, b, leave := AddEndpoint(e, []), AddEndpoint(f, []), RemoveParticipant(1, [(id, [k])]);
    var c, d := DeclareWriter(e, name), DeclareWriter(f, name);
    Added(INITIAL, e);
    var s1 := Step(INITIAL, a).0;
    Added(s1, f);
    var s2 := Step(s1, b).0;
    FirstDeclared(s2, e, name);
    var s3 := Step(s2, c).0;
    FirstDeclared(s3, f, name);
    var s4 := Step(s3, d).0;
    OneDeparts(s4, id, k, mine);
    RunFive(a, b, c, d, leave);
    var events := [Event(id, NodeEvent(true, k, mine)), Event(other, NodeEvent(true, k, theirs)),
                   Event(id, NodeEvent(false, k, mine))];
    assert Run(INITIAL, [a, b, c, d, leave]).1 == events;
    FirstTakesRoute(ns, fullname, id, other, k, mine, theirs);
  }
}

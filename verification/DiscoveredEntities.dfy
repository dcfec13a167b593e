/**
 * The discovery state as the bridge keeps it: maps updated in place, with one object per node. Every
 * operation is proved to do what `Discovery.Step` says, for the iteration orders it met.
 */
module DiscoveredEntities {
  import opened Wrappers
  import opened Iteration
  import opened NodeInfo
  import opened Discovery
  import DiscoveryRefs

  // ---- Steps in the opposite direction of the functions -----------------------------------

  lemma {:induction false} RemoveFromMore(nodes: Nodes, end: End, a: seq<(NodeId, seq<Key>)>,
      b: seq<(NodeId, seq<Key>)>)
    ensures RemoveFrom(nodes, end, a + b)
         == if RemoveFrom(nodes, end, a).1 != [] then RemoveFrom(nodes, end, a)
             else RemoveFrom(RemoveFrom(nodes, end, a).0, end, b)
    decreases a
  {
    hide Remove;
    if a == [] {
      assert a + b == b;
    } else {
      assert (a + b)[1..] == a[1..] + b && (a + b)[0] == a[0];
      var (id, keys) := a[0];
      RemoveFromMore(if id in nodes then nodes[id := Remove(nodes[id], end, keys).0] else nodes, end, a[1..], b);
    }
  }

  lemma {:induction false} CloseAllMore(nodes: Nodes, a: seq<(NodeId, seq<Key>)>, x: (NodeId, seq<Key>))
    ensures CloseAll(nodes, a + [x]).0 == CloseAll(nodes, a).0 - {x.0}
    ensures CloseAll(nodes, a + [x]).1
         == CloseAll(nodes, a).1 + Tag(x.0, AllUndiscovered(NodeAt(CloseAll(nodes, a).0, x.0).ifaces, x.1))
    decreases a
  {
    if a == [] {
      assert [] + [x] == [x] && [x][1..] == [];
    } else {
      assert (a + [x])[1..] == a[1..] + [x] && (a + [x])[0] == a[0];
      CloseAllMore(nodes - {a[0].0}, a[1..], x);
    }
  }

  lemma {:induction false} ReleaseAllMore(nodes: Nodes, orphan: NodeId, a: seq<(Gid, seq<Key>)>, x: (Gid, seq<Key>))
    requires ReleaseOrder(nodes, orphan, a)
    requires var nodes' := ReleaseAll(nodes, orphan, a).0;
             orphan in nodes' ==> Enumerates(x.1, nodes'[orphan].ifaces.Keys)
    ensures var (nodes', events) := ReleaseAll(nodes, orphan, a);
            ReleaseOrder(nodes, orphan, a + [x])
            && ReleaseAll(nodes, orphan, a + [x]).0 == ReleaseOne(nodes', orphan, x).0
            && ReleaseAll(nodes, orphan, a + [x]).1 == events + ReleaseOne(nodes', orphan, x).1
    decreases a
  {
    hide Remove, Publishes;
    if orphan in nodes {
      if a == [] {
        assert [] + [x] == [x] && [x][1..] == [];
      } else {
        assert (a + [x])[1..] == a[1..] + [x] && (a + [x])[0] == a[0];
        var (node, e) := Remove(nodes[orphan], End(Writer, a[0].0), a[0].1);
        ReleaseAllMore(if Publishes(node) then nodes[orphan := node] else nodes - {orphan}, orphan, a[1..], x);
      }
    }
  }

  function ReleaseOne(nodes: Nodes, orphan: NodeId, x: (Gid, seq<Key>)): (Nodes, seq<Event>) {
    if orphan !in nodes then (nodes, [])
    else
      var (node, events) := Remove(nodes[orphan], End(Writer, x.0), x.1);
      (if Publishes(node) then nodes[orphan := node] else nodes - {orphan}, Tag(orphan, events))
  }

  lemma SomeOrder<T(!new)>(s: set<T>) returns (order: seq<T>)
    ensures Enumerates(order, s)
  {
    order := [];
    if s != {} {
      var x :| x in s;
      var rest := SomeOrder(s - {x});
      order := [x] + rest;
      assert forall i | 0 < i < |order| :: order[i] == rest[i - 1] && rest[i - 1] in rest;
    }
  }

  ghost predicate Drawn(order: seq<(NodeId, seq<Key>)>, ids: seq<NodeId>, nodes: Nodes) {
    |order| == |ids|
    && forall i | 0 <= i < |ids| ::
         order[i].0 == ids[i] && ids[i] in nodes && Enumerates(order[i].1, nodes[ids[i]].ifaces.Keys)
  }

  lemma DrawnOrder(order: seq<(NodeId, seq<Key>)>, ids: seq<NodeId>, nodes: Nodes, all: set<NodeId>)
    requires Drawn(order, ids, nodes) && Enumerates(ids, all)
    ensures NodeOrder(order, all, nodes)
  {
  }

  /** The loop over the nodes stopped early: the orders it did not get to are some orders. */
  lemma RestOrder(ids: seq<NodeId>, nodes: Nodes) returns (order: seq<(NodeId, seq<Key>)>)
    requires forall id | id in ids :: id in nodes
    ensures Drawn(order, ids, nodes)
  {
    order := [];
    if ids != [] {
      var keys := SomeOrder(nodes[ids[0]].ifaces.Keys);
      var rest := RestOrder(ids[1..], nodes);
      order := [(ids[0], keys)] + rest;
      assert forall i | 0 < i < |order| :: order[i] == rest[i - 1];
    }
  }

  class DiscoveredEntities {
    var participants: set<Gid>
    var endpoints: map<End, Entity>
    var nodes: Nodes
    var admin: set<AdminKey>
    var firstSeen: map<Gid, int>

    ghost function State(): Disc
      reads this
    {
      Disc(participants, endpoints, nodes, admin, firstSeen)
    }

    constructor ()
      ensures State() == INITIAL
    {
      participants, endpoints, nodes, admin, firstSeen := {}, map[], map[], {}, map[];
    }

    method AddParticipant(p: Gid)
      modifies this
      ensures State() == Step(old(State()), Op.AddParticipant(p)).0
    {
      admin := admin + {ParticipantKey(p)};
      participants := participants + {p};
    }

    /** A new endpoint reaches the nodes that parked it. */
    method Distribute(e: Entity) returns (events: seq<Event>, ghost ids: seq<NodeId>)
      modifies `nodes
      ensures Enumerates(ids, old(nodes.Keys))
      ensures AddTo(old(nodes), e, ids, {}) == (nodes, events)
    {
      hide Feed;
      var order := IterationOrder(nodes.Keys);
      ids := order;
      events := [];
      var hit := {};
      for i := 0 to |order|
        invariant nodes.Keys == old(nodes.Keys) && AddTo(nodes, e, order[i..], hit) == AddTo(old(nodes), e, order, {})
      {
        var id := order[i];
        assert id in order && order[i..][1..] == order[i + 1..];
        var node := nodes[id];
        if e.end in node.parked && id.participant !in hit {
          var (ifaces, found) := Feed(node.ifaces, e);
          nodes := nodes[id := Node(ifaces, node.parked - {e.end})];
          if found != [] {
            events := Tag(id, found);
            return;
          }
          hit := hit + {id.participant};
        }
      }
    }

    /** `add_writer` or `add_reader`. */
    method AddEndpoint(e: Entity) returns (events: seq<Event>, ghost op: Op)
      modifies this
      ensures op.AddEndpoint? && op.e == e && Legal(old(State()), op)
      ensures (State(), events) == Step(old(State()), op)
    {
      admin := admin + {EndKeyOf(e)};
      ghost var ids;
      events, ids := Distribute(e);
      endpoints := endpoints[e.end := e];
      op := Op.AddEndpoint(e, ids);
    }

    /** A removed endpoint is taken out of the nodes, until one undiscovers an interface. */
    method Withdraw(end: End) returns (events: seq<Event>, ghost order: seq<(NodeId, seq<Key>)>)
      modifies `nodes
      ensures NodeOrder(order, old(nodes.Keys), old(nodes))
      ensures RemoveFrom(old(nodes), end, order) == (nodes, events)
    {
      hide Remove, RemoveFrom, Drawn, NodeOrder;
      events, order := [], [];
      ghost var before := nodes;
      var ids := IterationOrder(nodes.Keys);
      WithdrawNone(before, end, ids);
      for i := 0 to |ids|
        invariant events == [] && Drawn(order, ids[..i], before) && nodes.Keys == before.Keys
        invariant forall j | i <= j < |ids| :: ids[j] in before && nodes[ids[j]] == before[ids[j]]
        invariant RemoveFrom(before, end, order) == (nodes, [])
      {
        var id := ids[i];
        var keys := IterationOrder(nodes[id].ifaces.Keys);
        order := WithdrawMore(before, end, order, ids, i, nodes, keys);
        var (node, found) := Remove(nodes[id], end, keys);
        nodes := nodes[id := node];
        if found != [] {
          events := Tag(id, found);
          order := WithdrawEnd(before, end, order, ids, i + 1, before.Keys);
          return;
        }
      }
      order := WithdrawEnd(before, end, order, ids, |ids|, before.Keys);
    }

    /** `remove_writer` or `remove_reader`. */
    method RemoveEndpoint(end: End) returns (events: seq<Event>, ghost op: Op)
      modifies this
      ensures op.RemoveEndpoint? && op.end == end && Legal(old(State()), op)
      ensures (State(), events) == Step(old(State()), op)
    {
      events := [];
      op := Op.RemoveEndpoint(end, []);
      if end in endpoints {
        admin := admin - {EndKeyOf(endpoints[end])};
        endpoints := endpoints - {end};
        ghost var order;
        events, order := Withdraw(end);
        op := Op.RemoveEndpoint(end, order);
      }
    }

    /** Nodes leave, undiscovering all they held. */
    method CloseNodes(leaving: set<NodeId>) returns (events: seq<Event>, ghost order: seq<(NodeId, seq<Key>)>)
      requires leaving <= nodes.Keys
      modifies `nodes, `admin
      ensures nodes == old(nodes) - leaving && admin == old(admin) - NodeKeys(leaving)
      ensures NodeOrder(order, leaving, old(nodes)) && CloseAll(old(nodes), order) == (nodes, events)
    {
      hide CloseAll, Drawn, NodeOrder, AllUndiscovered, NodeKeys, Elements;
      events, order := [], [];
      ghost var before := nodes;
      var ids := IterationOrder(leaving);
      CloseNone(before, ids);
      for i := 0 to |ids|
        invariant nodes == before - Elements(ids[..i]) && admin == old(admin) - NodeKeys(Elements(ids[..i]))
        invariant Drawn(order, ids[..i], before) && CloseAll(before, order) == (nodes, events)
      {
        var id := ids[i];
        Visited(ids, leaving, i);
        var keys := IterationOrder(nodes[id].ifaces.Keys);
        order := CloseMore(before, order, ids, i, keys);
        events := events + Tag(id, AllUndiscovered(nodes[id].ifaces, keys));
        admin := admin - {NodeKey(id)};
        nodes := nodes - {id};
      }
      assert ids[..|ids|] == ids;
      VisitedAll(ids, leaving);
      DrawnOrder(order, ids, before, leaving);
    }

    /** The endpoints of a participant that left are purged. */
    method Purge(p: Gid)
      modifies `endpoints, `admin, `firstSeen
      ensures var stale := EndpointsOn(old(endpoints), p);
              endpoints == old(endpoints) - stale && admin == old(admin) - EndKeys(old(endpoints), stale)
              && firstSeen == old(firstSeen) - WriterGids(stale)
    {
      var stale := EndpointsOn(endpoints, p);
      var ends := IterationOrder(stale);
      ghost var known := endpoints;
      for i := 0 to |ends|
        invariant endpoints == known - Elements(ends[..i])
        invariant admin == old(admin) - EndKeys(known, Elements(ends[..i]))
        invariant firstSeen == old(firstSeen) - WriterGids(Elements(ends[..i]))
      {
        var end := ends[i];
        assert ends[..i + 1] == ends[..i] + [end] && end in ends && end !in ends[..i];
        assert Elements(ends[..i + 1]) == Elements(ends[..i]) + {end};
        admin := admin - {EndKeyOf(endpoints[end])};
        endpoints := endpoints - {end};
        if end.side.Writer? {
          firstSeen := firstSeen - {end.gid};
        }
      }
      assert ends[..|ends|] == ends && Elements(ends) == stale;
    }

    method RemoveParticipant(p: Gid) returns (events: seq<Event>, ghost op: Op)
      modifies this
      ensures op.RemoveParticipant? && op.p == p && Legal(old(State()), op)
      ensures (State(), events) == Step(old(State()), op)
    {
      hide CloseAll, Step, NodeOrder, NodeKeys, EndpointsOn, EndKeys, WriterGids;
      participants := participants - {p};
      admin := admin - {ParticipantKey(p)};
      var ids := Ids(nodes, p);
      ghost var order;
      events, order := CloseNodes(ids);
      Purge(p);
      op := Op.RemoveParticipant(p, order);
      DepartStep(old(State()), op, ids, State(), events);
    }

    /** The declared nodes are created where needed and updated, until a name turns out not to make a node. */
    method DeclareNodes(p: Gid, decls: map<string, NodeDecl>, names: seq<(string, seq<End>)>, owned: set<Gid>)
      returns (events: seq<Event>, transferred: seq<Gid>)
      requires NameOrder(names, decls)
      modifies `nodes, `admin
      ensures var admitted := Admitted(old(nodes), p, decls, names);
              DeclareAll(old(nodes), endpoints, p, admitted) == (nodes, events)
              && transferred == Transferred(owned, admitted)
      ensures admin == old(admin) + CreatedKeys(old(nodes), nodes) && old(nodes.Keys) <= nodes.Keys
    {
      hide DeclareEnds, CreatedKeys, TransferredEnds, Transferred, DeclareAll, Admitted, NameOrder;
      events, transferred := [], [];
      ghost var before := nodes;
      ghost var rest := Admitted(before, p, decls, names);
      ghost var result, moving := DeclareAll(before, endpoints, p, rest), Transferred(owned, rest);
      NamesApart(names, decls);
      CreatedNone(before);
      for i := 0 to |names|
        invariant admin == old(admin) + CreatedKeys(before, nodes) && before.Keys <= nodes.Keys
        invariant forall j | i <= j < |names| ::
                    NodeId(p, Named(names[j].0)) in nodes <==> NodeId(p, Named(names[j].0)) in before
        invariant rest == Admitted(before, p, decls, names[i..]) && transferred + Transferred(owned, rest) == moving
        invariant DeclareAll(nodes, endpoints, p, rest).0 == result.0
        invariant events + DeclareAll(nodes, endpoints, p, rest).1 == result.1
      {
        var (name, ends) := names[i];
        var id := NodeId(p, Named(name));
        DeclareNext(before, nodes, endpoints, p, decls, names[i..], owned);
        assert names[i..][1..] == names[i + 1..];
        if id !in nodes && !decls[name].creatable {
          break;
        }
        ghost var now := nodes;
        if id !in nodes {
          admin := admin + {NodeKey(id)};
          nodes := nodes[id := EMPTY_NODE];
        }
        var node, found, moved := UpdateNodeInfo(nodes[id], ends, endpoints, owned);
        nodes := nodes[id := node];
        assert nodes == now[id := node];
        CreatedOne(before, now, id, node);
        events := events + Tag(id, found);
        transferred := transferred + moved;
        rest := rest[1..];
      }
      assert names[|names|..] == [] && events + [] == events && transferred + [] == transferred;
      NothingDeclared(before, endpoints, p, decls, owned);
      NothingDeclared(nodes, endpoints, p, decls, owned);
      assert rest == [];
    }

    /** The orphan node releases the Writers its participant's nodes declared, and goes once it publishes nothing. */
    method Release(orphan: NodeId, transferred: seq<Gid>)
        returns (events: seq<Event>, ghost released: seq<(Gid, seq<Key>)>)
      modifies `nodes, `admin
      ensures Firsts(released) == transferred && ReleaseOrder(old(nodes), orphan, released)
      ensures ReleaseAll(old(nodes), orphan, released) == (nodes, events)
      ensures admin == old(admin) - NodeKeys(old(nodes.Keys) - nodes.Keys)
      ensures nodes.Keys == old(nodes.Keys) || nodes.Keys == old(nodes.Keys) - {orphan}
    {
      hide Remove, ReleaseAll, ReleaseOrder, Publishes;
      events, released := [], [];
      ghost var before := nodes;
      ReleaseNone(before, orphan);
      for i := 0 to |transferred|
        invariant |released| == i && forall j | 0 <= j < i :: released[j].0 == transferred[j]
        invariant ReleaseOrder(before, orphan, released) && ReleaseAll(before, orphan, released) == (nodes, events)
        invariant admin == if orphan in before && orphan !in nodes then old(admin) - {NodeKey(orphan)} else old(admin)
        invariant nodes.Keys == before.Keys || nodes.Keys == before.Keys - {orphan}
      {
        var keys := [];
        ghost var now := nodes;
        if orphan in nodes {
          keys := IterationOrder(nodes[orphan].ifaces.Keys);
          var (node, found) := Remove(nodes[orphan], End(Writer, transferred[i]), keys);
          events := events + Tag(orphan, found);
          nodes := nodes[orphan := node];
          if !Publishes(node) {
            admin := admin - {NodeKey(orphan)};
            nodes := nodes - {orphan};
            assert nodes == now - {orphan};
          }
        }
        assert orphan !in now ==> events + [] == events;
        ReleaseAllMore(before, orphan, released, (transferred[i], keys));
        released := released + [(transferred[i], keys)];
      }
    }

    method UpdateParticipantInfo(p: Gid, decls: map<string, NodeDecl>) returns (events: seq<Event>, ghost op: Op)
      modifies this
      ensures op.Declare? && op.p == p && op.decls == decls && Legal(old(State()), op)
      ensures (State(), events) == Step(old(State()), op)
    {
      hide Step, Legal, Gone, CloseAll, NodeOrder, NameOrder, ReleaseOrder, DeclareAll, Admitted, ReleaseAll,
           Transferred, OrphanOwned, NodeKeys, CreatedKeys;
      var gone := Gone(nodes, p, decls);
      GoneKnown(nodes, p, decls);
      ghost var order, released;
      var closing, declaring, releasing, transferred;
      closing, order := CloseNodes(gone);
      ghost var closed := nodes;
      var owned := OrphanOwned(nodes, p);
      var names := DeclarationOrder(decls);
      declaring, transferred := DeclareNodes(p, decls, names, owned);
      ghost var declared := nodes;
      releasing, released := Release(NodeId(p, Orphan), transferred);
      events := closing + declaring + releasing;
      op := Op.Declare(p, decls, order, names, released);
      DeclareStep(old(State()), op, closed, declared, State(), closing, declaring, releasing);
    }

    method ResolvePendingEndpoints() returns (events: seq<Event>, ghost op: Op)
      modifies `nodes
      ensures op.Resolve? && Legal(old(State()), op)
      ensures (State(), events) == Step(old(State()), op)
    {
      hide FeedAll, ResolveAll, Classify;
      events := [];
      ghost var before := nodes;
      ghost var pending: seq<(NodeId, seq<End>)> := [];
      var ids := IterationOrder(nodes.Keys);
      ResolveNone(before, endpoints);
      for i := 0 to |ids|
        invariant |pending| == i && nodes.Keys == before.Keys
        invariant forall j | 0 <= j < i ::
                    pending[j].0 == ids[j] && ids[j] in before
                        && Enumerates(pending[j].1, before[ids[j]].parked * endpoints.Keys)
        invariant forall j | i <= j < |ids| :: ids[j] in before && nodes[ids[j]] == before[ids[j]]
        invariant ResolveAll(before, endpoints, pending) == (nodes, events)
      {
        var id := ids[i];
        var ends := IterationOrder(nodes[id].parked * endpoints.Keys);
        ResolveMore(before, endpoints, pending, id, ends);
        pending := pending + [(id, ends)];
        var node, found := ResolveNode(nodes[id], endpoints, ends);
        nodes := nodes[id := node];
        events := events + Tag(id, found);
      }
      op := Op.Resolve(pending);
      assert Firsts(pending) == ids;
    }

    /** The orphan node of the Writer's participant, created if need be, takes it over. */
    method Claim(e: Entity, ghost s: Disc) returns (events: seq<Event>)
      requires s.nodes.Keys <= nodes.Keys && admin == s.admin + CreatedKeys(s.nodes, nodes)
      modifies `nodes, `admin
      ensures s.nodes.Keys <= nodes.Keys && admin == s.admin + CreatedKeys(s.nodes, nodes)
      ensures var id := NodeId(e.participant, Orphan);
              var (ifaces, found) := Feed(NodeAt(old(nodes), id).ifaces, e);
              nodes == old(nodes)[id := NodeAt(old(nodes), id).(ifaces := ifaces)] && events == Tag(id, found)
    {
      hide Feed, CreatedKeys;
      var id := NodeId(e.participant, Orphan);
      ghost var known := nodes;
      if id !in nodes {
        admin := admin + {NodeKey(id)};
        nodes := nodes[id := EMPTY_NODE];
      }
      var (ifaces, found) := Feed(nodes[id].ifaces, e);
      nodes := nodes[id := nodes[id].(ifaces := ifaces)];
      assert nodes == known[id := NodeAt(known, id).(ifaces := ifaces)];
      CreatedOne(s.nodes, known, id, nodes[id]);
      events := Tag(id, found);
    }

    /** Whether the grace period of an undeclared Writer is over, remembering since when it waits if not. */
    method StopsWaiting(gid: Gid, now: int, grace: nat) returns (due: bool)
      modifies `firstSeen
      ensures var since := if gid in old(firstSeen) then old(firstSeen)[gid] else now;
              due == (Elapsed(since, now) >= grace)
              && firstSeen == if due then old(firstSeen) - {gid} else old(firstSeen)[gid := since]
    {
      if gid !in firstSeen {
        firstSeen := firstSeen[gid := now];
      }
      due := Elapsed(firstSeen[gid], now) >= grace;
      if due {
        firstSeen := firstSeen - {gid};
      }
    }

    /** The candidates are claimed in the order `gids`, each when its grace period is over. */
    method ClaimCandidates(now: int, grace: nat, gids: seq<Gid>, ghost s: Disc) returns (events: seq<Event>)
      requires endpoints == s.endpoints && nodes == s.nodes && admin == s.admin
      requires firstSeen == SeenAfter(s, now, grace, gids, 0)
      requires forall a, b | 0 <= a < b < |gids| :: gids[a] != gids[b]
      requires forall g | g in gids :: End(Writer, g) in s.endpoints
      modifies `nodes, `admin, `firstSeen
      ensures ClaimAll(s.nodes, DueWriters(s, now, grace, gids)) == (nodes, events)
      ensures s.nodes.Keys <= nodes.Keys && admin == s.admin + CreatedKeys(s.nodes, nodes)
      ensures firstSeen == SeenAfter(s, now, grace, gids, |gids|)
    {
      hide Feed, DueWriters, ClaimAll, CreatedKeys, SeenAfter, Due, FirstSeen, Elapsed;
      events := [];
      ghost var result := ClaimAll(s.nodes, DueWriters(s, now, grace, gids));
      CreatedNone(s.nodes);
      for i := 0 to |gids|
        invariant ClaimAll(nodes, DueWriters(s, now, grace, gids[i..])).0 == result.0
        invariant events + ClaimAll(nodes, DueWriters(s, now, grace, gids[i..])).1 == result.1
        invariant admin == s.admin + CreatedKeys(s.nodes, nodes) && s.nodes.Keys <= nodes.Keys
        invariant firstSeen == SeenAfter(s, now, grace, gids, i)
      {
        var gid := gids[i];
        assert gid in gids && gids[i..][1..] == gids[i + 1..] && gids[i..][0] == gid;
        SeenNext(s, now, grace, gids, i);
        ClaimNext(s, nodes, now, grace, gids[i..]);
        var due := StopsWaiting(gid, now, grace);
        if due {
          var claimed := Claim(endpoints[End(Writer, gid)], s);
          events := events + claimed;
        }
      }
      assert gids[|gids|..] == [] && events + [] == events;
      SweepNone(s, nodes, now, grace);
    }

    method ForwardOrphanWriters(now: int, grace: nat) returns (events: seq<Event>, ghost op: Op)
      modifies `nodes, `admin, `firstSeen
      ensures op.Sweep? && op.now == now && op.grace == grace && Legal(old(State()), op)
      ensures (State(), events) == Step(old(State()), op)
    {
      hide DueWriters, ClaimAll, CreatedKeys, SeenAfter, Step, Legal, Candidates;
      ghost var s := State();
      var candidates := Candidates(Disc(participants, endpoints, nodes, admin, firstSeen));
      CandidatesKnown(s);
      firstSeen := map g | g in firstSeen && g in candidates :: firstSeen[g];
      var gids := IterationOrder(candidates);
      op := Op.Sweep(now, grace, gids);
      SeenFirst(s, now, grace, gids);
      CreatedNone(s.nodes);
      events := ClaimCandidates(now, grace, gids, s);
      SweepEnd(s, op, State(), events);
    }
  }

  lemma WithdrawNone(nodes: Nodes, end: End, ids: seq<NodeId>)
    ensures RemoveFrom(nodes, end, []) == (nodes, []) && Drawn([], ids[..0], nodes)
  {
  }

  /** One more node visited, under an iteration order of its interfaces. */
  lemma WithdrawMore(nodes: Nodes, end: End, order: seq<(NodeId, seq<Key>)>, ids: seq<NodeId>, i: nat, now: Nodes,
      keys: seq<Key>)
    returns (order': seq<(NodeId, seq<Key>)>)
    requires i < |ids| && ids[i] in nodes && ids[i] in now && Drawn(order, ids[..i], nodes)
    requires RemoveFrom(nodes, end, order) == (now, []) && Enumerates(keys, nodes[ids[i]].ifaces.Keys)
    ensures Drawn(order', ids[..i + 1], nodes)
    ensures var (node, found) := Remove(now[ids[i]], end, keys);
            RemoveFrom(nodes, end, order') == (now[ids[i] := node], Tag(ids[i], found))
  {
    hide Remove;
    var x: (NodeId, seq<Key>) := (ids[i], keys);
    order' := order + [x];
    RemoveFromMore(nodes, end, order, [x]);
    assert |[x]| == 1;
  }

  /** The loop over the nodes ends here: the orders it did not get to may be any. */
  lemma WithdrawEnd(nodes: Nodes, end: End, order: seq<(NodeId, seq<Key>)>, ids: seq<NodeId>, i: nat, all: set<NodeId>)
    returns (order': seq<(NodeId, seq<Key>)>)
    requires i <= |ids| && Enumerates(ids, all) && all <= nodes.Keys && Drawn(order, ids[..i], nodes)
    requires RemoveFrom(nodes, end, order).1 == [] ==> i == |ids|
    ensures NodeOrder(order', all, nodes) && RemoveFrom(nodes, end, order') == RemoveFrom(nodes, end, order)
  {
    hide RemoveFrom;
    var rest := RestOrder(ids[i..], nodes);
    order' := order + rest;
    RemoveFromMore(nodes, end, order, rest);
    assert ids == ids[..i] + ids[i..];
    if i == |ids| {
      assert order' == order;
    }
    DrawnOrder(order', ids, nodes, all);
  }

  lemma Visited(ids: seq<NodeId>, all: set<NodeId>, i: nat)
    requires Enumerates(ids, all) && i < |ids|
    ensures ids[..i + 1] == ids[..i] + [ids[i]] && ids[i] in all && ids[i] !in Elements(ids[..i])
    ensures Elements(ids[..i + 1]) == Elements(ids[..i]) + {ids[i]}
    ensures NodeKeys(Elements(ids[..i + 1])) == NodeKeys(Elements(ids[..i])) + {NodeKey(ids[i])}
  {
  }

  lemma VisitedAll(ids: seq<NodeId>, all: set<NodeId>)
    requires Enumerates(ids, all)
    ensures Elements(ids) == all
  {
  }

  lemma CloseNone(nodes: Nodes, ids: seq<NodeId>)
    ensures CloseAll(nodes, []) == (nodes, []) && Drawn([], ids[..0], nodes)
    ensures Elements(ids[..0]) == {} && NodeKeys({}) == {}
  {
  }

  lemma CloseMore(nodes: Nodes, order: seq<(NodeId, seq<Key>)>, ids: seq<NodeId>, i: nat, keys: seq<Key>)
    returns (order': seq<(NodeId, seq<Key>)>)
    requires i < |ids| && ids[i] in nodes && Drawn(order, ids[..i], nodes) && ids[i] in CloseAll(nodes, order).0
    requires CloseAll(nodes, order).0[ids[i]] == nodes[ids[i]] && Enumerates(keys, nodes[ids[i]].ifaces.Keys)
    ensures Drawn(order', ids[..i + 1], nodes)
    ensures var (now, events) := CloseAll(nodes, order);
            CloseAll(nodes, order') == (now - {ids[i]},
                events + Tag(ids[i], AllUndiscovered(nodes[ids[i]].ifaces, keys)))
  {
    hide CloseAll, AllUndiscovered;
    order' := order + [(ids[i], keys)];
    CloseAllMore(nodes, order, (ids[i], keys));
  }

  lemma DepartStep(s: Disc, op: Op, ids: set<NodeId>, s': Disc, events: seq<Event>)
    requires op.RemoveParticipant? && ids <= s.nodes.Keys && s'.nodes.Keys == s.nodes.Keys - ids
    requires CloseAll(s.nodes, op.order) == (s'.nodes, events) && s'.participants == s.participants - {op.p}
    requires var stale := EndpointsOn(s.endpoints, op.p);
             s'.endpoints == s.endpoints - stale
             && s'.admin == s.admin - {ParticipantKey(op.p)} - NodeKeys(ids) - EndKeys(s.endpoints, stale)
             && s'.firstSeen == s.firstSeen - WriterGids(stale)
    ensures Step(s, op) == (s', events)
  {
    hide CloseAll;
    assert s.nodes.Keys - s'.nodes.Keys == ids && s'.nodes.Keys - s.nodes.Keys == {};
    assert Step(s, op).0.admin == s'.admin;
  }

  /** `update_node_info`. */
  method UpdateNodeInfo(declared: Node, ends: seq<End>, endpoints: map<End, Entity>, owned: set<Gid>)
    returns (node: Node, events: seq<NodeEvent>, transferred: seq<Gid>)
    ensures DeclareEnds(declared, ends, endpoints) == (node, events)
    ensures transferred == TransferredEnds(owned, ends)
  {
    hide Feed;
    node, events, transferred := declared, [], [];
    for i := 0 to |ends|
      invariant transferred + TransferredEnds(owned, ends[i..]) == TransferredEnds(owned, ends)
      invariant DeclareEnds(node, ends[i..], endpoints).0 == DeclareEnds(declared, ends, endpoints).0
      invariant events + DeclareEnds(node, ends[i..], endpoints).1 == DeclareEnds(declared, ends, endpoints).1
    {
      var end := ends[i];
      assert ends[i..][1..] == ends[i + 1..] && ends[i..][0] == end;
      if end.side.Writer? && end.gid in owned {
        transferred := transferred + [end.gid];
      }
      if end in endpoints {
        var (ifaces, found) := Feed(node.ifaces, endpoints[end]);
        node := node.(ifaces := ifaces);
        events := events + found;
      } else {
        node := node.(parked := node.parked + {end});
      }
    }
    assert ends[|ends|..] == [] && events + [] == events;
  }

  lemma NamesApart(names: seq<(string, seq<End>)>, decls: map<string, NodeDecl>)
    requires NameOrder(names, decls)
    ensures forall i, j | 0 <= i < j < |names| :: names[i].0 != names[j].0
    ensures forall i | 0 <= i < |names| :: names[i].0 in decls
  {
  }

  /** The keys of the nodes created since `before`. */
  function CreatedKeys(before: Nodes, now: Nodes): set<AdminKey> {
    NodeKeys(now.Keys - before.Keys)
  }

  lemma CreatedNone(nodes: Nodes)
    ensures CreatedKeys(nodes, nodes) == {}
  {
  }

  lemma CreatedOne(before: Nodes, now: Nodes, id: NodeId, node: Node)
    requires id in now || id !in before
    ensures CreatedKeys(before, now[id := node]) == CreatedKeys(before, now) + (if id in now then {} else {NodeKey(id)})
  {
  }

  /** What one round of the loop over the declared nodes does. */
  lemma DeclareNext(before: Nodes, now: Nodes, endpoints: map<End, Entity>, p: Gid, decls: map<string, NodeDecl>,
                    names: seq<(string, seq<End>)>, owned: set<Gid>)
    requires names != [] && names[0].0 in decls
    ensures var rest := Admitted(before, p, decls, names);
            var id := NodeId(p, Named(names[0].0));
            if id !in before && !decls[names[0].0].creatable then rest == []
            else
              var declared := DeclareEnds(NodeAt(now, id), names[0].1, endpoints);
              var later := DeclareAll(now[id := declared.0], endpoints, p, rest[1..]);
              rest != [] && rest[1..] == Admitted(before, p, decls, names[1..])
              && DeclareAll(now, endpoints, p, rest).0 == later.0
              && DeclareAll(now, endpoints, p, rest).1 == Tag(id, declared.1) + later.1
              && Transferred(owned, rest) == TransferredEnds(owned, names[0].1) + Transferred(owned, rest[1..])
  {
    hide DeclareEnds, TransferredEnds;
  }

  lemma NothingDeclared(nodes: Nodes, endpoints: map<End, Entity>, p: Gid, decls: map<string, NodeDecl>,
      owned: set<Gid>)
    ensures DeclareAll(nodes, endpoints, p, []) == (nodes, []) && Transferred(owned, []) == []
    ensures Admitted(nodes, p, decls, []) == []
  {
  }

  lemma ReleaseNone(nodes: Nodes, orphan: NodeId)
    ensures ReleaseOrder(nodes, orphan, []) && ReleaseAll(nodes, orphan, []) == (nodes, [])
  {
  }

  lemma GoneKnown(nodes: Nodes, p: Gid, decls: map<string, NodeDecl>)
    ensures Gone(nodes, p, decls) <= nodes.Keys
  {
  }

  /** How the sets of a declared node are iterated: its Readers, then its Writers. */
  method EndsOrder(d: NodeDecl) returns (ends: seq<End>)
    ensures Enumerates(ends, DeclaredEnds(d))
    ensures forall a, b | 0 <= a < b < |ends| && ends[b].side.Reader? :: ends[a].side.Reader?
  {
    var readers := IterationOrder(d.readers);
    var writers := IterationOrder(d.writers);
    ends := seq(|readers|, i requires 0 <= i < |readers| => End(Reader, readers[i]))
            + seq(|writers|, i requires 0 <= i < |writers| => End(Writer, writers[i]));
    forall end ensures end in ends <==> end in DeclaredEnds(d) {
      if end in DeclaredEnds(d) {
        if end.side.Reader? {
          var i :| 0 <= i < |readers| && readers[i] == end.gid;
          assert ends[i] == end;
        } else {
          var i :| 0 <= i < |writers| && writers[i] == end.gid;
          assert ends[|readers| + i] == end;
        }
      }
      if i :| 0 <= i < |ends| && ends[i] == end {
        assert if i < |readers| then end == End(Reader, readers[i]) && readers[i] in readers
               else end == End(Writer, writers[i - |readers|]) && writers[i - |readers|] in writers;
      }
    }
  }

  method DeclarationOrder(decls: map<string, NodeDecl>) returns (names: seq<(string, seq<End>)>)
    ensures NameOrder(names, decls)
  {
    var order := IterationOrder(decls.Keys);
    names := [];
    for i := 0 to |order|
      invariant |names| == i
      invariant forall j | 0 <= j < i ::
                  names[j].0 == order[j] && order[j] in decls && Enumerates(names[j].1, DeclaredEnds(decls[order[j]]))
                  && forall a, b | 0 <= a < b < |names[j].1| && names[j].1[b].side.Reader? :: names[j].1[a].side.Reader?
    {
      assert order[i] in order;
      var ends := EndsOrder(decls[order[i]]);
      names := names + [(order[i], ends)];
    }
    assert Firsts(names) == order;
  }

  /** The three parts of a declaration make up the step. */
  lemma DeclareStep(s: Disc, op: Op, closed: Nodes, declared: Nodes, s': Disc, e1: seq<Event>, e2: seq<Event>,
      e3: seq<Event>)
    requires op.Declare? && NodeOrder(op.order, Gone(s.nodes, op.p, op.decls), s.nodes) && NameOrder(op.names, op.decls)
    requires CloseAll(s.nodes, op.order) == (closed, e1) && closed == s.nodes - Gone(s.nodes, op.p, op.decls)
    requires var admitted := Admitted(closed, op.p, op.decls, op.names);
             DeclareAll(closed, s.endpoints, op.p, admitted) == (declared, e2)
             && Firsts(op.released) == Transferred(OrphanOwned(closed, op.p), admitted)
    requires ReleaseOrder(declared, NodeId(op.p, Orphan), op.released)
    requires ReleaseAll(declared, NodeId(op.p, Orphan), op.released) == (s'.nodes, e3)
    requires s'.nodes.Keys == declared.Keys || s'.nodes.Keys == declared.Keys - {NodeId(op.p, Orphan)}
    requires s' == s.(nodes := s'.nodes,
                      admin := s.admin - NodeKeys(Gone(s.nodes, op.p, op.decls)) + CreatedKeys(closed, declared)
                               - NodeKeys(declared.Keys - s'.nodes.Keys))
    ensures Legal(s, op) && Step(s, op) == (s', e1 + e2 + e3)
  {
    hide CloseAll, NodeOrder, ReleaseOrder, DeclareAll, Admitted, ReleaseAll, Transferred, OrphanOwned, NodeKeys,
        CreatedKeys, Gone;
    assert DeclareParts(s, op) == ((closed, e1), (declared, e2), (s'.nodes, e3));
    DeclaredKeys(s, op);
    AdminChain(s, op.p, op.decls, closed, declared, s'.nodes);
    assert WithNodes(s, s'.nodes) == s';
  }

  /** Nodes come and go in three steps, and the admin space follows. */
  lemma AdminChain(s: Disc, p: Gid, decls: map<string, NodeDecl>, closed: Nodes, declared: Nodes, nodes': Nodes)
    requires closed == s.nodes - Gone(s.nodes, p, decls) && closed.Keys <= declared.Keys
    requires forall id | id in declared && id !in closed ::
               id.participant == p && id.name.Named? && id.name.fullname in decls
    requires nodes'.Keys == declared.Keys || nodes'.Keys == declared.Keys - {NodeId(p, Orphan)}
    ensures WithNodes(s, nodes').admin
         == s.admin - NodeKeys(Gone(s.nodes, p, decls)) + CreatedKeys(closed, declared)
            - NodeKeys(declared.Keys - nodes'.Keys)
  {
  }

  /** Declared nodes are named ones of the declaration. */
  lemma DeclaredKeys(s: Disc, op: Op)
    requires op.Declare? && NameOrder(op.names, op.decls)
    ensures var (closed, declared, _) := DeclareParts(s, op);
            closed.0.Keys <= declared.0.Keys
            && forall id | id in declared.0 && id !in closed.0 ::
                 id.participant == op.p && id.name.Named? && id.name.fullname in op.decls
  {
    var closed := DeclareParts(s, op).0.0;
    var admitted := Admitted(closed, op.p, op.decls, op.names);
    DiscoveryRefs.AdmittedListed(closed, op.p, op.decls, op.names);
    forall i | 0 <= i < |admitted| ensures admitted[i].0 in op.decls {
      assert admitted[i] == op.names[i];
    }
    DeclareAllKeys(closed, s.endpoints, op.p, admitted, op.decls);
  }

  lemma {:induction false} DeclareAllKeys(nodes: Nodes, endpoints: map<End, Entity>, p: Gid,
      names: seq<(string, seq<End>)>, decls: map<string, NodeDecl>)
    requires forall i | 0 <= i < |names| :: names[i].0 in decls
    ensures var nodes' := DeclareAll(nodes, endpoints, p, names).0;
            nodes.Keys <= nodes'.Keys
            && forall id | id in nodes' && id !in nodes ::
                 id.participant == p && id.name.Named? && id.name.fullname in decls
    decreases names
  {
    hide DeclareEnds;
    if names != [] {
      assert forall i | 0 < i < |names| :: names[1..][i - 1] == names[i];
      var id := NodeId(p, Named(names[0].0));
      DeclareAllKeys(nodes[id := DeclareEnds(NodeAt(nodes, id), names[0].1, endpoints).0], endpoints, p, names[1..],
          decls);
    }
  }

  lemma ResolveNone(nodes: Nodes, endpoints: map<End, Entity>)
    ensures ResolveAll(nodes, endpoints, []) == (nodes, [])
  {
  }

  lemma {:induction false} ResolveMore(nodes: Nodes, endpoints: map<End, Entity>, order: seq<(NodeId, seq<End>)>,
      id: NodeId, ends: seq<End>)
    requires id in nodes && forall i | 0 <= i < |order| :: order[i].0 in nodes
    ensures var (now, events) := ResolveAll(nodes, endpoints, order);
            now.Keys == nodes.Keys
            && var (ifaces, found) := FeedAll(now[id].ifaces, EntitiesOf(ends, endpoints));
               ResolveAll(nodes, endpoints, order + [(id, ends)]).0
                   == now[id := Node(ifaces, now[id].parked - Elements(ends))]
               && ResolveAll(nodes, endpoints, order + [(id, ends)]).1 == events + Tag(id, found)
    decreases order
  {
    hide FeedAll, EntitiesOf;
    if order == [] {
      assert [] + [(id, ends)] == [(id, ends)] && |[(id, ends)]| == 1;
      var (ifaces, found) := FeedAll(nodes[id].ifaces, EntitiesOf(ends, endpoints));
      var nodes' := nodes[id := Node(ifaces, nodes[id].parked - Elements(ends))];
      assert ResolveAll(nodes', endpoints, []) == (nodes', []);
    } else {
      assert (order + [(id, ends)])[1..] == order[1..] + [(id, ends)] && (order + [(id, ends)])[0] == order[0];
      assert forall i | 0 < i < |order| :: order[1..][i - 1] == order[i];
      var first := nodes[order[0].0];
      var (ifaces, found) := FeedAll(first.ifaces, EntitiesOf(order[0].1, endpoints));
      var nodes' := nodes[order[0].0 := Node(ifaces, first.parked - Elements(order[0].1))];
      ResolveMore(nodes', endpoints, order[1..], id, ends);
    }
  }

  /** Parked endpoints that are known by now are fed to their node. */
  method ResolveNode(waiting: Node, endpoints: map<End, Entity>, ends: seq<End>)
      returns (node: Node, found: seq<NodeEvent>)
    ensures FeedAll(waiting.ifaces, EntitiesOf(ends, endpoints)) == (node.ifaces, found)
    ensures node.parked == waiting.parked - Elements(ends)
  {
    hide Feed, FeedAll;
    node, found := waiting, [];
    for i := 0 to |ends|
      invariant FeedAll(node.ifaces, EntitiesOf(ends[i..], endpoints)).0
                == FeedAll(waiting.ifaces, EntitiesOf(ends, endpoints)).0
      invariant found + FeedAll(node.ifaces, EntitiesOf(ends[i..], endpoints)).1
                == FeedAll(waiting.ifaces, EntitiesOf(ends, endpoints)).1
      invariant node.parked == waiting.parked - Elements(ends[..i])
    {
      assert ends[i..][1..] == ends[i + 1..] && ends[i..][0] == ends[i] && ends[..i + 1] == ends[..i] + [ends[i]];
      assert Elements(ends[..i + 1]) == Elements(ends[..i]) + {ends[i]};
      node := node.(parked := node.parked - {ends[i]});
      if ends[i] in endpoints {
        var e := endpoints[ends[i]];
        var rest := EntitiesOf(ends[i + 1..], endpoints);
        assert EntitiesOf(ends[i..], endpoints) == [e] + rest;
        FedNext(node.ifaces, e, rest);
        var (ifaces, events) := Feed(node.ifaces, e);
        node := node.(ifaces := ifaces);
        found := found + events;
      } else {
        assert EntitiesOf(ends[i..], endpoints) == EntitiesOf(ends[i + 1..], endpoints);
      }
    }
    FedLast(node.ifaces);
    assert ends[|ends|..] == [] && ends[..|ends|] == ends && found + [] == found;
  }

  lemma FedNext(ifaces: Ifaces, e: Entity, rest: seq<Entity>)
    ensures var (fed, events) := Feed(ifaces, e);
            FeedAll(ifaces, [e] + rest) == (FeedAll(fed, rest).0, events + FeedAll(fed, rest).1)
  {
    hide Feed;
    assert ([e] + rest)[1..] == rest;
  }

  lemma FedLast(ifaces: Ifaces)
    ensures FeedAll(ifaces, []) == (ifaces, [])
  {
  }

  /** The first-seen times once the candidates `gids[..i]` were looked at. */
  function SeenAfter(s: Disc, now: int, grace: nat, gids: seq<Gid>, i: nat): map<Gid, int>
    requires i <= |gids|
  {
    map g | g in s.firstSeen.Keys + Elements(gids) && g in gids
            && (if g in gids[i..] then g in s.firstSeen else !Due(s, g, now, grace)) :: FirstSeen(s, g, now)
  }

  lemma SeenFirst(s: Disc, now: int, grace: nat, gids: seq<Gid>)
    ensures SeenAfter(s, now, grace, gids, 0) == map g | g in s.firstSeen && g in gids :: s.firstSeen[g]
  {
  }

  lemma SeenNext(s: Disc, now: int, grace: nat, gids: seq<Gid>, i: nat)
    requires i < |gids| && forall a, b | 0 <= a < b < |gids| :: gids[a] != gids[b]
    ensures var seen := SeenAfter(s, now, grace, gids, i);
            var g := gids[i];
            (g in seen <==> g in s.firstSeen)
                && (if g in seen then seen[g] == FirstSeen(s, g, now) else FirstSeen(s, g, now) == now)
            && (Due(s, g, now, grace) <==> Elapsed(FirstSeen(s, g, now), now) >= grace)
            && SeenAfter(s, now, grace, gids, i + 1)
               == if Due(s, g, now, grace) then seen - {g} else seen[g := FirstSeen(s, g, now)]
  {
    var g, left, left' := gids[i], gids[i..], gids[i + 1..];
    assert left == [g] + left' && g in gids;
    forall h ensures h in left' <==> h in left && h != g {
      if h in left && h != g {
        var j :| 0 <= j < |left| && left[j] == h;
        assert left'[j - 1] == h;
      }
    }
  }

  lemma ClaimNext(s: Disc, nodes: Nodes, now: int, grace: nat, gids: seq<Gid>)
    requires gids != [] && End(Writer, gids[0]) in s.endpoints
    ensures var e := s.endpoints[End(Writer, gids[0])];
            var due, rest := DueWriters(s, now, grace, gids), DueWriters(s, now, grace, gids[1..]);
            if Due(s, gids[0], now, grace) then
              var id := NodeId(e.participant, Orphan);
              var (ifaces, found) := Feed(NodeAt(nodes, id).ifaces, e);
              var claimed := ClaimAll(nodes[id := NodeAt(nodes, id).(ifaces := ifaces)], rest);
              ClaimAll(nodes, due).0 == claimed.0 && ClaimAll(nodes, due).1 == Tag(id, found) + claimed.1
            else due == rest
  {
  }

  lemma CandidatesKnown(s: Disc)
    ensures forall g | g in Candidates(s) :: End(Writer, g) in s.endpoints
  {
  }

  lemma SweepNone(s: Disc, nodes: Nodes, now: int, grace: nat)
    ensures ClaimAll(nodes, DueWriters(s, now, grace, [])) == (nodes, [])
  {
  }

  lemma SweepEnd(s: Disc, op: Op, s': Disc, events: seq<Event>)
    requires op.Sweep? && Enumerates(op.gids, Candidates(s))
    requires ClaimAll(s.nodes, DueWriters(s, op.now, op.grace, op.gids)) == (s'.nodes, events)
    requires s.nodes.Keys <= s'.nodes.Keys && s'.admin == s.admin + CreatedKeys(s.nodes, s'.nodes)
    requires s'.firstSeen == SeenAfter(s, op.now, op.grace, op.gids, |op.gids|)
    requires s'.participants == s.participants && s'.endpoints == s.endpoints
    ensures Legal(s, op) && Step(s, op) == (s', events)
  {
    hide ClaimAll, DueWriters, Candidates, Due, FirstSeen;
    assert s.nodes.Keys - s'.nodes.Keys == {};
    assert Step(s, op).0.admin == s'.admin;
    assert op.gids[|op.gids|..] == [];
    assert Step(s, op).0.firstSeen == s'.firstSeen;
  }
}

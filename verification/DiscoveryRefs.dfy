/**
 * References never dangle: over every run in which an endpoint keeps its identity and is declared by
 * one fixed node of its own participant, whatever a node or the admin space refers to exists.
 */
module DiscoveryRefs {
  import opened Wrappers
  import opened Iteration
  import opened NodeInfo
  import opened Discovery
  import opened DiscoveryEvents

  /** `end` is known, and is dispatched to role `r` of interface `k`. */
  ghost predicate Backed(endpoints: map<End, Entity>, end: End, k: Key, r: Role) {
    end in endpoints && Classify(endpoints[end]).Some?
    && Classify(endpoints[end]).value.key == k && Classify(endpoints[end]).value.role == r
  }

  /** Every gid an interface holds is the one of a known endpoint playing that very role. */
  ghost predicate IfacePlaced(k: Key, iface: Iface, endpoints: map<End, Entity>) {
    (forall g | g in iface.endpoints :: Backed(endpoints, End(SideOf(k.kind, Endpoint), g), k, Endpoint))
    && forall r | r in iface.slots :: r != Endpoint && Backed(endpoints, End(SideOf(k.kind, r), iface.slots[r]), k, r)
  }

  ghost predicate Placed(ifaces: Ifaces, endpoints: map<End, Entity>) {
    forall k | k in ifaces :: IfacePlaced(k, ifaces[k], endpoints)
  }

  predicate UsesAt(k: Key, iface: Iface, end: End) {
    (k.kind == TopicKind(end.side) && end.gid in iface.endpoints) || Fills(k, iface, end)
  }

  predicate Uses(ifaces: Ifaces, end: End) {
    exists k | k in ifaces :: UsesAt(k, ifaces[k], end)
  }

  predicate Touches(node: Node, end: End) {
    Uses(node.ifaces, end) || end in node.parked
  }

  lemma UsedIsBacked(ifaces: Ifaces, k: Key, end: End, endpoints: map<End, Entity>)
    requires Placed(ifaces, endpoints) && k in ifaces && UsesAt(k, ifaces[k], end)
    ensures end in endpoints && Classify(endpoints[end]).Some? && Classify(endpoints[end]).value.key == k
    ensures Classify(endpoints[end]).value.role == Endpoint
            || (Classify(endpoints[end]).value.role in ifaces[k].slots
                && ifaces[k].slots[Classify(endpoints[end]).value.role] == end.gid)
  {
    hide Classify;
    assert IfacePlaced(k, ifaces[k], endpoints);
    if k.kind == TopicKind(end.side) && end.gid in ifaces[k].endpoints {
      assert Backed(endpoints, End(SideOf(k.kind, Endpoint), end.gid), k, Endpoint);
    } else {
      var r :| r in ifaces[k].slots && ifaces[k].slots[r] == end.gid && SideOf(k.kind, r) == end.side;
      assert Backed(endpoints, End(SideOf(k.kind, r), ifaces[k].slots[r]), k, r);
    }
  }

  /** Knowing more endpoints, or fewer of those not used, keeps a node well placed. */
  lemma PlacedFrame(ifaces: Ifaces, endpoints: map<End, Entity>, endpoints': map<End, Entity>)
    requires Placed(ifaces, endpoints)
    requires forall end | end in endpoints && Uses(ifaces, end) ::
               end in endpoints' && endpoints'[end] == endpoints[end]
    ensures Placed(ifaces, endpoints')
  {
    hide Classify;
    forall k | k in ifaces ensures IfacePlaced(k, ifaces[k], endpoints') {
      assert IfacePlaced(k, ifaces[k], endpoints);
      forall g | g in ifaces[k].endpoints ensures Backed(endpoints', End(SideOf(k.kind, Endpoint), g), k, Endpoint) {
        var end := End(SideOf(k.kind, Endpoint), g);
        assert Backed(endpoints, end, k, Endpoint);
        ClassifiedRole(endpoints[end]);
        assert UsesAt(k, ifaces[k], end);
      }
      forall r | r in ifaces[k].slots ensures Backed(endpoints', End(SideOf(k.kind, r), ifaces[k].slots[r]), k, r) {
        var end := End(SideOf(k.kind, r), ifaces[k].slots[r]);
        assert Backed(endpoints, end, k, r);
        assert UsesAt(k, ifaces[k], end);
      }
    }
  }

  // ---- Feeding ----------------------------------------------------------------------------

  ghost function IfaceAt(ifaces: Ifaces, k: Key): Iface {
    if k in ifaces then ifaces[k] else Iface("", {}, map[])
  }

  /** `Update` adds no gid but the one it is given, in the role it is given. */
  lemma UpdateContents(ifaces: Ifaces, u: Use, gid: Gid)
    ensures var fed := Update(ifaces, u, gid).0;
            (forall k | k in fed && k != u.key :: k in ifaces && fed[k] == ifaces[k])
            && (u.key in fed ==>
                  fed[u.key].endpoints <= IfaceAt(ifaces, u.key).endpoints + (if u.role == Endpoint then {gid} else {})
                  && forall r | r in fed[u.key].slots ::
                       (r in IfaceAt(ifaces, u.key).slots && fed[u.key].slots[r] == IfaceAt(ifaces, u.key).slots[r])
                       || (r == u.role && r != Endpoint && fed[u.key].slots[r] == gid))
  {
  }

  lemma FeedPlaced(ifaces: Ifaces, e: Entity, endpoints: map<End, Entity>)
    requires Placed(ifaces, endpoints) && e.end in endpoints && endpoints[e.end] == e
    ensures Placed(Feed(ifaces, e).0, endpoints)
    ensures forall end | Uses(Feed(ifaces, e).0, end) :: Uses(ifaces, end) || end == e.end
  {
    hide Classify, Update, Roles;
    ClassifiedRole(e);
    if Classify(e).Some? {
      var u := Classify(e).value;
      var fed, before := Update(ifaces, u, e.end.gid).0, IfaceAt(ifaces, u.key);
      UpdateContents(ifaces, u, e.end.gid);
      assert IfacePlaced(u.key, before, endpoints);
      assert Backed(endpoints, e.end, u.key, u.role);
      assert forall k | k in fed :: IfacePlaced(k, fed[k], endpoints);
      forall end | Uses(fed, end) ensures Uses(ifaces, end) || end == e.end {
        var k :| k in fed && UsesAt(k, fed[k], end);
        assert UsesAt(k, IfaceAt(ifaces, k), end) || end == e.end;
      }
    }
  }

  lemma {:induction false} DeclarePlaced(node: Node, ends: seq<End>, endpoints: map<End, Entity>)
    requires Placed(node.ifaces, endpoints) && forall end | end in endpoints :: endpoints[end].end == end
    ensures var node' := DeclareEnds(node, ends, endpoints).0;
            Placed(node'.ifaces, endpoints)
            && (forall end | Uses(node'.ifaces, end) :: Uses(node.ifaces, end) || (end in ends && end in endpoints))
            && (forall end | end in node'.parked :: end in node.parked || (end in ends && end !in endpoints))
    decreases ends
  {
    hide Classify, Uses;
    if ends != [] {
      if ends[0] in endpoints {
        FeedPlaced(node.ifaces, endpoints[ends[0]], endpoints);
        DeclarePlaced(node.(ifaces := Feed(node.ifaces, endpoints[ends[0]]).0), ends[1..], endpoints);
      } else {
        DeclarePlaced(node.(parked := node.parked + {ends[0]}), ends[1..], endpoints);
      }
    }
  }

  // ---- Removing ---------------------------------------------------------------------------

  lemma DropIdle(ifaces: Ifaces, end: End, order: seq<Key>)
    requires forall k | k in ifaces && k in order && k.kind == TopicKind(end.side) :: end.gid !in ifaces[k].endpoints
    ensures DropEndpoint(ifaces, end, order) == (ifaces, None)
  {
  }

  lemma FirstIdle(ifaces: Ifaces, end: End, order: seq<Key>)
    requires forall k | k in ifaces && k in order :: !Fills(k, ifaces[k], end)
    ensures FirstFilled(ifaces, end, order) == None
  {
  }

  /** A node that does not know the endpoint is left alone. */
  lemma RemoveIdle(node: Node, end: End, order: seq<Key>)
    requires !Touches(node, end)
    ensures Remove(node, end, order) == (node, [])
  {
    assert forall k | k in node.ifaces :: !UsesAt(k, node.ifaces[k], end);
    DropIdle(node.ifaces, end, order);
    FirstIdle(node.ifaces, end, order);
    assert node.parked - {end} == node.parked;
  }

  lemma {:induction false} DropOne(ifaces: Ifaces, end: End, order: seq<Key>, k: Key)
    requires k in ifaces && k in order && k.kind == TopicKind(end.side) && end.gid in ifaces[k].endpoints
    requires forall j | j in ifaces && j != k :: !UsesAt(j, ifaces[j], end)
    ensures var left := ifaces[k].(endpoints := ifaces[k].endpoints - {end.gid});
            DropEndpoint(ifaces, end, order) == (ifaces[k := left], if left.endpoints == {} then Some(k) else None)
    decreases order
  {
    if order[0] == k {
      var left := ifaces[k].(endpoints := ifaces[k].endpoints - {end.gid});
      DropIdle(ifaces[k := left], end, order[1..]);
    } else {
      DropOne(ifaces, end, order[1..], k);
    }
  }

  lemma {:induction false} FirstIs(ifaces: Ifaces, end: End, order: seq<Key>, k: Key)
    requires k in ifaces && k in order && !IsTopic(k.kind) && Fills(k, ifaces[k], end)
    requires forall j | j in ifaces && j != k :: !UsesAt(j, ifaces[j], end)
    ensures FirstFilled(ifaces, end, order) == Some(k)
    decreases order
  {
    if order[0] != k {
      FirstIs(ifaces, end, order[1..], k);
    }
  }

  /** An endpoint is used by one interface only, as a topic's endpoint or in a slot. */
  lemma OnlyUse(ifaces: Ifaces, k: Key, end: End, endpoints: map<End, Entity>)
    requires Placed(ifaces, endpoints) && k in ifaces && UsesAt(k, ifaces[k], end)
    ensures forall j | j in ifaces && j != k :: !UsesAt(j, ifaces[j], end)
    ensures if IsTopic(k.kind) then k.kind == TopicKind(end.side) && end.gid in ifaces[k].endpoints
            && ifaces[k].slots == map[]
            else Fills(k, ifaces[k], end) && ifaces[k].endpoints == {}
  {
    hide Classify;
    forall j | j in ifaces && j != k ensures !UsesAt(j, ifaces[j], end) {
      if UsesAt(j, ifaces[j], end) {
        UsedIsBacked(ifaces, k, end, endpoints);
        UsedIsBacked(ifaces, j, end, endpoints);
      }
    }
    assert IfacePlaced(k, ifaces[k], endpoints);
    forall r | r in ifaces[k].slots ensures !IsTopic(k.kind) {
      ClassifiedRole(endpoints[End(SideOf(k.kind, r), ifaces[k].slots[r])]);
    }
    forall g | g in ifaces[k].endpoints ensures IsTopic(k.kind) {
      ClassifiedRole(endpoints[End(SideOf(k.kind, Endpoint), g)]);
    }
  }

  lemma RemoveTopicUse(node: Node, end: End, order: seq<Key>, endpoints: map<End, Entity>, k: Key)
    requires Placed(node.ifaces, endpoints) && Enumerates(order, node.ifaces.Keys)
    requires k in node.ifaces && UsesAt(k, node.ifaces[k], end) && IsTopic(k.kind)
    ensures var left := node.ifaces[k].(endpoints := node.ifaces[k].endpoints - {end.gid});
            Remove(node, end, order) == if left.endpoints == {}
                then (node.(ifaces := node.ifaces - {k}), [NodeEvent(false, k, left)])
                                        else (Node(node.ifaces[k := left], node.parked - {end}), [])
  {
    OnlyUse(node.ifaces, k, end, endpoints);
    DropOne(node.ifaces, end, order, k);
    var left := node.ifaces[k].(endpoints := node.ifaces[k].endpoints - {end.gid});
    FirstIdle(node.ifaces[k := left], end, order);
    assert node.ifaces[k := left] - {k} == node.ifaces - {k};
  }

  lemma RemoveSlotUse(node: Node, end: End, order: seq<Key>, endpoints: map<End, Entity>, k: Key)
    requires Placed(node.ifaces, endpoints) && Enumerates(order, node.ifaces.Keys)
    requires k in node.ifaces && UsesAt(k, node.ifaces[k], end) && !IsTopic(k.kind)
    ensures Remove(node, end, order) == (node.(ifaces := node.ifaces - {k}), [NodeEvent(false, k, node.ifaces[k])])
  {
    OnlyUse(node.ifaces, k, end, endpoints);
    DropIdle(node.ifaces, end, order);
    FirstIs(node.ifaces, end, order, k);
  }

  /** A node that only lost uses of `end` is still well placed. */
  lemma FewerUses(ifaces: Ifaces, ifaces': Ifaces, endpoints: map<End, Entity>)
    requires Placed(ifaces, endpoints) && ifaces'.Keys <= ifaces.Keys
    requires forall k | k in ifaces' ::
               ifaces'[k].endpoints <= ifaces[k].endpoints && ifaces'[k].slots == ifaces[k].slots
    ensures Placed(ifaces', endpoints)
    ensures forall other | Uses(ifaces', other) :: Uses(ifaces, other)
  {
  }

  /** What `Remove` does to a well placed node: the endpoint's only interface loses it, or goes. */
  lemma RemovePlaced(node: Node, end: End, order: seq<Key>, endpoints: map<End, Entity>)
    requires Placed(node.ifaces, endpoints) && Enumerates(order, node.ifaces.Keys)
    requires end in endpoints ==> end !in node.parked
    ensures var node' := Remove(node, end, order).0;
            Placed(node'.ifaces, endpoints) && !Touches(node', end)
            && (forall other | Uses(node'.ifaces, other) :: Uses(node.ifaces, other))
            && node'.parked == node.parked - {end}
  {
    hide Classify, IfacePlaced;
    if k :| k in node.ifaces && UsesAt(k, node.ifaces[k], end) {
      UsedIsBacked(node.ifaces, k, end, endpoints);
      OnlyUse(node.ifaces, k, end, endpoints);
      assert node.parked - {end} == node.parked;
      if IsTopic(k.kind) {
        RemoveTopicUse(node, end, order, endpoints, k);
      } else {
        RemoveSlotUse(node, end, order, endpoints, k);
      }
      var ifaces' := Remove(node, end, order).0.ifaces;
      FewerUses(node.ifaces, ifaces', endpoints);
      assert forall j | j in ifaces' :: !UsesAt(j, ifaces'[j], end);
    } else {
      assert forall k | k in node.ifaces :: !UsesAt(k, node.ifaces[k], end);
      DropIdle(node.ifaces, end, order);
      FirstIdle(node.ifaces, end, order);
    }
  }

  // ---- The invariant ----------------------------------------------------------------------

  /** What never changes about an endpoint: what it is, and which node declares it. */
  datatype Env = Env(identity: End -> Entity, owner: End -> string)

  ghost predicate Admissible(env: Env, op: Op) {
    match op
    case AddEndpoint(e, _) => e.end.gid != NOT_DISCOVERED && e == env.identity(e.end)
    case Declare(p, decls, _, _, _) =>
      forall name, end | name in decls && end in DeclaredEnds(decls[name]) ::
        env.owner(end) == name && env.identity(end).participant == p
    case _ => true
  }

  function OwnerId(env: Env, end: End): NodeId {
    NodeId(env.identity(end).participant, Named(env.owner(end)))
  }

  /** Only the declaring node, or its participant's orphan node, may hold an endpoint. */
  predicate Entitled(env: Env, id: NodeId, end: End) {
    id == OwnerId(env, end) || id == NodeId(env.identity(end).participant, Orphan)
  }

  ghost predicate NodeCoherent(env: Env, endpoints: map<End, Entity>, id: NodeId, node: Node) {
    Placed(node.ifaces, endpoints)
    && (forall end | Touches(node, end) :: Entitled(env, id, end))
    && (forall end | end in node.parked :: end !in endpoints && id.name.Named?)
    && (id.name.Orphan? ==> forall k | k in node.ifaces :: k.kind == MsgPub)
  }

  /** An endpoint held by an orphan node is not held by its declaring node too. */
  ghost predicate Exclusive(env: Env, nodes: Nodes) {
    forall id, end | id in nodes && id.name.Orphan? && Touches(nodes[id], end) ::
      !Touches(NodeAt(nodes, OwnerId(env, end)), end)
  }

  ghost predicate NodesCoherent(env: Env, endpoints: map<End, Entity>, nodes: Nodes) {
    forall id | id in nodes :: NodeCoherent(env, endpoints, id, nodes[id])
  }

  /** The entity an admin key refers to exists, and the key is the one built for it. */
  ghost predicate Resolves(s: Disc, key: AdminKey) {
    match key
    case ParticipantKey(p) => p in s.participants
    case EndKey(_, end, _) => end in s.endpoints && EndKeyOf(s.endpoints[end]) == key
    case NodeKey(id) => id in s.nodes
  }

  /** Every admin key resolves, and every entity has its key. */
  ghost predicate AdminExact(s: Disc) {
    forall key :: key in s.admin <==> Resolves(s, key)
  }

  ghost predicate EndsIdentified(env: Env, endpoints: map<End, Entity>) {
    forall end | end in endpoints :: endpoints[end] == env.identity(end) && endpoints[end].end == end
        && end.gid != NOT_DISCOVERED
  }

  ghost predicate Coherent(env: Env, s: Disc) {
    EndsIdentified(env, s.endpoints) && NodesCoherent(env, s.endpoints, s.nodes) && Exclusive(env, s.nodes)
    && AdminExact(s)
  }

  /** At most one node holds an endpoint. */
  lemma HeldOnce(env: Env, endpoints: map<End, Entity>, nodes: Nodes, a: NodeId, b: NodeId, end: End)
    requires NodesCoherent(env, endpoints, nodes) && Exclusive(env, nodes)
    requires a in nodes && b in nodes && Touches(nodes[a], end) && Touches(nodes[b], end)
    ensures a == b
  {
  }

  lemma EmptyCoherent(env: Env, endpoints: map<End, Entity>, id: NodeId)
    ensures NodeCoherent(env, endpoints, id, EMPTY_NODE)
  {
  }

  // ---- Each step keeps it -----------------------------------------------------------------

  lemma {:induction false} AddToEffect(nodes: Nodes, e: Entity, order: seq<NodeId>, owner: NodeId)
    requires forall id | id in nodes && e.end in nodes[id].parked :: id == owner
    ensures AddTo(nodes, e, order, {}).0
         == if owner in order && owner in nodes && e.end in nodes[owner].parked
            then nodes[owner := Node(Feed(nodes[owner].ifaces, e).0, nodes[owner].parked - {e.end})] else nodes
    decreases order
  {
    hide Feed;
    if order != [] {
      var id := order[0];
      assert order == [id] + order[1..];
      if id in nodes && e.end in nodes[id].parked {
        var nodes' := nodes[id := Node(Feed(nodes[id].ifaces, e).0, nodes[id].parked - {e.end})];
        AddToIdle(nodes', e, order[1..], {} + {id.participant});
      } else {
        AddToEffect(nodes, e, order[1..], owner);
      }
    }
  }

  lemma AddToIdle(nodes: Nodes, e: Entity, order: seq<NodeId>, hit: set<Gid>)
    requires forall id | id in nodes :: e.end !in nodes[id].parked
    ensures AddTo(nodes, e, order, hit) == (nodes, [])
  {
  }

  lemma AdminAdd(env: Env, s: Disc, e: Entity, ids: seq<NodeId>)
    requires EndsIdentified(env, s.endpoints) && AdminExact(s)
    requires e == env.identity(e.end)
    requires AddTo(s.nodes, e, ids, {}).0.Keys == s.nodes.Keys
    ensures AdminExact(Step(s, AddEndpoint(e, ids)).0)
  {
  }

  lemma AddNodes(env: Env, endpoints: map<End, Entity>, nodes: Nodes, e: Entity, ids: seq<NodeId>)
    requires NodesCoherent(env, endpoints, nodes) && Exclusive(env, nodes) && Enumerates(ids, nodes.Keys)
    requires e.end in endpoints ==> endpoints[e.end] == e
    ensures var nodes' := AddTo(nodes, e, ids, {}).0;
            nodes'.Keys == nodes.Keys && NodesCoherent(env, endpoints[e.end := e], nodes') && Exclusive(env, nodes')
  {
    hide Feed, Placed, Uses;
    var owner, endpoints' := OwnerId(env, e.end), endpoints[e.end := e];
    forall id | id in nodes && e.end in nodes[id].parked ensures id == owner {
      assert NodeCoherent(env, endpoints, id, nodes[id]) && Touches(nodes[id], e.end);
    }
    AddToEffect(nodes, e, ids, owner);
    var nodes' := AddTo(nodes, e, ids, {}).0;
    forall id | id in nodes'
      ensures NodeCoherent(env, endpoints', id, nodes'[id])
      ensures forall end | Touches(nodes'[id], end) :: Touches(nodes[id], end)
    {
      assert NodeCoherent(env, endpoints, id, nodes[id]);
      PlacedFrame(nodes[id].ifaces, endpoints, endpoints');
      if e.end in nodes[id].parked {
        FeedPlaced(nodes[id].ifaces, e, endpoints');
      }
    }
    ExclusiveKept(env, nodes, nodes');
  }

  lemma AddCoherent(env: Env, s: Disc, e: Entity, ids: seq<NodeId>)
    requires Coherent(env, s) && Enumerates(ids, s.nodes.Keys) && Admissible(env, AddEndpoint(e, ids))
    requires env.identity(e.end).end == e.end
    ensures Coherent(env, Step(s, AddEndpoint(e, ids)).0)
  {
    hide AdminExact, NodesCoherent, Exclusive;
    AddNodes(env, s.endpoints, s.nodes, e, ids);
    AdminAdd(env, s, e, ids);
  }

  ghost predicate Lost(node: Node, node': Node, end: End, endpoints: map<End, Entity>) {
    Placed(node'.ifaces, endpoints) && !Touches(node', end)
    && (forall other | Uses(node'.ifaces, other) :: Uses(node.ifaces, other))
    && node'.parked <= node.parked && node'.ifaces.Keys <= node.ifaces.Keys
  }

  lemma LostOne(node: Node, end: End, order: seq<Key>, endpoints: map<End, Entity>)
    requires Placed(node.ifaces, endpoints) && Enumerates(order, node.ifaces.Keys)
    requires end in endpoints ==> end !in node.parked
    ensures Lost(node, Remove(node, end, order).0, end, endpoints)
    ensures !Touches(node, end) ==> Remove(node, end, order) == (node, [])
  {
    RemovePlaced(node, end, order, endpoints);
    RemoveKeys(node, end, order);
    if !Touches(node, end) {
      RemoveIdle(node, end, order);
    }
  }

  /** The removal visits every node that holds the endpoint, for there is at most one. */
  lemma {:induction false} RemoveFromEffect(nodes: Nodes, end: End, order: seq<(NodeId, seq<Key>)>,
      endpoints: map<End, Entity>)
    requires forall id | id in nodes ::
               Placed(nodes[id].ifaces, endpoints) && (end in endpoints ==> end !in nodes[id].parked)
    requires forall i | 0 <= i < |order| :: order[i].0 in nodes && Enumerates(order[i].1, nodes[order[i].0].ifaces.Keys)
    requires forall i, j | 0 <= i < j < |order| :: order[i].0 != order[j].0
    requires forall a, b | a in nodes && b in nodes && Touches(nodes[a], end) && Touches(nodes[b], end) :: a == b
    ensures var nodes' := RemoveFrom(nodes, end, order).0;
            nodes'.Keys == nodes.Keys
            && (forall i | 0 <= i < |order| :: Lost(nodes[order[i].0], nodes'[order[i].0], end, endpoints))
            && (forall id | id in nodes && (forall i | 0 <= i < |order| :: order[i].0 != id) :: nodes'[id] == nodes[id])
    decreases order
  {
    hide Remove, Placed, Touches, Uses;
    if order != [] {
      var (id, keys) := order[0];
      assert order[0].0 == id && order[0].1 == keys;
      LostOne(nodes[id], end, keys, endpoints);
      var (node, events) := Remove(nodes[id], end, keys);
      var nodes1 := nodes[id := node];
      if events == [] {
        RemoveFromEffect(nodes1, end, order[1..], endpoints);
        var nodes' := RemoveFrom(nodes1, end, order[1..]).0;
        assert forall i | 1 <= i < |order| :: order[i] == order[1..][i - 1] && nodes1[order[i].0] == nodes[order[i].0];
      } else {
        forall i | 1 <= i < |order| ensures Lost(nodes[order[i].0], nodes1[order[i].0], end, endpoints) {
          LostNothing(nodes[order[i].0], end, endpoints);
        }
      }
    }
  }

  lemma LostNothing(node: Node, end: End, endpoints: map<End, Entity>)
    requires Placed(node.ifaces, endpoints) && !Touches(node, end)
    ensures Lost(node, node, end, endpoints)
  {
  }

  lemma AdminRemove(s: Disc, end: End, order: seq<(NodeId, seq<Key>)>)
    requires end in s.endpoints && s.endpoints[end].end == end && AdminExact(s)
    requires RemoveFrom(s.nodes, end, order).0.Keys == s.nodes.Keys
    ensures AdminExact(Step(s, RemoveEndpoint(end, order)).0)
  {
  }

  /** Nodes that hold less than before. */
  ghost predicate HoldLess(nodes: Nodes, nodes': Nodes) {
    nodes'.Keys <= nodes.Keys
    && forall id, end | id in nodes' && Touches(nodes'[id], end) :: Touches(nodes[id], end)
  }

  lemma ExclusiveKept(env: Env, nodes: Nodes, nodes': Nodes)
    requires Exclusive(env, nodes) && HoldLess(nodes, nodes')
    ensures Exclusive(env, nodes')
  {
  }

  lemma NothingTouched()
    ensures forall end :: !Touches(EMPTY_NODE, end)
  {
  }

  lemma LostCoherent(env: Env, endpoints: map<End, Entity>, id: NodeId, node: Node, node': Node, end: End)
    requires NodeCoherent(env, endpoints, id, node) && Lost(node, node', end, endpoints)
    ensures NodeCoherent(env, endpoints - {end}, id, node') && NodeCoherent(env, endpoints, id, node')
    ensures forall other | Touches(node', other) :: Touches(node, other)
  {
    hide Placed, Uses;
    PlacedFrame(node'.ifaces, endpoints, endpoints - {end});
  }

  lemma RemoveNodes(env: Env, endpoints: map<End, Entity>, nodes: Nodes, end: End, order: seq<(NodeId, seq<Key>)>)
    requires NodesCoherent(env, endpoints, nodes) && Exclusive(env, nodes) && end in endpoints
    requires NodeOrder(order, nodes.Keys, nodes)
    ensures var nodes' := RemoveFrom(nodes, end, order).0;
            nodes'.Keys == nodes.Keys && NodesCoherent(env, endpoints - {end}, nodes') && Exclusive(env, nodes')
            && forall id | id in nodes' :: !Touches(nodes'[id], end)
  {
    hide Placed, Touches, Lost;
    forall id | id in nodes ensures Placed(nodes[id].ifaces, endpoints) && end !in nodes[id].parked {
      assert NodeCoherent(env, endpoints, id, nodes[id]);
    }
    forall a, b | a in nodes && b in nodes && Touches(nodes[a], end) && Touches(nodes[b], end) ensures a == b {
      HeldOnce(env, endpoints, nodes, a, b, end);
    }
    OrderDistinct(order, nodes.Keys);
    RemoveFromEffect(nodes, end, order, endpoints);
    var nodes' := RemoveFrom(nodes, end, order).0;
    forall id | id in nodes'
      ensures NodeCoherent(env, endpoints - {end}, id, nodes'[id]) && !Touches(nodes'[id], end)
      ensures forall other | Touches(nodes'[id], other) :: Touches(nodes[id], other)
    {
      assert id in (set x | x in order :: x.0);
      var i :| 0 <= i < |order| && order[i].0 == id;
      LostCoherent(env, endpoints, id, nodes[id], nodes'[id], end);
      LostUntouched(nodes[id], nodes'[id], end, endpoints);
    }
    ExclusiveKept(env, nodes, nodes');
  }

  lemma RemoveCoherent(env: Env, s: Disc, end: End, order: seq<(NodeId, seq<Key>)>)
    requires Coherent(env, s) && Legal(s, RemoveEndpoint(end, order))
    ensures Coherent(env, Step(s, RemoveEndpoint(end, order)).0)
    ensures var nodes' := Step(s, RemoveEndpoint(end, order)).0.nodes;
            end in s.endpoints ==> forall id | id in nodes' :: !Touches(nodes'[id], end)
  {
    hide Touches, AdminExact, NodesCoherent, Exclusive, NodeOrder;
    if end in s.endpoints {
      RemoveNodes(env, s.endpoints, s.nodes, end, order);
      AdminRemove(s, end, order);
    }
  }

  lemma LostUntouched(node: Node, node': Node, end: End, endpoints: map<End, Entity>)
    requires Lost(node, node', end, endpoints)
    ensures !Touches(node', end)
  {
  }

  // ---- Declarations -----------------------------------------------------------------------

  ghost predicate Listed(names: seq<(string, seq<End>)>, name: string, end: End) {
    exists i | 0 <= i < |names| :: names[i].0 == name && end in names[i].1
  }

  /** Declared nodes gain at most the endpoints listed for them. */
  lemma {:induction false} DeclareAllEffect(env: Env, endpoints: map<End, Entity>, nodes: Nodes, p: Gid,
      names: seq<(string, seq<End>)>)
    requires NodesCoherent(env, endpoints, nodes) && EndsIdentified(env, endpoints)
    requires forall i, end | 0 <= i < |names| && end in names[i].1 :: OwnerId(env, end) == NodeId(p, Named(names[i].0))
    ensures var nodes' := DeclareAll(nodes, endpoints, p, names).0;
            NodesCoherent(env, endpoints, nodes')
            && (forall id: NodeId | id.name.Orphan? ::
                  NodeAt(nodes', id) == NodeAt(nodes, id) && (id in nodes' <==> id in nodes))
            && (forall id: NodeId, end | Touches(NodeAt(nodes', id), end) ::
                  Touches(NodeAt(nodes, id), end) || (id.name.Named? && Listed(names, id.name.fullname, end)))
    decreases names
  {
    hide Placed, Uses;
    if names != [] {
      var id := NodeId(p, Named(names[0].0));
      var node := NodeAt(nodes, id);
      var declared := DeclareEnds(node, names[0].1, endpoints).0;
      EmptyCoherent(env, endpoints, id);
      DeclarePlaced(node, names[0].1, endpoints);
      var nodes1 := nodes[id := declared];
      assert NodeCoherent(env, endpoints, id, declared) by {
        assert forall end | Touches(declared, end) :: Touches(node, end) || end in names[0].1;
      }
      DeclareAllEffect(env, endpoints, nodes1, p, names[1..]);
      var nodes' := DeclareAll(nodes1, endpoints, p, names[1..]).0;
      forall id': NodeId, end | Touches(NodeAt(nodes', id'), end)
        ensures Touches(NodeAt(nodes, id'), end) || (id'.name.Named? && Listed(names, id'.name.fullname, end))
      {
        if Touches(NodeAt(nodes1, id'), end) {
          assert id' != id ==> NodeAt(nodes1, id') == NodeAt(nodes, id');
          assert id' == id && !Touches(node, end) ==> names[0].0 == id'.name.fullname && end in names[0].1;
        } else {
          var i :| 0 <= i < |names[1..]| && names[1..][i].0 == id'.name.fullname && end in names[1..][i].1;
          assert names[i + 1] == names[1..][i];
        }
      }
    }
  }

  /** The orphan node gives up the released Writers and nothing else changes. */
  lemma {:induction false} ReleaseAllEffect(env: Env, endpoints: map<End, Entity>, nodes: Nodes, orphan: NodeId,
      writers: seq<(Gid, seq<Key>)>)
    requires NodesCoherent(env, endpoints, nodes) && orphan.name.Orphan? && ReleaseOrder(nodes, orphan, writers)
    ensures var nodes' := ReleaseAll(nodes, orphan, writers).0;
            NodesCoherent(env, endpoints, nodes') && HoldLess(nodes, nodes')
            && (forall id | id != orphan :: (id in nodes' <==> id in nodes) && NodeAt(nodes', id) == NodeAt(nodes, id))
            && (forall i | 0 <= i < |writers| :: !Touches(NodeAt(nodes', orphan), End(Writer, writers[i].0)))
    decreases writers
  {
    hide Placed, Remove, Lost, Touches;
    NothingTouched();
    if writers != [] && orphan in nodes {
      var end := End(Writer, writers[0].0);
      assert NodeCoherent(env, endpoints, orphan, nodes[orphan]);
      LostOne(nodes[orphan], end, writers[0].1, endpoints);
      var node := Remove(nodes[orphan], end, writers[0].1).0;
      LostCoherent(env, endpoints, orphan, nodes[orphan], node, end);
      LostUntouched(nodes[orphan], node, end, endpoints);
      var nodes1 := if Publishes(node) then nodes[orphan := node] else nodes - {orphan};
      ReleaseAllEffect(env, endpoints, nodes1, orphan, writers[1..]);
      var nodes' := ReleaseAll(nodes1, orphan, writers[1..]).0;
      assert forall i | 1 <= i < |writers| :: writers[i] == writers[1..][i - 1];
      assert !Touches(NodeAt(nodes1, orphan), end);
      assert orphan in nodes' ==> forall other | Touches(nodes'[orphan], other) :: Touches(nodes1[orphan], other);
    }
  }

  lemma {:induction false} TransferredEndsHave(owned: set<Gid>, ends: seq<End>, w: Gid)
    ensures w in TransferredEnds(owned, ends) <==> w in owned && End(Writer, w) in ends
  {
    if ends != [] {
      assert ends == [ends[0]] + ends[1..];
      TransferredEndsHave(owned, ends[1..], w);
    }
  }

  lemma {:induction false} TransferredHave(owned: set<Gid>, names: seq<(string, seq<End>)>, w: Gid)
    ensures w in Transferred(owned, names)
            <==> w in owned && exists i | 0 <= i < |names| :: End(Writer, w) in names[i].1
  {
    if names != [] {
      TransferredEndsHave(owned, names[0].1, w);
      TransferredHave(owned, names[1..], w);
      assert forall i | 1 <= i < |names| :: names[i] == names[1..][i - 1];
      if i :| 0 <= i < |names| && End(Writer, w) in names[i].1 {
        assert i > 0 ==> names[1..][i - 1] == names[i];
      }
    }
  }

  lemma AdmittedListed(nodes: Nodes, p: Gid, decls: map<string, NodeDecl>, names: seq<(string, seq<End>)>)
    ensures Admitted(nodes, p, decls, names) <= names
  {
  }

  /** What an orphan node holds is a Writer of one of its topics. */
  lemma OrphanHolds(env: Env, endpoints: map<End, Entity>, nodes: Nodes, p: Gid, end: End)
    requires NodesCoherent(env, endpoints, nodes) && Touches(NodeAt(nodes, NodeId(p, Orphan)), end)
    ensures end.side.Writer? && end.gid in OrphanOwned(nodes, p)
  {
    var id := NodeId(p, Orphan);
    NothingTouched();
    assert NodeCoherent(env, endpoints, id, nodes[id]);
    var k :| k in nodes[id].ifaces && UsesAt(k, nodes[id].ifaces[k], end);
    OnlyUse(nodes[id].ifaces, k, end, endpoints);
  }

  /** After the transfers no Writer is held both by the orphan node and by the node declaring it. */
  lemma DeclareNodes(env: Env, s: Disc, op: Op)
    requires NodesCoherent(env, s.endpoints, s.nodes) && Exclusive(env, s.nodes) && EndsIdentified(env, s.endpoints)
    requires op.Declare? && Legal(s, op) && Admissible(env, op)
    ensures NodesCoherent(env, s.endpoints, DeclareParts(s, op).2.0) && Exclusive(env, DeclareParts(s, op).2.0)
  {
    hide Touches, Placed, Feed;
    var p := op.p;
    var orphan := NodeId(p, Orphan);
    OrderDistinct(op.order, Gone(s.nodes, p, op.decls));
    CloseAllEffect(s.nodes, op.order);
    var (closed, declared, freed) := DeclareParts(s, op);
    ExclusiveKept(env, s.nodes, closed.0);
    var names := Admitted(closed.0, p, op.decls, op.names);
    AdmittedListed(closed.0, p, op.decls, op.names);
    forall i, end | 0 <= i < |names| && end in names[i].1 ensures OwnerId(env, end) == NodeId(p, Named(names[i].0)) {
      assert names[i] == op.names[i] && end in DeclaredEnds(op.decls[names[i].0]);
    }
    DeclareAllEffect(env, s.endpoints, closed.0, p, names);
    ReleaseAllEffect(env, s.endpoints, declared.0, orphan, op.released);
    forall id, end | id in freed.0 && id.name.Orphan? && Touches(freed.0[id], end)
      ensures !Touches(NodeAt(freed.0, OwnerId(env, end)), end)
    {
      var owner := OwnerId(env, end);
      assert Touches(declared.0[id], end) && Touches(closed.0[id], end);
      assert !Touches(NodeAt(closed.0, owner), end);
      assert NodeAt(freed.0, owner) == NodeAt(declared.0, owner);
      if Touches(NodeAt(declared.0, owner), end) {
        var i :| 0 <= i < |names| && names[i].0 == owner.name.fullname && end in names[i].1;
        assert NodeCoherent(env, s.endpoints, id, closed.0[id]);
        assert id == orphan;
        OrphanHolds(env, s.endpoints, closed.0, p, end);
        TransferredHave(OrphanOwned(closed.0, p), names, end.gid);
      }
    }
  }

  lemma CloseAllEffect(nodes: Nodes, order: seq<(NodeId, seq<Key>)>)
    ensures CloseAll(nodes, order).0 == nodes - (set x | x in order :: x.0)
    decreases order
  {
  }

  lemma AdminWithNodes(s: Disc, nodes: Nodes)
    requires AdminExact(s)
    ensures AdminExact(WithNodes(s, nodes))
  {
  }

  // ---- Sweeps, resolutions, departures ----------------------------------------------------

  /** With endpoints resolved on arrival, the periodic resolution finds nothing to do. */
  lemma {:induction false} ResolveIdle(nodes: Nodes, endpoints: map<End, Entity>, pending: seq<(NodeId, seq<End>)>)
    requires forall i | 0 <= i < |pending| :: pending[i].1 == []
    ensures ResolveAll(nodes, endpoints, pending) == (nodes, [])
    decreases pending
  {
    if pending != [] {
      var (id, ends) := pending[0];
      assert pending[0].1 == [];
      ResolveIdle(nodes, endpoints, pending[1..]);
      if id in nodes {
        assert EntitiesOf(ends, endpoints) == [] && Elements(ends) == {};
        assert FeedAll(nodes[id].ifaces, []) == (nodes[id].ifaces, []);
        assert Node(nodes[id].ifaces, nodes[id].parked - Elements(ends)) == nodes[id];
        assert nodes[id := nodes[id]] == nodes && Tag(id, []) == [];
        assert ResolveAll(nodes, endpoints, pending).0 == nodes;
        assert ResolveAll(nodes, endpoints, pending).1 == Tag(id, []) + [] == [];
      }
    }
  }

  lemma ResolveFindsNothing(env: Env, s: Disc, pending: seq<(NodeId, seq<End>)>)
    requires Coherent(env, s) && Legal(s, Resolve(pending))
    ensures Step(s, Resolve(pending)) == (s, [])
  {
    hide Placed, Touches;
    forall i | 0 <= i < |pending| ensures pending[i].1 == [] {
      var id := pending[i].0;
      assert NodeCoherent(env, s.endpoints, id, s.nodes[id]);
      assert s.nodes[id].parked * s.endpoints.Keys == {};
      EnumerateEmpty(pending[i].1, s.nodes[id].parked * s.endpoints.Keys);
    }
    ResolveIdle(s.nodes, s.endpoints, pending);
  }

  /** A Writer nothing claims is held by nobody. */
  lemma UnclaimedUntouched(env: Env, s: Disc, g: Gid, id: NodeId)
    requires NodesCoherent(env, s.endpoints, s.nodes) && Candidate(s, g)
             && s.endpoints[End(Writer, g)].end == End(Writer, g)
    ensures !Touches(NodeAt(s.nodes, id), End(Writer, g))
  {
    hide Classify, OrphanTopic;
    var end := End(Writer, g);
    NothingTouched();
    if id in s.nodes {
      assert !Claims(s.nodes[id], g);
      assert NodeCoherent(env, s.endpoints, id, s.nodes[id]);
      ClassifyOrphan(s.endpoints[end]);
      if k :| k in s.nodes[id].ifaces && UsesAt(k, s.nodes[id].ifaces[k], end) {
        UsedIsBacked(s.nodes[id].ifaces, k, end, s.endpoints);
        OnlyUse(s.nodes[id].ifaces, k, end, s.endpoints);
      }
    }
  }

  /** Claimed Writers reach the orphan node of their participant and no other node changes. */
  lemma {:induction false} ClaimAllEffect(env: Env, endpoints: map<End, Entity>, nodes: Nodes, writers: seq<Entity>)
    requires NodesCoherent(env, endpoints, nodes) && EndsIdentified(env, endpoints)
    requires forall e | e in writers ::
               e.end in endpoints && endpoints[e.end] == e && e.end.side.Writer? && OrphanTopic(e.topic)
    ensures var nodes' := ClaimAll(nodes, writers).0;
            NodesCoherent(env, endpoints, nodes')
            && (forall id: NodeId | id.name.Named? ::
                  NodeAt(nodes', id) == NodeAt(nodes, id) && (id in nodes' <==> id in nodes))
            && (forall id: NodeId, end | Touches(NodeAt(nodes', id), end) ::
                  Touches(NodeAt(nodes, id), end) || exists e | e in writers :: e.end == end)
    decreases writers
  {
    hide Placed, Uses, Classify, OrphanTopic, Update;
    if writers != [] {
      var e := writers[0];
      var id := NodeId(e.participant, Orphan);
      var node := NodeAt(nodes, id);
      EmptyCoherent(env, endpoints, id);
      ClassifyOrphan(e);
      FeedPlaced(node.ifaces, e, endpoints);
      UpdateContents(node.ifaces, Classify(e).value, e.end.gid);
      var nodes1 := nodes[id := node.(ifaces := Feed(node.ifaces, e).0)];
      assert NodeCoherent(env, endpoints, id, nodes1[id]);
      ClaimAllEffect(env, endpoints, nodes1, writers[1..]);
    }
  }

  lemma AdminFrame(s: Disc, s': Disc)
    requires AdminExact(s) && s' == s.(firstSeen := s'.firstSeen)
    ensures AdminExact(s')
  {
  }

  lemma SweepCoherent(env: Env, s: Disc, op: Op)
    requires Coherent(env, s) && op.Sweep? && Legal(s, op)
    ensures Coherent(env, Step(s, op).0)
  {
    hide Touches, OrphanTopic, AdminExact, Placed;
    var due := DueWriters(s, op.now, op.grace, op.gids);
    DueWritersKnown(s, op.now, op.grace, op.gids);
    assert forall e | e in due :: Candidate(s, e.end.gid);
    ClaimAllEffect(env, s.endpoints, s.nodes, due);
    var nodes' := ClaimAll(s.nodes, due).0;
    forall id, end | id in nodes' && id.name.Orphan? && Touches(nodes'[id], end)
      ensures !Touches(NodeAt(nodes', OwnerId(env, end)), end)
    {
      NothingTouched();
      if e :| e in due && e.end == end {
        UnclaimedUntouched(env, s, e.end.gid, OwnerId(env, end));
      } else {
        assert Touches(NodeAt(s.nodes, id), end);
        assert id in s.nodes;
      }
    }
    var s1 := s.(firstSeen := Step(s, op).0.firstSeen);
    assert AdminExact(s1) by { AdminFrame(s, s1); }
    AdminWithNodes(s1, nodes');
  }

  lemma AdminDepart(s: Disc, op: Op)
    requires AdminExact(s) && op.RemoveParticipant? && ProperEnds(s.endpoints)
    ensures AdminExact(Step(s, op).0)
  {
    var s' := Step(s, op).0;
    forall key ensures key in s'.admin <==> Resolves(s', key) {
      assert key in s.admin <==> Resolves(s, key);
      if key.EndKey? && key.end in s.endpoints && EndKeyOf(s.endpoints[key.end]) == key {
        assert (exists end | end in EndpointsOn(s.endpoints, op.p) :: EndKeyOf(s.endpoints[end]) == key)
          <==> key.end in EndpointsOn(s.endpoints, op.p);
      }
    }
  }

  /** A departed participant leaves no endpoint, no node and no admin key behind. */
  lemma DepartCoherent(env: Env, s: Disc, op: Op)
    requires Coherent(env, s) && op.RemoveParticipant? && Legal(s, op)
    ensures var s' := Step(s, op).0;
            Coherent(env, s')
            && op.p !in s'.participants
            && (forall end | end in s'.endpoints :: s'.endpoints[end].participant != op.p)
            && (forall id | id in s'.nodes :: id.participant != op.p)
            && (forall g | g in s'.firstSeen
                && End(Writer, g) in s.endpoints :: s.endpoints[End(Writer, g)].participant != op.p)
  {
    hide Touches, AdminExact, Placed;
    OrderDistinct(op.order, Ids(s.nodes, op.p));
    CloseAllEffect(s.nodes, op.order);
    var s' := Step(s, op).0;
    forall id | id in s'.nodes ensures NodeCoherent(env, s'.endpoints, id, s'.nodes[id]) {
      var node := s.nodes[id];
      assert NodeCoherent(env, s.endpoints, id, node);
      forall end | end in s.endpoints && Uses(node.ifaces, end) ensures end in s'.endpoints {
        assert Touches(node, end) by { UseTouches(node, end); }
        assert Entitled(env, id, end);
      }
      PlacedFrame(node.ifaces, s.endpoints, s'.endpoints);
    }
    ExclusiveKept(env, s.nodes, s'.nodes);
    AdminDepart(s, op);
  }

  lemma UseTouches(node: Node, end: End)
    requires Uses(node.ifaces, end)
    ensures Touches(node, end)
  {
  }

  // ---- Runs -------------------------------------------------------------------------------

  lemma StepCoherent(env: Env, s: Disc, op: Op)
    requires Coherent(env, s) && Legal(s, op) && Admissible(env, op)
    requires forall end :: env.identity(end).end == end
    ensures Coherent(env, Step(s, op).0)
  {
    match op
    case AddParticipant(p) =>
      var s' := Step(s, op).0;
      forall key ensures key in s'.admin <==> Resolves(s', key) {
        assert key in s.admin <==> Resolves(s, key);
      }
    case RemoveParticipant(_, _) => DepartCoherent(env, s, op);
    case AddEndpoint(e, ids) => AddCoherent(env, s, e, ids);
    case RemoveEndpoint(end, order) => RemoveCoherent(env, s, end, order);
    case Declare(_, _, _, _, _) =>
      DeclareNodes(env, s, op);
      AdminWithNodes(s, DeclareParts(s, op).2.0);
    case Resolve(pending) => ResolveFindsNothing(env, s, pending);
    case Sweep(_, _, _) => SweepCoherent(env, s, op);
  }

  ghost predicate AdmissibleRun(env: Env, s: Disc, ops: seq<Op>)
    decreases ops
  {
    (forall end :: env.identity(end).end == end)
    && (ops == [] || (Legal(s, ops[0]) && Admissible(env, ops[0]) && AdmissibleRun(env, Step(s, ops[0]).0, ops[1..])))
  }

  lemma {:induction false} RunCoherent(env: Env, s: Disc, ops: seq<Op>)
    requires Coherent(env, s) && AdmissibleRun(env, s, ops)
    ensures Coherent(env, Run(s, ops).0)
    decreases ops
  {
    hide Coherent, Step, Legal, Admissible;
    if ops != [] {
      StepCoherent(env, s, ops[0]);
      RunCoherent(env, Step(s, ops[0]).0, ops[1..]);
    }
  }

  /** In every reachable state all references resolve and no endpoint is held twice. */
  lemma NothingDangles(env: Env, ops: seq<Op>)
    requires AdmissibleRun(env, INITIAL, ops)
    ensures var s := Run(INITIAL, ops).0;
            (forall id, end | id in s.nodes && Uses(s.nodes[id].ifaces, end) :: end in s.endpoints)
            && (forall key :: key in s.admin <==> Resolves(s, key))
            && (forall a, b, end | a in s.nodes && b in s.nodes && Touches(s.nodes[a], end)
                && Touches(s.nodes[b], end) :: a == b)
  {
    hide Placed, Touches, Uses;
    RunCoherent(env, INITIAL, ops);
    var s := Run(INITIAL, ops).0;
    forall id, end | id in s.nodes && Uses(s.nodes[id].ifaces, end) ensures end in s.endpoints {
      assert NodeCoherent(env, s.endpoints, id, s.nodes[id]);
      UsedKnown(s.nodes[id].ifaces, end, s.endpoints);
    }
    forall a, b, end | a in s.nodes && b in s.nodes && Touches(s.nodes[a], end) && Touches(s.nodes[b], end)
        ensures a == b {
      HeldOnce(env, s.endpoints, s.nodes, a, b, end);
    }
  }

  lemma UsedKnown(ifaces: Ifaces, end: End, endpoints: map<End, Entity>)
    requires Placed(ifaces, endpoints) && Uses(ifaces, end)
    ensures end in endpoints
  {
  }

  // ---- After a participant left -----------------------------------------------------------

  /**
   * A first-seen time survives the departure exactly when its Writer was removed before and no sweep ran since.
   */
  lemma FirstSeenPurged(env: Env, s: Disc, op: Op)
    requires Coherent(env, s) && op.RemoveParticipant? && (forall end :: env.identity(end).end == end)
    ensures (forall g | g in Step(s, op).0.firstSeen :: env.identity(End(Writer, g)).participant != op.p)
       <==> (forall g | g in s.firstSeen && env.identity(End(Writer, g)).participant == op.p ::
           End(Writer, g) in s.endpoints)
  {
  }

  /** Such a left-over exists: sighting, removal and departure of one undeclared Writer. */
  lemma FirstSeenLeftBehind(topic: string)
    requires OrphanTopic(topic)
    ensures var ops := [AddEndpoint(Entity(End(Writer, 7), 1, topic, ""), []), Sweep(0, 5, [7]),
                        RemoveEndpoint(End(Writer, 7), []), RemoveParticipant(1, [])];
            LegalRun(INITIAL, ops) && 7 in Run(INITIAL, ops).0.firstSeen
  {
    hide Step, Legal, OrphanTopic;
    SightedAndRemoved(topic);
    RunFour(INITIAL, AddEndpoint(Entity(End(Writer, 7), 1, topic, ""), []), Sweep(0, 5, [7]),
            RemoveEndpoint(End(Writer, 7), []), RemoveParticipant(1, []));
  }

  lemma SightedAndRemoved(topic: string)
    requires OrphanTopic(topic)
    ensures var add, sweep := AddEndpoint(Entity(End(Writer, 7), 1, topic, ""), []), Sweep(0, 5, [7]);
            var remove, leave := RemoveEndpoint(End(Writer, 7), []), RemoveParticipant(1, []);
            var s1 := Step(INITIAL, add).0;
            var s2 := Step(s1, sweep).0;
            var s3 := Step(s2, remove).0;
            Legal(INITIAL, add) && Legal(s1, sweep) && Legal(s2, remove) && Legal(s3, leave)
            && 7 in Step(s3, leave).0.firstSeen
  {
    hide OrphanTopic;
    var e := Entity(End(Writer, 7), 1, topic, "");
    var s1 := Step(INITIAL, AddEndpoint(e, [])).0;
    assert s1 == Disc({}, map[e.end := e], map[], {EndKeyOf(e)}, map[]);
    assert Candidates(s1) == {7};
    var s2 := Step(s1, Sweep(0, 5, [7])).0;
    assert DueWriters(s1, 0, 5, [7]) == [] by { assert DueWriters(s1, 0, 5, []) == []; }
    assert s2.firstSeen == map[7 := 0] && s2.nodes == map[] && s2.endpoints == s1.endpoints;
    var s3 := Step(s2, RemoveEndpoint(e.end, [])).0;
    assert s3.endpoints == map[] && s3.nodes == map[] && s3.firstSeen == map[7 := 0];
    var s4 := Step(s3, RemoveParticipant(1, [])).0;
    assert EndpointsOn(s3.endpoints, 1) == {};
    assert s4.firstSeen == map[7 := 0];
    assert Ids(s3.nodes, 1) == {};
  }

  lemma RunFour(s: Disc, a: Op, b: Op, c: Op, d: Op)
    ensures Run(s, [a, b, c, d]).0 == Step(Step(Step(Step(s, a).0, b).0, c).0, d).0
    ensures Legal(s, a) && Legal(Step(s, a).0, b) && Legal(Step(Step(s, a).0, b).0, c)
            && Legal(Step(Step(Step(s, a).0, b).0, c).0, d)
            && (forall op | op in {a, b, c, d} && op.AddEndpoint? :: op.e.end.gid != NOT_DISCOVERED)
            ==> LegalRun(s, [a, b, c, d])
  {
    hide Step, Legal;
    assert [a, b, c, d][1..] == [b, c, d] && [b, c, d][1..] == [c, d] && [c, d][1..] == [d] && [d][1..] == [];
    var s1 := Step(s, a).0;
    var s2 := Step(s1, b).0;
    var s3 := Step(s2, c).0;
    assert Run(s3, [d]).0 == Step(s3, d).0;
    assert Run(s2, [c, d]).0 == Run(s3, [d]).0;
    assert Run(s1, [b, c, d]).0 == Run(s2, [c, d]).0;
    if Legal(s, a) && Legal(s1, b) && Legal(s2, c) && Legal(s3, d)
       && (forall op | op in {a, b, c, d} && op.AddEndpoint? :: op.e.end.gid != NOT_DISCOVERED) {
      assert LegalRun(Step(s3, d).0, []);
      assert LegalRun(s3, [d]);
      assert LegalRun(s2, [c, d]);
      assert LegalRun(s1, [b, c, d]);
    }
  }

  ghost predicate Absent(p: Gid, s: Disc) {
    (forall id | id in s.nodes :: id.participant != p)
        && (forall end | end in s.endpoints :: s.endpoints[end].participant != p)
  }

  /** DDS discovery and `ros_discovery_info` say nothing new about `p`. */
  predicate Silent(p: Gid, op: Op) {
    (op.AddEndpoint? ==> op.e.participant != p) && (op.Declare? ==> op.p != p)
  }

  ghost predicate NothingOf(p: Gid, events: seq<Event>) {
    forall v | v in events :: v.id.participant != p
  }

  lemma TagOf(id: NodeId, events: seq<NodeEvent>)
    ensures forall v | v in Tag(id, events) :: v.id == id
  {
  }

  lemma AddToOf(p: Gid, nodes: Nodes, e: Entity, order: seq<NodeId>, hit: set<Gid>)
    requires forall id | id in nodes :: id.participant != p
    ensures NothingOf(p, AddTo(nodes, e, order, hit).1) && AddTo(nodes, e, order, hit).0.Keys == nodes.Keys
    decreases order
  {
    if order != [] && order[0] in nodes {
      TagOf(order[0], Feed(nodes[order[0]].ifaces, e).1);
    }
  }

  lemma RemoveFromOf(p: Gid, nodes: Nodes, end: End, order: seq<(NodeId, seq<Key>)>)
    requires forall id | id in nodes :: id.participant != p
    ensures NothingOf(p, RemoveFrom(nodes, end, order).1) && RemoveFrom(nodes, end, order).0.Keys == nodes.Keys
    decreases order
  {
    if order != [] && order[0].0 in nodes {
      TagOf(order[0].0, Remove(nodes[order[0].0], end, order[0].1).1);
    }
  }

  lemma CloseAllOf(p: Gid, nodes: Nodes, order: seq<(NodeId, seq<Key>)>)
    requires forall x | x in order :: x.0.participant != p
    ensures NothingOf(p, CloseAll(nodes, order).1) && CloseAll(nodes, order).0.Keys <= nodes.Keys
    decreases order
  {
    if order != [] {
      assert order[0] in order;
      TagOf(order[0].0, AllUndiscovered(NodeAt(nodes, order[0].0).ifaces, order[0].1));
      CloseAllOf(p, nodes - {order[0].0}, order[1..]);
    }
  }

  lemma DeclareAllOf(p: Gid, nodes: Nodes, endpoints: map<End, Entity>, q: Gid, names: seq<(string, seq<End>)>)
    requires q != p
    ensures NothingOf(p, DeclareAll(nodes, endpoints, q, names).1)
    ensures forall id | id in DeclareAll(nodes, endpoints, q, names).0 && id !in nodes :: id.participant == q
    decreases names
  {
    if names != [] {
      var id := NodeId(q, Named(names[0].0));
      TagOf(id, DeclareEnds(NodeAt(nodes, id), names[0].1, endpoints).1);
    }
  }

  lemma ReleaseAllOf(p: Gid, nodes: Nodes, orphan: NodeId, writers: seq<(Gid, seq<Key>)>)
    requires orphan.participant != p
    ensures NothingOf(p, ReleaseAll(nodes, orphan, writers).1)
            && ReleaseAll(nodes, orphan, writers).0.Keys <= nodes.Keys
    decreases writers
  {
    if writers != [] && orphan in nodes {
      TagOf(orphan, Remove(nodes[orphan], End(Writer, writers[0].0), writers[0].1).1);
    }
  }

  lemma ResolveAllOf(p: Gid, nodes: Nodes, endpoints: map<End, Entity>, order: seq<(NodeId, seq<End>)>)
    requires forall id | id in nodes :: id.participant != p
    ensures NothingOf(p, ResolveAll(nodes, endpoints, order).1)
            && ResolveAll(nodes, endpoints, order).0.Keys == nodes.Keys
    decreases order
  {
    if order != [] && order[0].0 in nodes {
      TagOf(order[0].0, FeedAll(nodes[order[0].0].ifaces, EntitiesOf(order[0].1, endpoints)).1);
    }
  }

  lemma ClaimAllOf(p: Gid, nodes: Nodes, writers: seq<Entity>)
    requires forall e | e in writers :: e.participant != p
    ensures NothingOf(p, ClaimAll(nodes, writers).1)
    ensures forall id | id in ClaimAll(nodes, writers).0 && id !in nodes :: id.participant != p
    decreases writers
  {
    if writers != [] {
      var id := NodeId(writers[0].participant, Orphan);
      TagOf(id, Feed(NodeAt(nodes, id).ifaces, writers[0]).1);
    }
  }

  lemma StaysAbsent(p: Gid, s: Disc, op: Op)
    requires Absent(p, s) && Silent(p, op) && Legal(s, op) && ProperEnds(s.endpoints)
    ensures Absent(p, Step(s, op).0) && NothingOf(p, Step(s, op).1)
  {
    hide Classify, Candidate;
    match op
    case AddParticipant(_) =>
    case RemoveParticipant(q, order) =>
      OrderDistinct(order, Ids(s.nodes, q));
      CloseAllOf(p, s.nodes, order);
    case AddEndpoint(e, ids) => AddToOf(p, s.nodes, e, ids, {});
    case RemoveEndpoint(end, order) => RemoveFromOf(p, s.nodes, end, order);
    case Declare(q, decls, order, names, released) =>
      OrderDistinct(order, Gone(s.nodes, q, decls));
      CloseAllOf(p, s.nodes, order);
      var (closed, declared, freed) := DeclareParts(s, op);
      DeclareAllOf(p, closed.0, s.endpoints, q, Admitted(closed.0, q, decls, names));
      ReleaseAllOf(p, declared.0, NodeId(q, Orphan), released);
    case Resolve(pending) => ResolveAllOf(p, s.nodes, s.endpoints, pending);
    case Sweep(now, grace, gids) =>
      DueWritersKnown(s, now, grace, gids);
      ClaimAllOf(p, s.nodes, DueWriters(s, now, grace, gids));
  }

  /** No sweep, resolution or foreign declaration ever revives anything of a departed participant. */
  lemma {:induction false} NeverRevived(p: Gid, s: Disc, ops: seq<Op>)
    requires Absent(p, s) && LegalRun(s, ops) && Sound(s) && forall op | op in ops :: Silent(p, op)
    ensures Absent(p, Run(s, ops).0) && NothingOf(p, Run(s, ops).1)
    decreases ops
  {
    hide Absent, Legal, Step, Sound;
    if ops != [] {
      assert ops[0] in ops;
      assert ProperEnds(s.endpoints) by { SoundEnds(s); }
      StaysAbsent(p, s, ops[0]);
      StepHeard(s, ops[0]);
      NeverRevived(p, Step(s, ops[0]).0, ops[1..]);
    }
  }

  lemma SoundEnds(s: Disc)
    requires Sound(s)
    ensures ProperEnds(s.endpoints)
  {
  }
}

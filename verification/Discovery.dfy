/**
 * The discovery state machine: DDS endpoints and the nodes declaring them are merged, in whatever
 * order they are learnt, into interfaces announced by events.
 *
 * Functions take the hash map iteration orders they meet as arguments; `Op` records them, so that a
 * run is a sequence of `Op`s and `Step` is a function.
 */
module Discovery {
  import opened Wrappers
  import opened Text
  import opened Iteration
  import opened NodeInfo

  /** Node fullnames, the synthetic node that holds a participant's undeclared Writers set apart. */
  datatype NodeName = Named(fullname: string) | Orphan

  datatype NodeId = NodeId(participant: Gid, name: NodeName)

  type Nodes = map<NodeId, Node>

  datatype Event = Event(id: NodeId, event: NodeEvent)

  /** The keys of the admin space; each names the entity it refers to. */
  datatype AdminKey = ParticipantKey(p: Gid) | EndKey(p: Gid, end: End, topic: string) | NodeKey(id: NodeId)

  /** One node of `ros_discovery_info`. `creatable` tells whether its name makes a key expression. */
  datatype NodeDecl = NodeDecl(readers: set<Gid>, writers: set<Gid>, creatable: bool)

  datatype Disc = Disc(participants: set<Gid>, endpoints: map<End, Entity>, nodes: Nodes,
                       admin: set<AdminKey>, firstSeen: map<Gid, int>)

  const EMPTY_NODE := Node(map[], {})

  function Tag(id: NodeId, events: seq<NodeEvent>): seq<Event> {
    if events == [] then [] else [Event(id, events[0])] + Tag(id, events[1..])
  }

  function NodeAt(nodes: Nodes, id: NodeId): Node {
    if id in nodes then nodes[id] else EMPTY_NODE
  }

  // ---- Effects on the nodes ---------------------------------------------------------------

  /**
   * A new endpoint resolves the nodes that parked it. Within a participant the search stops at the
   * first such node, over all participants at the first event.
   */
  function AddTo(nodes: Nodes, e: Entity, order: seq<NodeId>, hit: set<Gid>): (Nodes, seq<Event>)
    decreases order
  {
    if order == [] then (nodes, [])
    else
      var id := order[0];
      if id in nodes && e.end in nodes[id].parked && id.participant !in hit then
        var (ifaces, events) := Feed(nodes[id].ifaces, e);
        var nodes' := nodes[id := Node(ifaces, nodes[id].parked - {e.end})];
        if events != [] then (nodes', Tag(id, events))
        else AddTo(nodes', e, order[1..], hit + {id.participant})
      else AddTo(nodes, e, order[1..], hit)
  }

  /** A removed endpoint is taken out of the nodes until one of them undiscovers an interface. */
  function RemoveFrom(nodes: Nodes, end: End, order: seq<(NodeId, seq<Key>)>): (Nodes, seq<Event>)
    decreases order
  {
    if order == [] then (nodes, [])
    else
      var (id, keys) := order[0];
      if id !in nodes then RemoveFrom(nodes, end, order[1..])
      else
        var (node, events) := Remove(nodes[id], end, keys);
        if events != [] then (nodes[id := node], Tag(id, events))
        else RemoveFrom(nodes[id := node], end, order[1..])
  }

  /** Nodes that are gone undiscover everything they held. */
  function CloseAll(nodes: Nodes, order: seq<(NodeId, seq<Key>)>): (Nodes, seq<Event>)
    decreases order
  {
    if order == [] then (nodes, [])
    else
      var (id, keys) := order[0];
      var (rest, events) := CloseAll(nodes - {id}, order[1..]);
      (rest, Tag(id, AllUndiscovered(NodeAt(nodes, id).ifaces, keys)) + events)
  }

  /** `update_node_info`: known endpoints are fed to the node, the others parked. */
  function DeclareEnds(node: Node, ends: seq<End>, endpoints: map<End, Entity>): (Node, seq<NodeEvent>)
    decreases ends
  {
    if ends == [] then (node, [])
    else if ends[0] in endpoints then
      var (ifaces, e1) := Feed(node.ifaces, endpoints[ends[0]]);
      var (node', e2) := DeclareEnds(node.(ifaces := ifaces), ends[1..], endpoints);
      (node', e1 + e2)
    else DeclareEnds(node.(parked := node.parked + {ends[0]}), ends[1..], endpoints)
  }

  function DeclareAll(nodes: Nodes, endpoints: map<End, Entity>, p: Gid, names: seq<(string, seq<End>)>)
    : (Nodes, seq<Event>)
    decreases names
  {
    if names == [] then (nodes, [])
    else
      var id := NodeId(p, Named(names[0].0));
      var (node, e1) := DeclareEnds(NodeAt(nodes, id), names[0].1, endpoints);
      var (nodes', e2) := DeclareAll(nodes[id := node], endpoints, p, names[1..]);
      (nodes', Tag(id, e1) + e2)
  }

  /** The declared nodes handled before one that cannot be created ends the loop. */
  function Admitted(nodes: Nodes, p: Gid, decls: map<string, NodeDecl>, names: seq<(string, seq<End>)>)
    : seq<(string, seq<End>)>
  {
    if names == [] || (NodeId(p, Named(names[0].0)) !in nodes
                       && !(names[0].0 in decls && decls[names[0].0].creatable)) then []
    else [names[0]] + Admitted(nodes, p, decls, names[1..])
  }

  /** The Writers the orphan node of `p` holds. */
  function OrphanOwned(nodes: Nodes, p: Gid): set<Gid> {
    var ifaces := NodeAt(nodes, NodeId(p, Orphan)).ifaces;
    set k, g | k in ifaces && k.kind == MsgPub && g in ifaces[k].endpoints :: g
  }

  function TransferredEnds(owned: set<Gid>, ends: seq<End>): seq<Gid> {
    if ends == [] then []
    else (if ends[0].side.Writer? && ends[0].gid in owned then [ends[0].gid] else [])
         + TransferredEnds(owned, ends[1..])
  }

  function Transferred(owned: set<Gid>, names: seq<(string, seq<End>)>): seq<Gid> {
    if names == [] then [] else TransferredEnds(owned, names[0].1) + Transferred(owned, names[1..])
  }

  /** The orphan node releases the transferred Writers and goes once it publishes nothing. */
  function ReleaseAll(nodes: Nodes, orphan: NodeId, writers: seq<(Gid, seq<Key>)>): (Nodes, seq<Event>)
    decreases writers
  {
    if writers == [] || orphan !in nodes then (nodes, [])
    else
      var (node, e1) := Remove(nodes[orphan], End(Writer, writers[0].0), writers[0].1);
      var (nodes', e2) := ReleaseAll(if Publishes(node) then nodes[orphan := node] else nodes - {orphan},
                                     orphan, writers[1..]);
      (nodes', Tag(orphan, e1) + e2)
  }

  predicate Publishes(node: Node) {
    exists k | k in node.ifaces :: k.kind == MsgPub
  }

  function EntitiesOf(ends: seq<End>, endpoints: map<End, Entity>): seq<Entity> {
    if ends == [] then []
    else (if ends[0] in endpoints then [endpoints[ends[0]]] else []) + EntitiesOf(ends[1..], endpoints)
  }

  /** `resolve_pending_endpoints`: parked endpoints that DDS discovery knows by now. */
  function ResolveAll(nodes: Nodes, endpoints: map<End, Entity>, order: seq<(NodeId, seq<End>)>): (Nodes, seq<Event>)
    decreases order
  {
    if order == [] then (nodes, [])
    else
      var (id, ends) := order[0];
      if id !in nodes then ResolveAll(nodes, endpoints, order[1..])
      else
        var (ifaces, e1) := FeedAll(nodes[id].ifaces, EntitiesOf(ends, endpoints));
        var node := Node(ifaces, nodes[id].parked - Elements(ends));
        var (nodes', e2) := ResolveAll(nodes[id := node], endpoints, order[1..]);
        (nodes', Tag(id, e1) + e2)
  }

  /** The orphan node of its participant takes over each Writer whose grace period ended. */
  function ClaimAll(nodes: Nodes, writers: seq<Entity>): (Nodes, seq<Event>)
    decreases writers
  {
    if writers == [] then (nodes, [])
    else
      var id := NodeId(writers[0].participant, Orphan);
      var (ifaces, e1) := Feed(NodeAt(nodes, id).ifaces, writers[0]);
      var (nodes', e2) := ClaimAll(nodes[id := NodeAt(nodes, id).(ifaces := ifaces)], writers[1..]);
      (nodes', Tag(id, e1) + e2)
  }

  // ---- The orphan sweep -------------------------------------------------------------------

  predicate OrphanTopic(topic: string) {
    StartsWith(topic, "rt/") && !Contains(topic, "/_action/")
    && topic != "rt/rosout" && topic != "rt/parameter_events"
  }

  predicate Claims(node: Node, gid: Gid) {
    End(Writer, gid) in node.parked
    || exists k | k in node.ifaces :: k.kind == MsgPub && gid in node.ifaces[k].endpoints
  }

  predicate Claimed(nodes: Nodes, gid: Gid) {
    exists id | id in nodes :: Claims(nodes[id], gid)
  }

  predicate Candidate(s: Disc, gid: Gid) {
    End(Writer, gid) in s.endpoints && OrphanTopic(s.endpoints[End(Writer, gid)].topic) && !Claimed(s.nodes, gid)
  }

  function Candidates(s: Disc): set<Gid> {
    set end | end in s.endpoints && end.side.Writer? && Candidate(s, end.gid) :: end.gid
  }

  function FirstSeen(s: Disc, gid: Gid, now: int): int {
    if gid in s.firstSeen then s.firstSeen[gid] else now
  }

  /** `Instant::duration_since`, which never goes below zero. */
  function Elapsed(since: int, now: int): nat {
    if now < since then 0 else now - since
  }

  predicate Due(s: Disc, gid: Gid, now: int, grace: nat) {
    Elapsed(FirstSeen(s, gid, now), now) >= grace
  }

  /** The candidates of `order` whose grace period is over. */
  function DueWriters(s: Disc, now: int, grace: nat, order: seq<Gid>): seq<Entity> {
    if order == [] then []
    else (if End(Writer, order[0]) in s.endpoints && Due(s, order[0], now, grace)
          then [s.endpoints[End(Writer, order[0])]] else [])
         + DueWriters(s, now, grace, order[1..])
  }

  // ---- The state machine ------------------------------------------------------------------

  /** What happens to the discovery state, with the iteration orders met on the way. */
  datatype Op =
    | AddParticipant(p: Gid)
    | RemoveParticipant(p: Gid, order: seq<(NodeId, seq<Key>)>)
    | AddEndpoint(e: Entity, ids: seq<NodeId>)
    | RemoveEndpoint(end: End, order: seq<(NodeId, seq<Key>)>)
    | Declare(p: Gid, decls: map<string, NodeDecl>, order: seq<(NodeId, seq<Key>)>,
              names: seq<(string, seq<End>)>, released: seq<(Gid, seq<Key>)>)
    | Resolve(pending: seq<(NodeId, seq<End>)>)
    | Sweep(now: int, grace: nat, gids: seq<Gid>)

  function Ids(nodes: Nodes, p: Gid): set<NodeId> {
    set id | id in nodes && id.participant == p
  }

  function EndKeyOf(e: Entity): AdminKey {
    EndKey(e.participant, e.end, e.topic)
  }

  function NodeKeys(ids: set<NodeId>): set<AdminKey> {
    set id | id in ids :: NodeKey(id)
  }

  /** The admin space after the nodes changed: an entry comes and goes with its node. */
  function WithNodes(s: Disc, nodes: Nodes): Disc {
    s.(nodes := nodes,
       admin := s.admin - NodeKeys(s.nodes.Keys - nodes.Keys) + NodeKeys(nodes.Keys - s.nodes.Keys))
  }

  function EndpointsOn(endpoints: map<End, Entity>, p: Gid): set<End> {
    set end | end in endpoints && endpoints[end].participant == p
  }

  function EndKeys(endpoints: map<End, Entity>, ends: set<End>): set<AdminKey> {
    set end | end in ends && end in endpoints :: EndKeyOf(endpoints[end])
  }

  function WriterGids(ends: set<End>): set<Gid> {
    set end | end in ends && end.side.Writer? :: end.gid
  }

  /** The nodes of `p` that a declaration no longer lists. */
  function Gone(nodes: Nodes, p: Gid, decls: map<string, NodeDecl>): set<NodeId> {
    set id | id in nodes && id.participant == p && id.name.Named? && id.name.fullname !in decls
  }

  /** The nodes after each of the three parts of `update_participant_info`, with the events of that part. */
  function DeclareParts(s: Disc, op: Op): ((Nodes, seq<Event>), (Nodes, seq<Event>), (Nodes, seq<Event>))
    requires op.Declare?
  {
    var closed := CloseAll(s.nodes, op.order);
    var declared := DeclareAll(closed.0, s.endpoints, op.p, Admitted(closed.0, op.p, op.decls, op.names));
    (closed, declared, ReleaseAll(declared.0, NodeId(op.p, Orphan), op.released))
  }

  function Step(s: Disc, op: Op): (Disc, seq<Event>) {
    match op
    case AddParticipant(p) =>
      (s.(participants := s.participants + {p}, admin := s.admin + {ParticipantKey(p)}), [])
    case RemoveParticipant(p, order) =>
      var (nodes, events) := CloseAll(s.nodes, order);
      var s1 := WithNodes(s.(participants := s.participants - {p}, admin := s.admin - {ParticipantKey(p)}), nodes);
      var stale := EndpointsOn(s.endpoints, p);
      (s1.(endpoints := s.endpoints - stale,
           admin := s1.admin - EndKeys(s.endpoints, stale),
           firstSeen := s.firstSeen - WriterGids(stale)), events)
    case AddEndpoint(e, ids) =>
      var (nodes, events) := AddTo(s.nodes, e, ids, {});
      (s.(endpoints := s.endpoints[e.end := e], nodes := nodes, admin := s.admin + {EndKeyOf(e)}), events)
    case RemoveEndpoint(end, order) =>
      if end !in s.endpoints then (s, [])
      else
        var (nodes, events) := RemoveFrom(s.nodes, end, order);
        (s.(endpoints := s.endpoints - {end}, nodes := nodes, admin := s.admin - {EndKeyOf(s.endpoints[end])}), events)
    case Declare(_, _, _, _, _) =>
      var (closed, declared, released) := DeclareParts(s, op);
      (WithNodes(s, released.0), closed.1 + declared.1 + released.1)
    case Resolve(pending) =>
      var (nodes, events) := ResolveAll(s.nodes, s.endpoints, pending);
      (s.(nodes := nodes), events)
    case Sweep(now, grace, gids) =>
      var (nodes, events) := ClaimAll(s.nodes, DueWriters(s, now, grace, gids));
      (WithNodes(s.(firstSeen := map g | g in Candidates(s) && !Due(s, g, now, grace) :: FirstSeen(s, g, now)), nodes),
       events)
  }

  ghost predicate NodeOrder(order: seq<(NodeId, seq<Key>)>, ids: set<NodeId>, nodes: Nodes) {
    Enumerates(Firsts(order), ids)
    && forall i | 0 <= i < |order| :: order[i].0 in nodes && Enumerates(order[i].1, nodes[order[i].0].ifaces.Keys)
  }

  function DeclaredEnds(d: NodeDecl): set<End> {
    (set g | g in d.readers :: End(Reader, g)) + (set g | g in d.writers :: End(Writer, g))
  }

  /** Each node is declared once, its Readers before its Writers. */
  ghost predicate NameOrder(names: seq<(string, seq<End>)>, decls: map<string, NodeDecl>) {
    Enumerates(Firsts(names), decls.Keys)
    && forall i | 0 <= i < |names| ::
         names[i].0 in decls && Enumerates(names[i].1, DeclaredEnds(decls[names[i].0]))
         && forall a, b | 0 <= a < b < |names[i].1| && names[i].1[b].side.Reader? :: names[i].1[a].side.Reader?
  }

  ghost predicate ReleaseOrder(nodes: Nodes, orphan: NodeId, writers: seq<(Gid, seq<Key>)>)
    decreases writers
  {
    writers == [] || orphan !in nodes
    || (Enumerates(writers[0].1, nodes[orphan].ifaces.Keys)
        && var node := Remove(nodes[orphan], End(Writer, writers[0].0), writers[0].1).0;
           ReleaseOrder(if Publishes(node) then nodes[orphan := node] else nodes - {orphan}, orphan, writers[1..]))
  }

  /** The iteration orders recorded in `op` are ones its loops can meet in `s`. */
  ghost predicate Legal(s: Disc, op: Op) {
    match op
    case AddParticipant(_) => true
    case RemoveParticipant(p, order) => NodeOrder(order, Ids(s.nodes, p), s.nodes)
    case AddEndpoint(_, ids) => Enumerates(ids, s.nodes.Keys)
    case RemoveEndpoint(end, order) => end in s.endpoints ==> NodeOrder(order, s.nodes.Keys, s.nodes)
    case Declare(p, decls, order, names, released) =>
      NodeOrder(order, Gone(s.nodes, p, decls), s.nodes) && NameOrder(names, decls)
      && (var closed := DeclareParts(s, op).0.0;
          Firsts(released)
          == Transferred(OrphanOwned(closed, p), Admitted(closed, p, decls, names)))
      && ReleaseOrder(DeclareParts(s, op).1.0, NodeId(p, Orphan), released)
    case Resolve(pending) =>
      Enumerates(Firsts(pending), s.nodes.Keys)
      && forall i | 0 <= i < |pending| ::
           pending[i].0 in s.nodes && Enumerates(pending[i].1, s.nodes[pending[i].0].parked * s.endpoints.Keys)
    case Sweep(_, _, gids) => Enumerates(gids, Candidates(s))
  }

  const INITIAL := Disc({}, map[], map[], {}, map[])

  /** The states of a run. */
  function Run(s: Disc, ops: seq<Op>): (Disc, seq<Event>)
    decreases ops
  {
    if ops == [] then (s, [])
    else
      var (s1, e1) := Step(s, ops[0]);
      var (s2, e2) := Run(s1, ops[1..]);
      (s2, e1 + e2)
  }

  /** Every step of the run is possible and concerns a proper endpoint. */
  ghost predicate LegalRun(s: Disc, ops: seq<Op>)
    decreases ops
  {
    ops == []
    || (Legal(s, ops[0]) && (ops[0].AddEndpoint? ==> ops[0].e.end.gid != NOT_DISCOVERED)
        && LegalRun(Step(s, ops[0]).0, ops[1..]))
  }
}

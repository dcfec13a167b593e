/**
 * Discovery is confluent: in whatever order DDS shows the endpoints of a participant and its nodes
 * declare them, the nodes end up the same and the same interfaces are announced.
 */
module DiscoveryConfluence {
  import opened Wrappers
  import opened Iteration
  import opened NodeInfo
  import opened Discovery
  import opened DiscoveryEvents
  import opened DiscoveryRefs

  /** A participant `p` about to declare `decls` in state `s`, where its node `id` was fed exactly `base(id)`. */
  datatype Setting = Setting(env: Env, s: Disc, p: Gid, decls: map<string, NodeDecl>, base: NodeId -> set<Entity>)

  predicate Own(x: Setting, id: NodeId) {
    id.participant == x.p && id.name.Named?
  }

  function DeclaredBy(x: Setting, id: NodeId): set<End> {
    if Own(x, id) && id.name.fullname in x.decls then DeclaredEnds(x.decls[id.name.fullname]) else {}
  }

  /** The endpoints the node waits for, or will, once it is `declared`. */
  function Wanted(x: Setting, id: NodeId, declared: bool): set<End> {
    NodeAt(x.s.nodes, id).parked + if declared then DeclaredBy(x, id) else {}
  }

  function EntitiesAt(env: Env, ends: set<End>): set<Entity> {
    set end | end in ends :: env.identity(end)
  }

  /** The node as the endpoints wanted and known determine it, no order involved. */
  ghost function Expected(x: Setting, id: NodeId, declared: bool, endpoints: map<End, Entity>): Node {
    var wanted := Wanted(x, id, declared);
    Node(Canon(FactsOf(x.base(id) + EntitiesAt(x.env, wanted * endpoints.Keys))), wanted - endpoints.Keys)
  }

  function DeclaredIds(x: Setting): set<NodeId> {
    set name | name in x.decls :: NodeId(x.p, Named(name))
  }

  /**
   * Endpoints of a node agree on types, and each service or action role has one endpoint. Nodes have
   * proper names, and no declared Writer is held by the orphan node.
   */
  ghost predicate Fitting(x: Setting) {
    Coherent(x.env, x.s) && (forall end :: x.env.identity(end).end == end)
    && (forall name | name in x.decls :: x.decls[name].creatable)
    && (forall id | Own(x, id) ::
          NodeAt(x.s.nodes, id).ifaces == Canon(FactsOf(x.base(id)))
          && Consistent(FactsOf(x.base(id) + EntitiesAt(x.env, Wanted(x, id, true)))))
    && forall name, w | name in x.decls && w in x.decls[name].writers :: w !in OrphanOwned(x.s.nodes, x.p)
  }

  ghost predicate Reached(x: Setting, declared: bool, s: Disc) {
    s.nodes.Keys == (if declared then x.s.nodes.Keys - Gone(x.s.nodes, x.p, x.decls) + DeclaredIds(x)
        else x.s.nodes.Keys)
    && forall id | id in s.nodes ::
         s.nodes[id] == if Own(x, id) then Expected(x, id, declared, s.endpoints) else NodeAt(x.s.nodes, id)
  }

  // ---- A new endpoint ---------------------------------------------------------------------

  lemma FewerFacts(es: set<Entity>, fs: set<Entity>)
    requires Consistent(FactsOf(fs)) && es <= fs
    ensures Consistent(FactsOf(es))
  {
  }

  lemma FeedCanon(es: set<Entity>, e: Entity)
    requires Consistent(FactsOf(es + {e}))
    ensures Feed(Canon(FactsOf(es)), e).0 == Canon(FactsOf(es + {e}))
  {
    hide Classify, Canon;
    FactsStep(es, e);
    if Classify(e).Some? {
      CanonStep(FactsOf(es), Fact(Classify(e).value, e.end.gid));
    } else {
      assert FactsOf(es + {e}) == FactsOf(es);
    }
  }

  /** A wanted endpoint shows up. */
  lemma ExpectedGrows(x: Setting, id: NodeId, declared: bool, endpoints: map<End, Entity>, e: Entity)
    requires Fitting(x) && Own(x, id) && e == x.env.identity(e.end)
             && e.end in Expected(x, id, declared, endpoints).parked
    ensures var node := Expected(x, id, declared, endpoints);
            Expected(x, id, declared, endpoints[e.end := e]) == Node(Feed(node.ifaces, e).0, node.parked - {e.end})
  {
    hide Canon, FactsOf, Feed, Consistent, Coherent;
    var wanted := Wanted(x, id, declared);
    var es := x.base(id) + EntitiesAt(x.env, wanted * endpoints.Keys);
    var es' := x.base(id) + EntitiesAt(x.env, wanted * endpoints[e.end := e].Keys);
    assert es' == es + {e};
    assert es' <= x.base(id) + EntitiesAt(x.env, Wanted(x, id, true));
    FewerFacts(es', x.base(id) + EntitiesAt(x.env, Wanted(x, id, true)));
    FeedCanon(es, e);
    assert wanted - endpoints[e.end := e].Keys == wanted - endpoints.Keys - {e.end};
  }

  /** An endpoint the node does not wait for makes no difference to it. */
  lemma ExpectedSame(x: Setting, id: NodeId, declared: bool, endpoints: map<End, Entity>, e: Entity)
    requires e.end !in Expected(x, id, declared, endpoints).parked
    ensures Expected(x, id, declared, endpoints[e.end := e]) == Expected(x, id, declared, endpoints)
  {
    hide Canon, FactsOf;
    var wanted := Wanted(x, id, declared);
    assert wanted * endpoints[e.end := e].Keys == wanted * endpoints.Keys;
    assert wanted - endpoints[e.end := e].Keys == wanted - endpoints.Keys;
  }

  lemma ReachedByAdd(x: Setting, declared: bool, s: Disc, e: Entity, ids: seq<NodeId>)
    requires Fitting(x) && Reached(x, declared, s) && Coherent(x.env, s)
    requires Legal(s, AddEndpoint(e, ids)) && Admissible(x.env, AddEndpoint(e, ids)) && e.participant == x.p
    ensures Reached(x, declared, Step(s, AddEndpoint(e, ids)).0)
  {
    hide Expected, Feed, Fitting, Placed, Uses, AdminExact;
    var owner := OwnerId(x.env, e.end);
    forall id | id in s.nodes && e.end in s.nodes[id].parked ensures id == owner {
      assert NodeCoherent(x.env, s.endpoints, id, s.nodes[id]) && Touches(s.nodes[id], e.end);
    }
    AddToEffect(s.nodes, e, ids, owner);
    forall id | id in s.nodes && Own(x, id)
      ensures Expected(x, id, declared, s.endpoints[e.end := e])
           == if e.end in s.nodes[id].parked then Node(Feed(s.nodes[id].ifaces, e).0, s.nodes[id].parked - {e.end})
               else s.nodes[id]
    {
      if e.end in s.nodes[id].parked {
        ExpectedGrows(x, id, declared, s.endpoints, e);
      } else {
        ExpectedSame(x, id, declared, s.endpoints, e);
      }
    }
  }

  // ---- The declaration --------------------------------------------------------------------

  /** Declaring endpoints in any order feeds the known ones and parks the others. */
  lemma {:induction false} DeclareEndsCanon(env: Env, es: set<Entity>, parked: set<End>, ends: seq<End>,
      endpoints: map<End, Entity>)
    requires EndsIdentified(env, endpoints)
    requires Consistent(FactsOf(es + EntitiesAt(env, Elements(ends) * endpoints.Keys)))
    ensures DeclareEnds(Node(Canon(FactsOf(es)), parked), ends, endpoints).0
         == Node(Canon(FactsOf(es + EntitiesAt(env, Elements(ends) * endpoints.Keys))),
             parked + (Elements(ends) - endpoints.Keys))
    decreases ends
  {
    hide Canon, FactsOf, Feed, Consistent;
    if ends == [] {
      assert Elements(ends) == {} && es + EntitiesAt(env, {} * endpoints.Keys) == es;
    } else {
      assert ends == [ends[0]] + ends[1..] && Elements(ends) == {ends[0]} + Elements(ends[1..]);
      var known, rest := EntitiesAt(env, Elements(ends) * endpoints.Keys),
          EntitiesAt(env, Elements(ends[1..]) * endpoints.Keys);
      if ends[0] in endpoints {
        var e := endpoints[ends[0]];
        assert es + {e} + rest == es + known;
        FewerFacts(es + {e}, es + known);
        FeedCanon(es, e);
        DeclareEndsCanon(env, es + {e}, parked, ends[1..], endpoints);
        assert Elements(ends) - endpoints.Keys == Elements(ends[1..]) - endpoints.Keys;
      } else {
        assert Elements(ends) * endpoints.Keys == Elements(ends[1..]) * endpoints.Keys;
        DeclareEndsCanon(env, es, parked + {ends[0]}, ends[1..], endpoints);
        assert parked + {ends[0]} + (Elements(ends[1..]) - endpoints.Keys)
            == parked + (Elements(ends) - endpoints.Keys);
      }
    }
  }

  predicate Declared(p: Gid, names: seq<(string, seq<End>)>, id: NodeId) {
    exists i | 0 <= i < |names| :: id == NodeId(p, Named(names[i].0))
  }

  lemma DeclaredHead(p: Gid, names: seq<(string, seq<End>)>, id: NodeId)
    requires names != []
    ensures Declared(p, names, id) <==> id == NodeId(p, Named(names[0].0)) || Declared(p, names[1..], id)
  {
  }

  lemma {:induction false} DeclareAllKeys(nodes: Nodes, endpoints: map<End, Entity>, p: Gid,
      names: seq<(string, seq<End>)>)
    ensures var nodes' := DeclareAll(nodes, endpoints, p, names).0;
            (forall id :: id in nodes' <==> id in nodes || Declared(p, names, id))
            && forall id | id in nodes && !Declared(p, names, id) :: nodes'[id] == nodes[id]
    decreases names
  {
    hide DeclareEnds, Declared;
    if names != [] {
      var id := NodeId(p, Named(names[0].0));
      DeclareAllKeys(nodes[id := DeclareEnds(NodeAt(nodes, id), names[0].1, endpoints).0], endpoints, p, names[1..]);
      forall other ensures Declared(p, names, other) <==> other == id || Declared(p, names[1..], other) {
        DeclaredHead(p, names, other);
      }
    } else {
      forall id ensures !Declared(p, [], id) {
        NothingDeclared(p, id);
      }
    }
  }

  lemma NothingDeclared(p: Gid, id: NodeId)
    ensures !Declared(p, [], id)
  {
  }

  lemma {:induction false} DeclareAllIs(nodes: Nodes, endpoints: map<End, Entity>, p: Gid,
      names: seq<(string, seq<End>)>, i: nat)
    requires forall i, j | 0 <= i < j < |names| :: names[i].0 != names[j].0
    requires i < |names|
    ensures var id := NodeId(p, Named(names[i].0));
            NodeAt(DeclareAll(nodes, endpoints, p, names).0, id)
                == DeclareEnds(NodeAt(nodes, id), names[i].1, endpoints).0
    decreases names
  {
    hide DeclareEnds;
    var id := NodeId(p, Named(names[0].0));
    var nodes1 := nodes[id := DeclareEnds(NodeAt(nodes, id), names[0].1, endpoints).0];
    if i == 0 {
      DeclareAllKeys(nodes1, endpoints, p, names[1..]);
      assert forall j | 0 <= j < |names[1..]| :: names[1..][j] == names[j + 1];
    } else {
      assert names[1..][i - 1] == names[i];
      DeclareAllIs(nodes1, endpoints, p, names[1..], i - 1);
    }
  }

  lemma {:induction false} AllAdmitted(nodes: Nodes, p: Gid, decls: map<string, NodeDecl>,
      names: seq<(string, seq<End>)>)
    requires forall i | 0 <= i < |names| :: names[i].0 in decls && decls[names[i].0].creatable
    ensures Admitted(nodes, p, decls, names) == names
  {
    if names != [] {
      assert forall i | 1 <= i < |names| :: names[i] == names[1..][i - 1];
      AllAdmitted(nodes, p, decls, names[1..]);
    }
  }

  lemma NothingTransferred(owned: set<Gid>, names: seq<(string, seq<End>)>)
    requires forall i, w | 0 <= i < |names| && End(Writer, w) in names[i].1 :: w !in owned
    ensures Transferred(owned, names) == []
  {
    var moved := Transferred(owned, names);
    if moved != [] {
      assert moved[0] in moved;
      TransferredHave(owned, names, moved[0]);
    }
  }

  lemma NamesDistinct(names: seq<(string, seq<End>)>, decls: map<string, NodeDecl>)
    requires NameOrder(names, decls)
    ensures forall i, j | 0 <= i < j < |names| :: names[i].0 != names[j].0
    ensures forall name | name in decls :: exists i | 0 <= i < |names| :: names[i].0 == name
  {
  }

  /** A node of the participant, declared, is what it is expected to be. */
  lemma DeclaredAsExpected(x: Setting, declared: bool, s: Disc, id: NodeId, ends: seq<End>, node: Node)
    requires Fitting(x) && Own(x, id) && id.name.fullname in x.decls && Enumerates(ends, DeclaredBy(x, id))
    requires EndsIdentified(x.env, s.endpoints)
    requires node == Expected(x, id, declared, s.endpoints)
    ensures DeclareEnds(node, ends, s.endpoints).0 == Expected(x, id, true, s.endpoints)
  {
    hide Canon, FactsOf, Consistent, Coherent, DeclareEnds;
    var known := s.endpoints.Keys;
    var es := x.base(id) + EntitiesAt(x.env, Wanted(x, id, declared) * known);
    assert Elements(ends) == DeclaredBy(x, id);
    var es' := es + EntitiesAt(x.env, Elements(ends) * known);
    assert es' == x.base(id) + EntitiesAt(x.env, Wanted(x, id, true) * known);
    FewerFacts(es', x.base(id) + EntitiesAt(x.env, Wanted(x, id, true)));
    DeclareEndsCanon(x.env, es, node.parked, ends, s.endpoints);
    assert node.parked + (Elements(ends) - known) == Wanted(x, id, true) - known;
  }

  /** A node declared for the first time starts empty, as expected of it. */
  lemma NewNodeExpected(x: Setting, id: NodeId, endpoints: map<End, Entity>)
    requires Fitting(x) && Own(x, id) && id !in x.s.nodes
    ensures Expected(x, id, false, endpoints) == EMPTY_NODE
  {
    hide Canon, FactsOf, Consistent, Coherent;
    assert EntitiesAt(x.env, Wanted(x, id, false) * endpoints.Keys) == {};
    assert x.base(id) + {} == x.base(id);
  }

  lemma NoTransfer(x: Setting, declared: bool, s: Disc, op: Op)
    requires Fitting(x) && Reached(x, declared, s) && op.Declare? && op.p == x.p && op.decls == x.decls
             && NameOrder(op.names, x.decls)
    requires var closed := DeclareParts(s, op).0.0;
             NodeAt(closed, NodeId(x.p, Orphan)) == NodeAt(s.nodes, NodeId(x.p, Orphan))
    ensures var closed := DeclareParts(s, op).0.0; Transferred(OrphanOwned(closed, x.p), op.names) == []
  {
    hide Expected, Coherent, Canon, FactsOf, Consistent;
    var closed := DeclareParts(s, op).0.0;
    var orphan := NodeId(x.p, Orphan);
    assert NodeAt(s.nodes, orphan) == NodeAt(x.s.nodes, orphan);
    assert OrphanOwned(closed, x.p) == OrphanOwned(x.s.nodes, x.p);
    forall i, w | 0 <= i < |op.names| && End(Writer, w) in op.names[i].1 ensures w !in OrphanOwned(closed, x.p) {
      assert End(Writer, w) in DeclaredEnds(x.decls[op.names[i].0]);
      assert w in x.decls[op.names[i].0].writers;
    }
    NothingTransferred(OrphanOwned(closed, x.p), op.names);
  }

  /** Nothing is transferred and no name is refused, so the step declares the nodes and that is all. */
  lemma DeclareOnly(x: Setting, declared: bool, s: Disc, op: Op)
    requires Fitting(x) && Reached(x, declared, s)
    requires op.Declare? && op.p == x.p && op.decls == x.decls && Legal(s, op)
    ensures Step(s, op).0.nodes == DeclareAll(s.nodes - Gone(s.nodes, x.p, x.decls), s.endpoints, x.p, op.names).0
  {
    hide Expected, Fitting, Reached, DeclareAll, Transferred, OrphanOwned, ReleaseOrder;
    OrderDistinct(op.order, Gone(s.nodes, x.p, x.decls));
    CloseAllEffect(s.nodes, op.order);
    var closed := DeclareParts(s, op).0.0;
    AllCreatable(x);
    AllAdmitted(closed, x.p, x.decls, op.names);
    NoTransfer(x, declared, s, op);
    assert |op.released| == 0;
  }

  lemma DeclareResult(x: Setting, declared: bool, s: Disc, op: Op)
    requires Fitting(x) && Reached(x, declared, s)
    requires op.Declare? && op.p == x.p && op.decls == x.decls && Legal(s, op)
    ensures var nodes' := Step(s, op).0.nodes;
            var closed := s.nodes - Gone(s.nodes, x.p, x.decls);
            nodes'.Keys == closed.Keys + DeclaredIds(x)
            && (forall id | id in closed && id !in DeclaredIds(x) :: nodes'[id] == closed[id])
            && (forall i | 0 <= i < |op.names| ::
                  NodeAt(nodes', NodeId(x.p, Named(op.names[i].0)))
                  == DeclareEnds(NodeAt(closed, NodeId(x.p, Named(op.names[i].0))), op.names[i].1, s.endpoints).0)
  {
    hide Expected, Fitting, Reached, DeclareEnds, DeclareAll, DeclareParts, ReleaseOrder, NodeOrder, Gone, Step;
    DeclareOnly(x, declared, s, op);
    NamesDistinct(op.names, x.decls);
    var closed := s.nodes - Gone(s.nodes, x.p, x.decls);
    DeclareAllKeys(closed, s.endpoints, x.p, op.names);
    forall i | 0 <= i < |op.names|
      ensures NodeAt(Step(s, op).0.nodes, NodeId(x.p, Named(op.names[i].0)))
           == DeclareEnds(NodeAt(closed, NodeId(x.p, Named(op.names[i].0))), op.names[i].1, s.endpoints).0
    {
      DeclareAllIs(closed, s.endpoints, x.p, op.names, i);
    }
    forall id ensures id in DeclaredIds(x) <==> Declared(x.p, op.names, id) {
      if name :| name in x.decls && id == NodeId(x.p, Named(name)) {
        var i :| 0 <= i < |op.names| && op.names[i].0 == name;
      }
    }
  }

  /** Each declared node, whether it was known before or not. */
  lemma DeclaredNode(x: Setting, declared: bool, s: Disc, name: string, ends: seq<End>)
    requires Fitting(x) && Reached(x, declared, s) && EndsIdentified(x.env, s.endpoints)
    requires name in x.decls && Enumerates(ends, DeclaredEnds(x.decls[name]))
    ensures var id := NodeId(x.p, Named(name));
            DeclareEnds(NodeAt(s.nodes, id), ends, s.endpoints).0 == Expected(x, id, true, s.endpoints)
  {
    hide Expected, Fitting, DeclareEnds;
    var id := NodeId(x.p, Named(name));
    if id in s.nodes {
      DeclaredAsExpected(x, declared, s, id, ends, s.nodes[id]);
    } else {
      assert declared ==> id in DeclaredIds(x);
      NewNodeExpected(x, id, s.endpoints);
      DeclaredAsExpected(x, false, s, id, ends, EMPTY_NODE);
    }
  }

  lemma DeclaredKeys(x: Setting, declared: bool, s: Disc)
    requires Reached(x, declared, s)
    ensures s.nodes.Keys - Gone(s.nodes, x.p, x.decls) + DeclaredIds(x)
         == x.s.nodes.Keys - Gone(x.s.nodes, x.p, x.decls) + DeclaredIds(x)
    ensures Gone(s.nodes, x.p, x.decls) * DeclaredIds(x) == {}
  {
  }

  lemma ReachedByDeclare(x: Setting, declared: bool, s: Disc, op: Op)
    requires Fitting(x) && Reached(x, declared, s) && EndsIdentified(x.env, s.endpoints)
    requires op.Declare? && op.p == x.p && op.decls == x.decls && Legal(s, op)
    ensures Reached(x, true, Step(s, op).0)
  {
    hide Expected, Fitting, DeclareEnds, Step, NodeOrder, ReleaseOrder, Transferred;
    DeclareResult(x, declared, s, op);
    StepEndpoints(s, op);
    DeclaredKeys(x, declared, s);
    NamesDistinct(op.names, x.decls);
    var nodes' := Step(s, op).0.nodes;
    forall name | name in x.decls
      ensures nodes'[NodeId(x.p, Named(name))] == Expected(x, NodeId(x.p, Named(name)), true, s.endpoints)
    {
      var i :| 0 <= i < |op.names| && op.names[i].0 == name;
      DeclaredNode(x, declared, s, name, op.names[i].1);
    }
    forall id | id in nodes' && id !in DeclaredIds(x)
      ensures nodes'[id] == if Own(x, id) then Expected(x, id, true, s.endpoints) else NodeAt(x.s.nodes, id)
    {
      assert nodes'[id] == s.nodes[id];
    }
  }

  lemma StepEndpoints(s: Disc, op: Op)
    requires op.Declare?
    ensures Step(s, op).0.endpoints == s.endpoints
  {
  }

  lemma AllCreatable(x: Setting)
    requires Fitting(x)
    ensures forall name | name in x.decls :: x.decls[name].creatable
  {
  }

  // ---- Runs -------------------------------------------------------------------------------

  /** A step of learning about the participant: one of its endpoints, its declaration, or a resolution. */
  predicate Learning(x: Setting, op: Op) {
    match op
    case AddEndpoint(e, _) => e.participant == x.p
    case Declare(p, decls, _, _, _) => p == x.p && decls == x.decls
    case Resolve(_) => true
    case _ => false
  }

  predicate Declares(ops: seq<Op>) {
    exists op | op in ops :: op.Declare?
  }

  function Added(ops: seq<Op>): set<Entity> {
    set op | op in ops && op.AddEndpoint? :: op.e
  }

  function AddedEnds(ops: seq<Op>): set<End> {
    set e | e in Added(ops) :: e.end
  }

  lemma StepReached(x: Setting, declared: bool, s: Disc, op: Op)
    requires Fitting(x) && Reached(x, declared, s) && Coherent(x.env, s) && Legal(s, op) && Admissible(x.env, op)
    requires Learning(x, op) && forall end :: x.env.identity(end).end == end
    ensures var s' := Step(s, op).0;
            Reached(x, declared || op.Declare?, s') && Coherent(x.env, s')
            && s'.endpoints.Keys == s.endpoints.Keys + AddedEnds([op])
  {
    hide Fitting, Reached, Coherent, Legal;
    StepCoherent(x.env, s, op);
    CoherentEnds(x.env, s);
    AddedOne(op);
    match op
    case AddEndpoint(e, ids) => ReachedByAdd(x, declared, s, e, ids);
    case Declare(_, _, _, _, _) => ReachedByDeclare(x, declared, s, op);
    case Resolve(pending) => ResolveFindsNothing(x.env, s, pending);
  }

  lemma {:induction false} RunReached(x: Setting, declared: bool, s: Disc, ops: seq<Op>)
    requires Fitting(x) && Reached(x, declared, s) && Coherent(x.env, s) && AdmissibleRun(x.env, s, ops)
    requires forall op | op in ops :: Learning(x, op)
    ensures var s' := Run(s, ops).0;
            Reached(x, declared || Declares(ops), s') && Coherent(x.env, s')
            && s'.endpoints.Keys == s.endpoints.Keys + AddedEnds(ops)
    decreases ops
  {
    hide Fitting, Reached, Coherent, Legal, Step, Learning, Admissible;
    if ops != [] {
      var op := ops[0];
      assert op in ops && ops == [op] + ops[1..];
      StepReached(x, declared, s, op);
      assert Declares(ops) <==> op.Declare? || Declares(ops[1..]);
      assert Added(ops) == Added([op]) + Added(ops[1..]);
      RunReached(x, declared || op.Declare?, Step(s, op).0, ops[1..]);
    }
  }

  lemma AddedOne(op: Op)
    ensures Added([op]) == if op.AddEndpoint? then {op.e} else {}
  {
  }

  lemma CoherentEnds(env: Env, s: Disc)
    requires Coherent(env, s)
    ensures EndsIdentified(env, s.endpoints)
  {
  }

  lemma {:induction false} AdmissibleLegal(env: Env, s: Disc, ops: seq<Op>)
    requires AdmissibleRun(env, s, ops)
    ensures LegalRun(s, ops)
    decreases ops
  {
    hide Legal, Step;
    if ops != [] {
      AdmissibleLegal(env, Step(s, ops[0]).0, ops[1..]);
    }
  }

  lemma StartReached(x: Setting)
    requires Fitting(x)
    ensures Reached(x, false, x.s)
  {
    hide Canon, FactsOf, Consistent, Placed, Touches;
    forall id | id in x.s.nodes && Own(x, id) ensures x.s.nodes[id] == Expected(x, id, false, x.s.endpoints) {
      assert NodeCoherent(x.env, x.s.endpoints, id, x.s.nodes[id]);
      assert Wanted(x, id, false) * x.s.endpoints.Keys == {};
      assert x.base(id) + EntitiesAt(x.env, {}) == x.base(id);
      assert Wanted(x, id, false) - x.s.endpoints.Keys == x.s.nodes[id].parked;
    }
  }

  lemma Determined(x: Setting, s: Disc, t: Disc)
    requires Reached(x, true, s) && Reached(x, true, t) && s.endpoints == t.endpoints
    ensures s.nodes == t.nodes
  {
    hide Expected;
  }

  /**
   * Two runs that learn the same endpoints of the participant and its declaration, in any order and
   * with any repetitions, lead to the same nodes and announce the same interfaces.
   */
  lemma Confluent(x: Setting, a: seq<Op>, b: seq<Op>)
    requires Fitting(x) && AdmissibleRun(x.env, x.s, a) && AdmissibleRun(x.env, x.s, b)
    requires forall op | op in a || op in b :: Learning(x, op)
    requires Declares(a) && Declares(b) && Added(a) == Added(b)
    ensures Run(x.s, a).0.nodes == Run(x.s, b).0.nodes
    ensures HearAll(Held(x.s.nodes), Run(x.s, a).1) == HearAll(Held(x.s.nodes), Run(x.s, b).1)
  {
    hide Expected, Reached, Legal, Run, Sound, Placed, Touches;
    StartReached(x);
    FittingSound(x);
    RunReached(x, false, x.s, a);
    RunReached(x, false, x.s, b);
    var s, t := Run(x.s, a).0, Run(x.s, b).0;
    CoherentEnds(x.env, s);
    CoherentEnds(x.env, t);
    assert s.endpoints == t.endpoints;
    Determined(x, s, t);
    AdmissibleLegal(x.env, x.s, a);
    AdmissibleLegal(x.env, x.s, b);
    RunHeard(x.s, a);
    RunHeard(x.s, b);
  }

  lemma FittingSound(x: Setting)
    requires Fitting(x)
    ensures Sound(x.s) && Coherent(x.env, x.s)
  {
  }
}

/**
 * A listener that only folds the events knows exactly the interfaces the nodes hold complete, at
 * every point of every run.
 */
module DiscoveryEvents {
  import opened Wrappers
  import opened Text
  import opened Iteration
  import opened NodeInfo
  import opened Discovery

  type Known = set<(NodeId, Key)>

  function Hear(known: Known, e: Event): Known {
    if e.event.discovered then known + {(e.id, e.event.key)} else known - {(e.id, e.event.key)}
  }

  function HearAll(known: Known, events: seq<Event>): Known
    decreases events
  {
    if events == [] then known else HearAll(Hear(known, events[0]), events[1..])
  }

  predicate Holds(nodes: Nodes, id: NodeId, k: Key) {
    id in nodes && k in nodes[id].ifaces && Complete(k.kind, nodes[id].ifaces[k])
  }

  /** The interfaces held complete, with the node holding each. */
  ghost function Held(nodes: Nodes): Known {
    set id, k | id in nodes && k in nodes[id].ifaces && Holds(nodes, id, k) :: (id, k)
  }

  lemma HearConcat(known: Known, a: seq<Event>, b: seq<Event>)
    ensures HearAll(known, a + b) == HearAll(HearAll(known, a), b)
    decreases a
  {
    if a == [] {
      assert a + b == b;
    } else {
      assert (a + b)[1..] == a[1..] + b;
    }
  }

  ghost function PartOf(known: Known, id: NodeId): set<Key> {
    set x | x in known && x.0 == id :: x.1
  }

  /** The events of one node change what is known of it as `Fold` says, and nothing else. */
  lemma {:induction false} HearTagged(known: Known, id: NodeId, events: seq<NodeEvent>)
    ensures forall x :: x in HearAll(known, Tag(id, events))
                  <==> if x.0 == id then x.1 in Fold(PartOf(known, id), events) else x in known
    decreases events
  {
    if events != [] {
      var known' := Hear(known, Event(id, events[0]));
      assert Tag(id, events)[1..] == Tag(id, events[1..]);
      assert PartOf(known', id)
          == if events[0].discovered then PartOf(known, id) + {events[0].key} else PartOf(known, id) - {events[0].key};
      HearTagged(known', id, events[1..]);
    }
  }

  lemma HearNode(nodes: Nodes, id: NodeId, node: Node, events: seq<NodeEvent>)
    requires Fold(Announced(NodeAt(nodes, id).ifaces), events) == Announced(node.ifaces)
    ensures HearAll(Held(nodes), Tag(id, events)) == Held(nodes[id := node])
  {
    HearTagged(Held(nodes), id, events);
    assert forall k :: (id, k) in Held(nodes) <==> k in Announced(NodeAt(nodes, id).ifaces);
    assert forall k :: k in PartOf(Held(nodes), id) <==> (id, k) in Held(nodes);
    assert PartOf(Held(nodes), id) == Announced(NodeAt(nodes, id).ifaces);
    forall x ensures x in HearAll(Held(nodes), Tag(id, events)) <==> x in Held(nodes[id := node]) {
      assert x in Held(nodes[id := node]) <==> Holds(nodes[id := node], x.0, x.1);
      assert x in Held(nodes) <==> Holds(nodes, x.0, x.1);
    }
  }

  // ---- Each effect on the nodes -----------------------------------------------------------

  ghost predicate ProperEnds(endpoints: map<End, Entity>) {
    forall end | end in endpoints :: endpoints[end].end == end && end.gid != NOT_DISCOVERED
  }

  /** Orphan nodes only publish topics, and park nothing. */
  ghost predicate OrphansPublish(nodes: Nodes) {
    forall id | id in nodes && id.name.Orphan? ::
      nodes[id].parked == {} && forall k | k in nodes[id].ifaces :: k.kind == MsgPub
  }

  lemma {:induction false} HearAddTo(nodes: Nodes, e: Entity, order: seq<NodeId>, hit: set<Gid>)
    requires e.end.gid != NOT_DISCOVERED && OrphansPublish(nodes)
    ensures HearAll(Held(nodes), AddTo(nodes, e, order, hit).1) == Held(AddTo(nodes, e, order, hit).0)
    ensures OrphansPublish(AddTo(nodes, e, order, hit).0)
    decreases order
  {
    if order != [] {
      var id := order[0];
      if id in nodes && e.end in nodes[id].parked && id.participant !in hit {
        var (ifaces, events) := Feed(nodes[id].ifaces, e);
        var node := Node(ifaces, nodes[id].parked - {e.end});
        FeedFold(nodes[id].ifaces, e);
        HearNode(nodes, id, node, events);
        HearAddTo(nodes[id := node], e, order[1..], hit + {id.participant});
      } else {
        HearAddTo(nodes, e, order[1..], hit);
      }
    }
  }

  lemma RemoveKeys(node: Node, end: End, order: seq<Key>)
    ensures Remove(node, end, order).0.ifaces.Keys <= node.ifaces.Keys
    ensures Remove(node, end, order).0.parked <= node.parked
    ensures Remove(node, end, order).1 == [] ==> Remove(node, end, order).0.ifaces.Keys == node.ifaces.Keys
  {
    DropEndpointKeys(node.ifaces, end, order);
  }

  lemma {:induction false} HearRemoveFrom(nodes: Nodes, end: End, order: seq<(NodeId, seq<Key>)>)
    requires OrphansPublish(nodes)
    ensures HearAll(Held(nodes), RemoveFrom(nodes, end, order).1) == Held(RemoveFrom(nodes, end, order).0)
    ensures OrphansPublish(RemoveFrom(nodes, end, order).0)
    decreases order
  {
    if order != [] {
      var (id, keys) := order[0];
      if id in nodes {
        var (node, events) := Remove(nodes[id], end, keys);
        RemoveFold(nodes[id], end, keys);
        RemoveKeys(nodes[id], end, keys);
        HearNode(nodes, id, node, events);
        HearRemoveFrom(nodes[id := node], end, order[1..]);
      } else {
        HearRemoveFrom(nodes, end, order[1..]);
      }
    }
  }

  lemma {:induction false} FoldAllUndiscovered(known: set<Key>, ifaces: Ifaces, order: seq<Key>)
    ensures Fold(known, AllUndiscovered(ifaces, order)) == known - (Elements(order) * ifaces.Keys)
    decreases order
  {
    if order != [] {
      var k := order[0];
      assert order == [k] + order[1..];
      FoldAllUndiscovered(if k in ifaces then known - {k} else known, ifaces, order[1..]);
      if k in ifaces {
        assert AllUndiscovered(ifaces, order) == [NodeEvent(false, k, ifaces[k])] + AllUndiscovered(ifaces, order[1..]);
      } else {
        assert AllUndiscovered(ifaces, order) == AllUndiscovered(ifaces, order[1..]);
      }
    }
  }

  lemma {:induction false} HearCloseAll(nodes: Nodes, order: seq<(NodeId, seq<Key>)>)
    requires forall i | 0 <= i < |order| :: Enumerates(order[i].1, NodeAt(nodes, order[i].0).ifaces.Keys)
    requires forall i, j | 0 <= i < j < |order| :: order[i].0 != order[j].0
    ensures HearAll(Held(nodes), CloseAll(nodes, order).1) == Held(CloseAll(nodes, order).0)
    ensures CloseAll(nodes, order).0 == nodes - (set x | x in order :: x.0)
    decreases order
  {
    if order != [] {
      assert order == [order[0]] + order[1..];
      var (id, keys) := order[0];
      var ifaces := NodeAt(nodes, id).ifaces;
      FoldAllUndiscovered(Announced(ifaces), ifaces, keys);
      HearNode(nodes, id, EMPTY_NODE, AllUndiscovered(ifaces, keys));
      assert Held(nodes[id := EMPTY_NODE]) == Held(nodes - {id});
      HearCloseAll(nodes - {id}, order[1..]);
      HearConcat(Held(nodes), Tag(id, AllUndiscovered(ifaces, keys)), CloseAll(nodes - {id}, order[1..]).1);
    }
  }

  lemma {:induction false} FoldDeclareEnds(node: Node, ends: seq<End>, endpoints: map<End, Entity>)
    requires ProperEnds(endpoints)
    ensures Fold(Announced(node.ifaces), DeclareEnds(node, ends, endpoints).1)
         == Announced(DeclareEnds(node, ends, endpoints).0.ifaces)
    decreases ends
  {
    if ends != [] {
      if ends[0] in endpoints {
        var (ifaces, e1) := Feed(node.ifaces, endpoints[ends[0]]);
        FeedFold(node.ifaces, endpoints[ends[0]]);
        FoldDeclareEnds(node.(ifaces := ifaces), ends[1..], endpoints);
        FoldConcat(Announced(node.ifaces), e1, DeclareEnds(node.(ifaces := ifaces), ends[1..], endpoints).1);
      } else {
        FoldDeclareEnds(node.(parked := node.parked + {ends[0]}), ends[1..], endpoints);
      }
    }
  }

  lemma {:induction false} HearDeclareAll(nodes: Nodes, endpoints: map<End, Entity>, p: Gid,
      names: seq<(string, seq<End>)>)
    requires ProperEnds(endpoints) && OrphansPublish(nodes)
    ensures HearAll(Held(nodes), DeclareAll(nodes, endpoints, p, names).1)
            == Held(DeclareAll(nodes, endpoints, p, names).0)
    ensures OrphansPublish(DeclareAll(nodes, endpoints, p, names).0)
    decreases names
  {
    if names != [] {
      var id := NodeId(p, Named(names[0].0));
      var (node, e1) := DeclareEnds(NodeAt(nodes, id), names[0].1, endpoints);
      FoldDeclareEnds(NodeAt(nodes, id), names[0].1, endpoints);
      HearNode(nodes, id, node, e1);
      HearDeclareAll(nodes[id := node], endpoints, p, names[1..]);
      HearConcat(Held(nodes), Tag(id, e1), DeclareAll(nodes[id := node], endpoints, p, names[1..]).1);
    }
  }

  lemma {:induction false} HearReleaseAll(nodes: Nodes, orphan: NodeId, writers: seq<(Gid, seq<Key>)>)
    requires orphan.name.Orphan? && OrphansPublish(nodes)
    ensures HearAll(Held(nodes), ReleaseAll(nodes, orphan, writers).1) == Held(ReleaseAll(nodes, orphan, writers).0)
    ensures OrphansPublish(ReleaseAll(nodes, orphan, writers).0)
    decreases writers
  {
    if writers != [] && orphan in nodes {
      var (node, e1) := Remove(nodes[orphan], End(Writer, writers[0].0), writers[0].1);
      RemoveFold(nodes[orphan], End(Writer, writers[0].0), writers[0].1);
      RemoveKeys(nodes[orphan], End(Writer, writers[0].0), writers[0].1);
      HearNode(nodes, orphan, node, e1);
      var next := if Publishes(node) then nodes[orphan := node] else nodes - {orphan};
      assert Held(next) == Held(nodes[orphan := node]);
      HearReleaseAll(next, orphan, writers[1..]);
      HearConcat(Held(nodes), Tag(orphan, e1), ReleaseAll(next, orphan, writers[1..]).1);
    }
  }

  lemma EntitiesProper(ends: seq<End>, endpoints: map<End, Entity>)
    requires ProperEnds(endpoints)
    ensures forall e | e in EntitiesOf(ends, endpoints) :: e.end.gid != NOT_DISCOVERED && e.end in ends
  {
  }

  lemma {:induction false} HearResolveAll(nodes: Nodes, endpoints: map<End, Entity>, order: seq<(NodeId, seq<End>)>)
    requires ProperEnds(endpoints) && OrphansPublish(nodes)
    requires forall i | 0 <= i < |order| && order[i].0.name.Orphan? :: order[i].1 == []
    ensures HearAll(Held(nodes), ResolveAll(nodes, endpoints, order).1) == Held(ResolveAll(nodes, endpoints, order).0)
    ensures OrphansPublish(ResolveAll(nodes, endpoints, order).0)
    decreases order
  {
    if order != [] {
      var (id, ends) := order[0];
      if id in nodes {
        var (ifaces, e1) := FeedAll(nodes[id].ifaces, EntitiesOf(ends, endpoints));
        var node := Node(ifaces, nodes[id].parked - Elements(ends));
        EntitiesProper(ends, endpoints);
        FeedAllFold(nodes[id].ifaces, EntitiesOf(ends, endpoints));
        HearNode(nodes, id, node, e1);
        HearResolveAll(nodes[id := node], endpoints, order[1..]);
        HearConcat(Held(nodes), Tag(id, e1), ResolveAll(nodes[id := node], endpoints, order[1..]).1);
      } else {
        HearResolveAll(nodes, endpoints, order[1..]);
      }
    }
  }

  lemma SuffixContained(s: string, suffix: string, t: string)
    requires StartsWith(suffix, t)
    ensures EndsWith(s, suffix) ==> Contains(s, t)
  {
  }

  lemma DropContains(s: string, n: nat, t: string)
    requires n <= |s|
    ensures Contains(s[n..], t) ==> Contains(s, t)
  {
  }

  /** A Writer the sweep may claim publishes a plain topic. */
  lemma ClassifyOrphan(e: Entity)
    requires e.end.side.Writer? && OrphanTopic(e.topic)
    ensures Classify(e) == Some(Use(Key(MsgPub, e.topic[2..]), Endpoint, Some(MessageType(e.typ))))
    ensures ValidRosName(e.topic[2..])
  {
    var name := e.topic[2..];
    MatchedSuffix(name, Patterns("rt/"));
    assert e.topic[..3] == "rt/" && e.topic[2] == '/';
    DropContains(e.topic, 2, "/_action/");
    forall p | p in Patterns("rt/") ensures !EndsWith(name, p.suffix) {
      SuffixContained(name, p.suffix, "/_action/");
    }
  }

  lemma {:induction false} HearClaimAll(nodes: Nodes, writers: seq<Entity>)
    requires OrphansPublish(nodes)
    requires forall e | e in writers :: e.end.side.Writer? && e.end.gid != NOT_DISCOVERED && OrphanTopic(e.topic)
    ensures HearAll(Held(nodes), ClaimAll(nodes, writers).1) == Held(ClaimAll(nodes, writers).0)
    ensures OrphansPublish(ClaimAll(nodes, writers).0)
    decreases writers
  {
    hide OrphanTopic;
    if writers != [] {
      var e := writers[0];
      var id := NodeId(e.participant, Orphan);
      ClassifyOrphan(e);
      var (ifaces, e1) := Feed(NodeAt(nodes, id).ifaces, e);
      FeedFold(NodeAt(nodes, id).ifaces, e);
      var nodes' := nodes[id := NodeAt(nodes, id).(ifaces := ifaces)];
      HearNode(nodes, id, nodes'[id], e1);
      HearClaimAll(nodes', writers[1..]);
      HearConcat(Held(nodes), Tag(id, e1), ClaimAll(nodes', writers[1..]).1);
    }
  }

  // ---- Steps and runs ---------------------------------------------------------------------

  ghost predicate Sound(s: Disc) {
    ProperEnds(s.endpoints) && OrphansPublish(s.nodes)
  }

  lemma DueWritersKnown(s: Disc, now: int, grace: nat, order: seq<Gid>)
    requires ProperEnds(s.endpoints)
    ensures forall e | e in DueWriters(s, now, grace, order) ::
              e.end.side.Writer? && e.end.gid in order && End(Writer, e.end.gid) in s.endpoints
              && e == s.endpoints[End(Writer, e.end.gid)] && Due(s, e.end.gid, now, grace)
  {
  }

  lemma OrderDistinct<B>(order: seq<(NodeId, B)>, ids: set<NodeId>)
    requires Enumerates(Firsts(order), ids)
    ensures forall i, j | 0 <= i < j < |order| :: order[i].0 != order[j].0
    ensures (set x | x in order :: x.0) == ids
  {
  }

  /** One step: what its events say is what it did to the nodes. */
  lemma StepHeard(s: Disc, op: Op)
    requires Sound(s) && Legal(s, op) && (op.AddEndpoint? ==> op.e.end.gid != NOT_DISCOVERED)
    ensures HearAll(Held(s.nodes), Step(s, op).1) == Held(Step(s, op).0.nodes)
    ensures Sound(Step(s, op).0)
  {
    match op
    case AddParticipant(p) =>
    case RemoveParticipant(p, order) =>
      OrderDistinct(order, Ids(s.nodes, p));
      HearCloseAll(s.nodes, order);
    case AddEndpoint(e, ids) =>
      HearAddTo(s.nodes, e, ids, {});
    case RemoveEndpoint(end, order) =>
      HearRemoveFrom(s.nodes, end, order);
    case Declare(p, decls, order, names, released) =>
      OrderDistinct(order, Gone(s.nodes, p, decls));
      HearCloseAll(s.nodes, order);
      var (closed, declared, freed) := DeclareParts(s, op);
      HearDeclareAll(closed.0, s.endpoints, p, Admitted(closed.0, p, decls, names));
      HearReleaseAll(declared.0, NodeId(p, Orphan), released);
      HearConcat(Held(s.nodes), closed.1, declared.1);
      HearConcat(Held(s.nodes), closed.1 + declared.1, freed.1);
    case Resolve(pending) =>
      forall i | 0 <= i < |pending| && pending[i].0.name.Orphan? ensures pending[i].1 == [] {
        EnumerateEmpty(pending[i].1, s.nodes[pending[i].0].parked * s.endpoints.Keys);
      }
      HearResolveAll(s.nodes, s.endpoints, pending);
    case Sweep(now, grace, gids) =>
      DueWritersKnown(s, now, grace, gids);
      HearClaimAll(s.nodes, DueWriters(s, now, grace, gids));
  }

  lemma {:induction false} RunHeard(s: Disc, ops: seq<Op>)
    requires Sound(s) && LegalRun(s, ops)
    ensures HearAll(Held(s.nodes), Run(s, ops).1) == Held(Run(s, ops).0.nodes)
    ensures Sound(Run(s, ops).0)
    decreases ops
  {
    if ops != [] {
      StepHeard(s, ops[0]);
      RunHeard(Step(s, ops[0]).0, ops[1..]);
      HearConcat(Held(s.nodes), Step(s, ops[0]).1, Run(Step(s, ops[0]).0, ops[1..]).1);
    }
  }

  /**
   * Whatever happened since the start, folding all events gives exactly the interfaces the nodes hold
   * complete: no event is lost, and undiscovering what was never complete does no harm.
   */
  lemma EventsTellAll(ops: seq<Op>)
    requires LegalRun(INITIAL, ops)
    ensures HearAll({}, Run(INITIAL, ops).1) == Held(Run(INITIAL, ops).0.nodes)
  {
    assert Held(INITIAL.nodes) == {};
    RunHeard(INITIAL, ops);
  }
}

/**
 * Ownership moves from a participant's orphan node to the node declaring a Writer without a gap: the
 * topic has a node at every prefix of the events of `update_participant_info`.
 */
module DiscoveryTransfer {
  import opened Wrappers
  import opened Iteration
  import opened NodeInfo
  import opened Discovery
  import opened DiscoveryEvents
  import opened DiscoveryRefs

  /** Some node of `p` is known to publish on `k`. */
  ghost predicate Served(p: Gid, k: Key, known: Known) {
    exists x | x in known :: x.0.participant == p && x.1 == k
  }

  predicate Takes(e: Event, id: NodeId, k: Key) {
    e.id == id && e.event.key == k && !e.event.discovered
  }

  lemma {:induction false} StaysKnown(known: Known, events: seq<Event>, id: NodeId, k: Key)
    requires (id, k) in known && forall e | e in events :: !Takes(e, id, k)
    ensures (id, k) in HearAll(known, events)
    decreases events
  {
    if events != [] {
      assert !Takes(events[0], id, k);
      StaysKnown(Hear(known, events[0]), events[1..], id, k);
    }
  }

  lemma {:induction false} CloseAllIds(nodes: Nodes, order: seq<(NodeId, seq<Key>)>)
    ensures forall e | e in CloseAll(nodes, order).1 :: exists x | x in order :: x.0 == e.id
    decreases order
  {
    if order != [] {
      var (id, keys) := order[0];
      assert order[0].0 == id && order[0] in order;
      TagOf(id, AllUndiscovered(NodeAt(nodes, id).ifaces, keys));
      CloseAllIds(nodes - {id}, order[1..]);
    }
  }

  lemma {:induction false} ReleaseAllIds(nodes: Nodes, orphan: NodeId, writers: seq<(Gid, seq<Key>)>)
    ensures forall e | e in ReleaseAll(nodes, orphan, writers).1 :: e.id == orphan
    decreases writers
  {
    if writers != [] && orphan in nodes {
      var (node, events) := Remove(nodes[orphan], End(Writer, writers[0].0), writers[0].1);
      TagOf(orphan, events);
      ReleaseAllIds(if Publishes(node) then nodes[orphan := node] else nodes - {orphan}, orphan, writers[1..]);
    }
  }

  lemma {:induction false} DeclareEndsDiscovers(node: Node, ends: seq<End>, endpoints: map<End, Entity>)
    ensures forall v | v in DeclareEnds(node, ends, endpoints).1 :: v.discovered
    decreases ends
  {
    hide Update, Classify;
    if ends != [] {
      if ends[0] in endpoints {
        DeclareEndsDiscovers(node.(ifaces := Feed(node.ifaces, endpoints[ends[0]]).0), ends[1..], endpoints);
      } else {
        DeclareEndsDiscovers(node.(parked := node.parked + {ends[0]}), ends[1..], endpoints);
      }
    }
  }

  lemma {:induction false} TagHas(id: NodeId, events: seq<NodeEvent>)
    ensures forall v | v in Tag(id, events) :: v.event in events
  {
    if events != [] {
      TagHas(id, events[1..]);
    }
  }

  lemma {:induction false} DeclareAllDiscovers(nodes: Nodes, endpoints: map<End, Entity>, p: Gid,
      names: seq<(string, seq<End>)>)
    ensures forall e | e in DeclareAll(nodes, endpoints, p, names).1 :: e.event.discovered
    decreases names
  {
    hide DeclareEnds;
    if names != [] {
      var id := NodeId(p, Named(names[0].0));
      var (node, events) := DeclareEnds(NodeAt(nodes, id), names[0].1, endpoints);
      DeclareEndsDiscovers(NodeAt(nodes, id), names[0].1, endpoints);
      TagHas(id, events);
      DeclareAllDiscovers(nodes[id := node], endpoints, p, names[1..]);
    }
  }

  // ---- The declaring node has the topic ---------------------------------------------------

  lemma FeedHas(ifaces: Ifaces, e: Entity)
    requires Classify(e).Some? && ValidRosName(Classify(e).value.key.name)
    ensures Classify(e).value.key in Feed(ifaces, e).0
  {
    hide Classify;
  }

  lemma FeedKeeps(ifaces: Ifaces, e: Entity)
    ensures ifaces.Keys <= Feed(ifaces, e).0.Keys
  {
    hide Classify;
  }

  lemma {:induction false} DeclareEndsHas(node: Node, ends: seq<End>, endpoints: map<End, Entity>, k: Key)
    requires k in node.ifaces
             || exists end | end in ends && end in endpoints ::
                  Classify(endpoints[end]).Some? && Classify(endpoints[end]).value.key == k && ValidRosName(k.name)
    ensures k in DeclareEnds(node, ends, endpoints).0.ifaces
    decreases ends
  {
    hide Classify, Feed;
    if ends != [] {
      assert ends == [ends[0]] + ends[1..];
      if ends[0] in endpoints {
        var e := endpoints[ends[0]];
        FeedKeeps(node.ifaces, e);
        if Classify(e).Some? && Classify(e).value.key == k && ValidRosName(k.name) {
          FeedHas(node.ifaces, e);
        }
        DeclareEndsHas(node.(ifaces := Feed(node.ifaces, e).0), ends[1..], endpoints, k);
      } else {
        DeclareEndsHas(node.(parked := node.parked + {ends[0]}), ends[1..], endpoints, k);
      }
    }
  }

  lemma {:induction false} DeclareAllHas(nodes: Nodes, endpoints: map<End, Entity>, p: Gid,
      names: seq<(string, seq<End>)>, id: NodeId, k: Key)
    requires id.participant == p && id.name.Named?
    requires k in NodeAt(nodes, id).ifaces
             || exists i, end | 0 <= i < |names| && names[i].0 == id.name.fullname && end in names[i].1
                 && end in endpoints ::
                  Classify(endpoints[end]).Some? && Classify(endpoints[end]).value.key == k && ValidRosName(k.name)
    ensures k in NodeAt(DeclareAll(nodes, endpoints, p, names).0, id).ifaces
    decreases names
  {
    hide Classify, DeclareEnds;
    if names != [] {
      var id0 := NodeId(p, Named(names[0].0));
      var node := DeclareEnds(NodeAt(nodes, id0), names[0].1, endpoints).0;
      if k in NodeAt(nodes, id).ifaces {
        if id0 == id {
          DeclareEndsHas(NodeAt(nodes, id), names[0].1, endpoints, k);
        }
      } else {
        var i, end :| 0 <= i < |names| && names[i].0 == id.name.fullname && end in names[i].1 && end in endpoints
                      && Classify(endpoints[end]).Some? && Classify(endpoints[end]).value.key == k
                      && ValidRosName(k.name);
        if i == 0 {
          DeclareEndsHas(NodeAt(nodes, id), names[0].1, endpoints, k);
        } else {
          assert names[1..][i - 1] == names[i];
        }
      }
      DeclareAllHas(nodes[id0 := node], endpoints, p, names[1..], id, k);
    }
  }

  // ---- The orphan node keeps what is not transferred --------------------------------------

  lemma {:induction false} DropKeeps(ifaces: Ifaces, end: End, order: seq<Key>, k: Key)
    requires k in ifaces && !UsesAt(k, ifaces[k], end)
    ensures k in DropEndpoint(ifaces, end, order).0 && DropEndpoint(ifaces, end, order).0[k] == ifaces[k]
    ensures DropEndpoint(ifaces, end, order).1 != Some(k)
    decreases order
  {
    if order != [] {
      var j := order[0];
      if j in ifaces && j.kind == TopicKind(end.side) && end.gid in ifaces[j].endpoints {
        DropKeeps(ifaces[j := ifaces[j].(endpoints := ifaces[j].endpoints - {end.gid})], end, order[1..], k);
      } else {
        DropKeeps(ifaces, end, order[1..], k);
      }
    }
  }

  lemma {:induction false} FirstFilledFills(ifaces: Ifaces, end: End, order: seq<Key>)
    ensures var r := FirstFilled(ifaces, end, order);
            r.Some? ==> r.value in ifaces && Fills(r.value, ifaces[r.value], end)
    decreases order
  {
    if order != [] {
      FirstFilledFills(ifaces, end, order[1..]);
    }
  }

  lemma RemoveKeeps(node: Node, end: End, order: seq<Key>, k: Key)
    requires k in node.ifaces && !UsesAt(k, node.ifaces[k], end)
    ensures var (node', events) := Remove(node, end, order);
            k in node'.ifaces && node'.ifaces[k] == node.ifaces[k] && forall v | v in events :: v.key != k
  {
    DropKeeps(node.ifaces, end, order, k);
    FirstFilledFills(DropEndpoint(node.ifaces, end, order).0, end, order);
  }

  lemma {:induction false} ReleaseKeeps(nodes: Nodes, orphan: NodeId, writers: seq<(Gid, seq<Key>)>, k: Key)
    requires orphan in nodes && k in nodes[orphan].ifaces && k.kind == MsgPub && nodes[orphan].ifaces[k].slots == map[]
    requires forall i | 0 <= i < |writers| :: writers[i].0 !in nodes[orphan].ifaces[k].endpoints
    ensures forall e | e in ReleaseAll(nodes, orphan, writers).1 :: e.event.key != k
    decreases writers
  {
    hide Remove;
    if writers != [] {
      var end := End(Writer, writers[0].0);
      RemoveKeeps(nodes[orphan], end, writers[0].1, k);
      var (node, events) := Remove(nodes[orphan], end, writers[0].1);
      TagHas(orphan, events);
      assert Publishes(node);
      assert forall i | 1 <= i < |writers| :: writers[i] == writers[1..][i - 1];
      ReleaseKeeps(nodes[orphan := node], orphan, writers[1..], k);
    }
  }

  // ---- The theorem ------------------------------------------------------------------------

  lemma TopicName(e: Entity)
    requires Classify(e).Some? && Classify(e).value.role == Endpoint
    ensures ValidRosName(Classify(e).value.key.name)
  {
    MatchedSuffix(e.topic[2..], Patterns(e.topic[..3]));
    assert e.topic[..3] == "rt/" ==> e.topic[2] == '/';
  }

  /** A Writer of the orphan node's topic that a node declares makes that node publish on the topic. */
  lemma TransferPublishes(env: Env, s: Disc, closed: Nodes, p: Gid, names: seq<(string, seq<End>)>, k: Key, w: Gid)
    requires Coherent(env, s) && NodeId(p, Orphan) in s.nodes && k in s.nodes[NodeId(p, Orphan)].ifaces
    requires w in s.nodes[NodeId(p, Orphan)].ifaces[k].endpoints && w in Transferred(OrphanOwned(closed, p), names)
    ensures exists id: NodeId ::
              id.participant == p && id.name.Named? && Holds(DeclareAll(closed, s.endpoints, p, names).0, id, k)
  {
    hide Classify, Touches, DeclareAll, AdminExact, Exclusive;
    var orphan, end := NodeId(p, Orphan), End(Writer, w);
    assert NodeCoherent(env, s.endpoints, orphan, s.nodes[orphan]);
    TransferredHave(OrphanOwned(closed, p), names, w);
    var j :| 0 <= j < |names| && end in names[j].1;
    assert IfacePlaced(k, s.nodes[orphan].ifaces[k], s.endpoints);
    assert Backed(s.endpoints, End(SideOf(k.kind, Endpoint), w), k, Endpoint);
    TopicName(s.endpoints[end]);
    DeclareAllHas(closed, s.endpoints, p, names, NodeId(p, Named(names[j].0)), k);
    assert Holds(DeclareAll(closed, s.endpoints, p, names).0, NodeId(p, Named(names[j].0)), k);
  }

  /**
   * Either a declared node publishes on the topic before the orphan node gives anything up, or
   * nothing of the topic is given up.
   */
  lemma TransferOrKeep(env: Env, s: Disc, op: Op, k: Key)
    requires Coherent(env, s) && op.Declare? && Legal(s, op) && Admissible(env, op)
    requires var orphan := NodeId(op.p, Orphan); orphan in s.nodes && k in s.nodes[orphan].ifaces
    ensures var (_, declared, released) := DeclareParts(s, op);
            (exists id: NodeId :: id.participant == op.p && id.name.Named? && Holds(declared.0, id, k))
            || forall e | e in released.1 :: e.event.key != k
  {
    hide Classify, Touches, DeclareAll, AdminExact, Exclusive, Holds, Transferred, OrphanOwned, Placed, ReleaseAll;
    var p, orphan := op.p, NodeId(op.p, Orphan);
    OrderDistinct(op.order, Gone(s.nodes, p, op.decls));
    CloseAllEffect(s.nodes, op.order);
    var (closed, declared, released) := DeclareParts(s, op);
    var names := Admitted(closed.0, p, op.decls, op.names);
    DeclaredOrphan(closed.0, s.endpoints, p, names);
    assert declared.0[orphan] == s.nodes[orphan];
    if i :| 0 <= i < |op.released| && op.released[i].0 in s.nodes[orphan].ifaces[k].endpoints {
      assert Firsts(op.released)[i] == op.released[i].0;
      TransferPublishes(env, s, closed.0, p, names, k, op.released[i].0);
    } else {
      assert NodeCoherent(env, s.endpoints, orphan, s.nodes[orphan]);
      PlacedTopic(s.nodes[orphan].ifaces, k, s.endpoints);
      ReleaseKeeps(declared.0, orphan, op.released, k);
    }
  }

  lemma PlacedTopic(ifaces: Ifaces, k: Key, endpoints: map<End, Entity>)
    requires Placed(ifaces, endpoints) && k in ifaces && IsTopic(k.kind)
    ensures ifaces[k].slots == map[]
  {
    hide Classify;
    var iface := ifaces[k];
    assert IfacePlaced(k, iface, endpoints);
    forall r | r in iface.slots ensures false {
      ClassifiedRole(endpoints[End(SideOf(k.kind, r), iface.slots[r])]);
    }
  }

  lemma {:induction false} DeclaredOrphan(nodes: Nodes, endpoints: map<End, Entity>, p: Gid,
      names: seq<(string, seq<End>)>)
    ensures var nodes' := DeclareAll(nodes, endpoints, p, names).0;
            forall id: NodeId | id.name.Orphan? :: (id in nodes' <==> id in nodes)
                && NodeAt(nodes', id) == NodeAt(nodes, id)
    decreases names
  {
    hide DeclareEnds;
    if names != [] {
      var id := NodeId(p, Named(names[0].0));
      DeclaredOrphan(nodes[id := DeclareEnds(NodeAt(nodes, id), names[0].1, endpoints).0], endpoints, p, names[1..]);
    }
  }

  lemma CoherentSound(env: Env, s: Disc)
    requires Coherent(env, s)
    ensures Sound(s)
  {
  }

  /**
   * A topic the orphan node of `p` publishes on has a publishing node of `p` after every prefix of the
   * events of a declaration by `p`.
   */
  lemma NeverUnserved(env: Env, s: Disc, op: Op, k: Key, n: nat)
    requires Coherent(env, s) && op.Declare? && Legal(s, op) && Admissible(env, op)
    requires var orphan := NodeId(op.p, Orphan); orphan in s.nodes && k in s.nodes[orphan].ifaces
    requires n <= |Step(s, op).1|
    ensures Served(op.p, k, HearAll(Held(s.nodes), Step(s, op).1[..n]))
  {
    hide Coherent, NameOrder, ReleaseOrder, CloseAll, DeclareAll, ReleaseAll, Admitted, Transferred, OrphanOwned;
    var orphan := NodeId(op.p, Orphan);
    var (closed, declared, released) := DeclareParts(s, op);
    CoherentSound(env, s);
    assert Holds(s.nodes, orphan, k) by { OrphanTopicHeld(env, s, op.p, k); }
    assert (orphan, k) in Held(s.nodes);
    KeepsOrphan(s, op, k);
    var first := closed.1 + declared.1;
    if n <= |first| {
      assert (first + released.1)[..n] == first[..n];
      StaysKnown(Held(s.nodes), first[..n], orphan, k);
    } else {
      var m := n - |first|;
      assert (first + released.1)[..n] == first + released.1[..m];
      HearConcat(Held(s.nodes), first, released.1[..m]);
      HeardSoFar(s, op);
      TransferOrKeep(env, s, op, k);
      ReleaseAllIds(declared.0, orphan, op.released);
      if id: NodeId :| id.participant == op.p && id.name.Named? && Holds(declared.0, id, k) {
        assert (id, k) in Held(declared.0);
        StaysKnown(Held(declared.0), released.1[..m], id, k);
      } else {
        StaysKnown(Held(s.nodes), first, orphan, k);
        StaysKnown(Held(declared.0), released.1[..m], orphan, k);
      }
    }
  }

  lemma OrphanTopicHeld(env: Env, s: Disc, p: Gid, k: Key)
    requires Coherent(env, s)
    requires var orphan := NodeId(p, Orphan); orphan in s.nodes && k in s.nodes[orphan].ifaces
    ensures Holds(s.nodes, NodeId(p, Orphan), k)
  {
  }

  lemma KeepsOrphan(s: Disc, op: Op, k: Key)
    requires op.Declare? && Legal(s, op)
    ensures var (closed, declared, _) := DeclareParts(s, op);
            forall e | e in closed.1 + declared.1 :: !Takes(e, NodeId(op.p, Orphan), k)
  {
    OrderDistinct(op.order, Gone(s.nodes, op.p, op.decls));
    CloseAllIds(s.nodes, op.order);
    var closed := DeclareParts(s, op).0;
    forall e | e in closed.1 ensures e.id != NodeId(op.p, Orphan) {
      var x :| x in op.order && x.0 == e.id;
      assert x.0 in Gone(s.nodes, op.p, op.decls);
    }
    DeclareAllDiscovers(closed.0, s.endpoints, op.p, Admitted(closed.0, op.p, op.decls, op.names));
  }

  lemma HeardSoFar(s: Disc, op: Op)
    requires Sound(s) && op.Declare? && Legal(s, op)
    ensures var (closed, declared, _) := DeclareParts(s, op);
            HearAll(Held(s.nodes), closed.1 + declared.1) == Held(declared.0)
  {
    OrderDistinct(op.order, Gone(s.nodes, op.p, op.decls));
    HearCloseAll(s.nodes, op.order);
    var (closed, declared, _) := DeclareParts(s, op);
    HearDeclareAll(closed.0, s.endpoints, op.p, Admitted(closed.0, op.p, op.decls, op.names));
    HearConcat(Held(s.nodes), closed.1, declared.1);
  }
}

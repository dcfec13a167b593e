/**
 * The grace period of undeclared Writers: what the sweeps of a run claim, and that sweeping without
 * grace leaves nothing for the next sweep to announce.
 */
module DiscoveryGrace {
  import opened Wrappers
  import opened Text
  import opened Iteration
  import opened NodeInfo
  import opened Discovery
  import opened DiscoveryEvents

  function StateAt(ops: seq<Op>, n: nat): Disc
    requires n <= |ops|
  {
    Run(INITIAL, ops[..n]).0
  }

  lemma {:induction false} RunSnoc(s: Disc, ops: seq<Op>, op: Op)
    ensures Run(s, ops + [op]).0 == Step(Run(s, ops).0, op).0
    decreases ops
  {
    hide Step;
    if ops == [] {
      assert [] + [op] == [op] && [op][1..] == [];
    } else {
      assert (ops + [op])[1..] == ops[1..] + [op];
      RunSnoc(Step(s, ops[0]).0, ops[1..], op);
    }
  }

  lemma StateStart(ops: seq<Op>)
    ensures StateAt(ops, 0) == INITIAL
  {
  }

  lemma StateNext(ops: seq<Op>, n: nat)
    requires n < |ops|
    ensures StateAt(ops, n + 1) == Step(StateAt(ops, n), ops[n]).0
  {
    hide Step;
    assert ops[..n + 1] == ops[..n] + [ops[n]];
    RunSnoc(INITIAL, ops[..n], ops[n]);
  }

  /**
   * A Writer waits from the sweep `m` to the sweep `n`: every sweep met it undeclared and, before `n`, still in
   * its grace period, and its participant did not depart.
   */
  ghost predicate Waited(ops: seq<Op>, m: nat, n: nat, g: Gid) {
    m <= n < |ops| && ops[m].Sweep? && ops[n].Sweep? && Candidate(StateAt(ops, n), g) && WaitsOn(ops, m, n, g)
  }

  ghost predicate WaitsOn(ops: seq<Op>, m: nat, n: nat, g: Gid) {
    n <= |ops| && forall i | m <= i < n :: StillWaits(StateAt(ops, i), ops[i], g)
  }

  predicate StillWaits(s: Disc, op: Op, g: Gid) {
    if op.Sweep? then Candidate(s, g) && !Due(s, g, op.now, op.grace)
    else op.RemoveParticipant? && End(Writer, g) in s.endpoints ==> s.endpoints[End(Writer, g)].participant != op.p
  }

  /** A first-seen time is the time of a sweep since which the Writer has been waiting. */
  lemma {:induction false} FirstSeenTells(ops: seq<Op>, n: nat, g: Gid) returns (m: nat)
    requires n <= |ops| && g in StateAt(ops, n).firstSeen
    ensures m < n && ops[m].Sweep? && WaitsOn(ops, m, n, g) && ops[m].now == StateAt(ops, n).firstSeen[g]
  {
    StateStart(ops);
    hide Step, StateAt, StillWaits;
    var s, op := StateAt(ops, n - 1), ops[n - 1];
    StateNext(ops, n - 1);
    FirstSeenStep(s, op, g);
    if op.Sweep? && g !in s.firstSeen {
      m := n - 1;
    } else {
      m := FirstSeenTells(ops, n - 1, g);
    }
  }

  lemma FirstSeenStep(s: Disc, op: Op, g: Gid)
    ensures g in Step(s, op).0.firstSeen <==>
              StillWaits(s, op, g) && (op.Sweep? || g in s.firstSeen)
    ensures g in Step(s, op).0.firstSeen ==>
              Step(s, op).0.firstSeen[g] == if op.Sweep? then FirstSeen(s, g, op.now) else s.firstSeen[g]
  {
    hide OrphanTopic, Claimed, Due;
  }

  /** Time passes from sweep to sweep. */
  ghost predicate ClockForward(ops: seq<Op>) {
    forall i, j | 0 <= i < j < |ops| && ops[i].Sweep? && ops[j].Sweep? :: ops[i].now <= ops[j].now
  }

  /** A Writer that waits since a sweep was first seen then or before. */
  lemma {:induction false} WaitingIsSeen(ops: seq<Op>, m: nat, n: nat, g: Gid)
    requires ClockForward(ops) && m < n <= |ops| && ops[m].Sweep? && WaitsOn(ops, m, n, g)
    ensures g in StateAt(ops, n).firstSeen && StateAt(ops, n).firstSeen[g] <= ops[m].now
    decreases n
  {
    hide Step, StateAt, StillWaits;
    StateNext(ops, n - 1);
    FirstSeenStep(StateAt(ops, n - 1), ops[n - 1], g);
    if m < n - 1 {
      WaitingIsSeen(ops, m, n - 1, g);
    } else if g in StateAt(ops, m).firstSeen {
      var before := FirstSeenTells(ops, m, g);
    }
  }

  /** What a sweep claims has waited for at least the grace period, even if the clock went back. */
  lemma ClaimedAfterGrace(ops: seq<Op>, n: nat, e: Entity) returns (m: nat)
    requires LegalRun(INITIAL, ops) && n < |ops| && ops[n].Sweep?
    requires e in DueWriters(StateAt(ops, n), ops[n].now, ops[n].grace, ops[n].gids)
    ensures Waited(ops, m, n, e.end.gid) && Elapsed(ops[m].now, ops[n].now) >= ops[n].grace
  {
    hide Candidate, OrphanTopic;
    var s, op := StateAt(ops, n), ops[n];
    LegalAt(INITIAL, ops, n);
    DueWritersKnown(s, op.now, op.grace, op.gids);
    assert e.end.gid in Candidates(s);
    if e.end.gid in s.firstSeen {
      m := FirstSeenTells(ops, n, e.end.gid);
    } else {
      m := n;
    }
  }

  /** The grace period of a candidate is over iff it has waited that long. */
  lemma DueIffWaited(ops: seq<Op>, n: nat, g: Gid)
    requires ClockForward(ops) && n < |ops| && ops[n].Sweep? && Candidate(StateAt(ops, n), g)
    ensures Due(StateAt(ops, n), g, ops[n].now, ops[n].grace)
       <==> exists m: nat :: Waited(ops, m, n, g) && Elapsed(ops[m].now, ops[n].now) >= ops[n].grace
  {
    hide Candidate, OrphanTopic;
    var s := StateAt(ops, n);
    if Due(s, g, ops[n].now, ops[n].grace) {
      var m := n;
      if g in s.firstSeen {
        m := FirstSeenTells(ops, n, g);
      }
      assert Waited(ops, m, n, g);
    }
    if m: nat :| Waited(ops, m, n, g) && Elapsed(ops[m].now, ops[n].now) >= ops[n].grace {
      if m < n {
        WaitingIsSeen(ops, m, n, g);
      }
    }
  }

  lemma {:induction false} LegalAt(s: Disc, ops: seq<Op>, n: nat)
    requires Sound(s) && LegalRun(s, ops) && n < |ops|
    ensures Sound(Run(s, ops[..n]).0) && Legal(Run(s, ops[..n]).0, ops[n])
    decreases n
  {
    hide Step, Legal, Sound;
    if n > 0 {
      StepHeard(s, ops[0]);
      assert ops[..n][1..] == ops[1..][..n - 1];
      LegalAt(Step(s, ops[0]).0, ops[1..], n - 1);
    }
  }

  // ---- Sweeping without grace -------------------------------------------------------------

  predicate Orphanable(e: Entity) {
    e.end.side.Writer? && OrphanTopic(e.topic)
  }

  function TopicKey(e: Entity): Key
    requires Orphanable(e)
  {
    Key(MsgPub, e.topic[2..])
  }

  function OrphanIfaces(nodes: Nodes, e: Entity): Ifaces {
    NodeAt(nodes, NodeId(e.participant, Orphan)).ifaces
  }

  /** The orphan node of the Writer's participant exists and refuses its type. */
  ghost predicate Refused(nodes: Nodes, e: Entity)
    requires Orphanable(e)
  {
    TopicKey(e) in OrphanIfaces(nodes, e) && OrphanIfaces(nodes, e)[TopicKey(e)].typ != MessageType(e.typ)
  }

  /** That orphan node has dealt with the Writer: it refuses its type or holds it. */
  ghost predicate Settled(nodes: Nodes, e: Entity)
    requires Orphanable(e)
  {
    Refused(nodes, e)
    || (TopicKey(e) in OrphanIfaces(nodes, e) && e.end.gid in OrphanIfaces(nodes, e)[TopicKey(e)].endpoints)
  }

  lemma FeedOrphan(nodes: Nodes, e: Entity)
    requires Orphanable(e)
    ensures var id := NodeId(e.participant, Orphan);
            Settled(nodes[id := NodeAt(nodes, id).(ifaces := Feed(NodeAt(nodes, id).ifaces, e).0)], e)
    ensures Settled(nodes, e)
            ==> Feed(nodes[NodeId(e.participant, Orphan)].ifaces, e)
                == (nodes[NodeId(e.participant, Orphan)].ifaces, [])
  {
    hide Classify, OrphanTopic;
    ClassifyOrphan(e);
  }

  lemma FeedSettles(nodes: Nodes, e: Entity, f: Entity)
    requires Orphanable(e) && Orphanable(f) && Settled(nodes, f)
    ensures var id := NodeId(e.participant, Orphan);
            Settled(nodes[id := NodeAt(nodes, id).(ifaces := Feed(NodeAt(nodes, id).ifaces, e).0)], f)
  {
  }

  lemma {:induction false} ClaimSettles(nodes: Nodes, writers: seq<Entity>, f: Entity)
    requires (forall e | e in writers :: Orphanable(e)) && Orphanable(f) && (f in writers || Settled(nodes, f))
    ensures Settled(ClaimAll(nodes, writers).0, f)
    decreases writers
  {
    hide Settled, Orphanable, Feed;
    if writers != [] {
      var e := writers[0];
      assert writers == [e] + writers[1..];
      var id := NodeId(e.participant, Orphan);
      if Settled(nodes, f) {
        FeedSettles(nodes, e, f);
      } else if f == e {
        FeedOrphan(nodes, e);
      }
      ClaimSettles(nodes[id := NodeAt(nodes, id).(ifaces := Feed(NodeAt(nodes, id).ifaces, e).0)], writers[1..], f);
    }
  }

  lemma {:induction false} ClaimSettled(nodes: Nodes, writers: seq<Entity>)
    requires forall e | e in writers :: Orphanable(e) && Settled(nodes, e)
    ensures ClaimAll(nodes, writers) == (nodes, [])
    decreases writers
  {
    hide OrphanTopic, Feed;
    if writers != [] {
      var e := writers[0];
      var id := NodeId(e.participant, Orphan);
      FeedOrphan(nodes, e);
      assert nodes[id := nodes[id].(ifaces := nodes[id].ifaces)] == nodes;
      ClaimSettled(nodes, writers[1..]);
      assert ClaimAll(nodes, writers).1 == Tag(id, []) + [] == [];
    }
  }

  /** The sweep deals with exactly the candidates whose grace period is over. */
  lemma {:induction false} AllDue(s: Disc, now: int, grace: nat, order: seq<Gid>, g: Gid)
    requires g in order && End(Writer, g) in s.endpoints && Due(s, g, now, grace)
    ensures s.endpoints[End(Writer, g)] in DueWriters(s, now, grace, order)
    decreases order
  {
    hide Due;
    if order[0] != g {
      AllDue(s, now, grace, order[1..], g);
    }
  }

  /** What a node claims it still claims after the sweep. */
  lemma {:induction false} ClaimsStay(nodes: Nodes, writers: seq<Entity>, g: Gid)
    requires Claimed(nodes, g) && forall e | e in writers :: Orphanable(e)
    ensures Claimed(ClaimAll(nodes, writers).0, g)
    decreases writers
  {
    hide OrphanTopic, Classify;
    if writers != [] {
      var e := writers[0];
      assert e in writers;
      ClassifyOrphan(e);
      var id := NodeId(e.participant, Orphan);
      var nodes' := nodes[id := NodeAt(nodes, id).(ifaces := Feed(NodeAt(nodes, id).ifaces, e).0)];
      var j :| j in nodes && Claims(nodes[j], g);
      assert Claims(nodes'[j], g) by { FeedClaims(nodes[j], e, g); }
      ClaimsStay(nodes', writers[1..], g);
    }
  }

  lemma FeedClaims(node: Node, e: Entity, g: Gid)
    requires Claims(node, g) && Orphanable(e)
    ensures Claims(node.(ifaces := Feed(node.ifaces, e).0), g)
  {
  }

  /** After a sweep without grace, another one announces and changes nothing. */
  lemma SecondSweepSilent(s: Disc, now: int, gids: seq<Gid>, now': int, gids': seq<Gid>)
    requires Sound(s) && Legal(s, Sweep(now, 0, gids))
    requires Legal(Step(s, Sweep(now, 0, gids)).0, Sweep(now', 0, gids'))
    ensures var s' := Step(s, Sweep(now, 0, gids)).0;
            Step(s', Sweep(now', 0, gids')).1 == [] && Step(s', Sweep(now', 0, gids')).0.nodes == s'.nodes
  {
    hide OrphanTopic, Claimed, Settled, Feed;
    var s' := Step(s, Sweep(now, 0, gids)).0;
    DueWritersKnown(s, now, 0, gids);
    var due, due' := DueWriters(s, now, 0, gids), DueWriters(s', now', 0, gids');
    assert ProperEnds(s'.endpoints);
    DueWritersKnown(s', now', 0, gids');
    forall e | e in due ensures Orphanable(e) {
      assert e.end.gid in Candidates(s);
    }
    forall e | e in due' ensures Orphanable(e) && Settled(s'.nodes, e) {
      assert e.end.gid in Candidates(s') && e == s.endpoints[e.end];
      if Claimed(s.nodes, e.end.gid) {
        ClaimsStay(s.nodes, due, e.end.gid);
        assert false;
      } else {
        assert Candidate(s, e.end.gid);
        assert e.end.gid in gids;
        AllDue(s, now, 0, gids, e.end.gid);
        ClaimSettles(s.nodes, due, e);
      }
    }
    ClaimSettled(s'.nodes, due');
  }

  lemma {:induction false} ClaimTypeStays(nodes: Nodes, writers: seq<Entity>, id: NodeId, k: Key)
    requires k in NodeAt(nodes, id).ifaces
    ensures var nodes' := ClaimAll(nodes, writers).0;
            k in NodeAt(nodes', id).ifaces
                && (IsTopic(k.kind) ==> NodeAt(nodes', id).ifaces[k].typ == NodeAt(nodes, id).ifaces[k].typ)
    decreases writers
  {
    hide Classify;
    if writers != [] {
      var e := writers[0];
      ClassifiedRole(e);
      var id' := NodeId(e.participant, Orphan);
      ClaimTypeStays(nodes[id' := NodeAt(nodes, id').(ifaces := Feed(NodeAt(nodes, id').ifaces, e).0)], writers[1..],
          id, k);
    }
  }

  /** Feeding a node makes it claim at most the Writer fed, and only under its own type. */
  lemma FeedClaimsOnly(node: Node, e: Entity, g: Gid)
    requires Orphanable(e) && !Claims(node, g)
    ensures var node' := node.(ifaces := Feed(node.ifaces, e).0);
            Claims(node', g) ==>
              e.end.gid == g && TopicKey(e) in node'.ifaces && node'.ifaces[TopicKey(e)].typ == MessageType(e.typ)
  {
    hide OrphanTopic, Classify;
    ClassifyOrphan(e);
    assert forall k | k in node.ifaces && k.kind == MsgPub :: g !in node.ifaces[k].endpoints;
  }

  lemma {:induction false} RefusedUnclaimed(nodes: Nodes, writers: seq<Entity>, f: Entity)
    requires (forall e | e in writers :: Orphanable(e) && (e.end.gid == f.end.gid ==> e == f)) && Orphanable(f)
    requires !Claimed(nodes, f.end.gid) && Refused(ClaimAll(nodes, writers).0, f)
    ensures !Claimed(ClaimAll(nodes, writers).0, f.end.gid)
    decreases writers
  {
    hide Orphanable, Feed, Claims;
    if writers != [] {
      var e := writers[0];
      assert e in writers;
      var id := NodeId(e.participant, Orphan);
      assert !Claims(NodeAt(nodes, id), f.end.gid) by { NothingClaimed(f.end.gid); }
      FeedClaimsOnly(NodeAt(nodes, id), e, f.end.gid);
      var node := NodeAt(nodes, id).(ifaces := Feed(NodeAt(nodes, id).ifaces, e).0);
      if Claims(node, f.end.gid) {
        ClaimTypeStays(nodes[id := node], writers[1..], id, TopicKey(f));
      } else {
        RefusedUnclaimed(nodes[id := node], writers[1..], f);
      }
    }
  }

  lemma NothingClaimed(g: Gid)
    ensures !Claims(EMPTY_NODE, g)
  {
  }

  /** The type under which the sweep has the orphan node publish the topic of `f`: its own, or the first claimed. */
  function TopicType(nodes: Nodes, writers: seq<Entity>, f: Entity): string
    requires Orphanable(f)
  {
    if TopicKey(f) in OrphanIfaces(nodes, f) then OrphanIfaces(nodes, f)[TopicKey(f)].typ else FirstType(writers, f)
  }

  function FirstType(writers: seq<Entity>, f: Entity): string {
    if writers == [] then MessageType(f.typ)
    else if writers[0].participant == f.participant && writers[0].topic == f.topic then MessageType(writers[0].typ)
    else FirstType(writers[1..], f)
  }

  /** Feeding the orphan node of `e` a Writer settles the type of that Writer's topic, and of no other. */
  lemma FeedType(nodes: Nodes, e: Entity, f: Entity)
    requires Orphanable(e) && Orphanable(f)
    ensures var id := NodeId(e.participant, Orphan);
            var nodes' := nodes[id := NodeAt(nodes, id).(ifaces := Feed(NodeAt(nodes, id).ifaces, e).0)];
            if TopicKey(f) in OrphanIfaces(nodes, f) then
              TopicKey(f) in OrphanIfaces(nodes', f)
              && OrphanIfaces(nodes', f)[TopicKey(f)].typ == OrphanIfaces(nodes, f)[TopicKey(f)].typ
            else if e.participant == f.participant && e.topic == f.topic then
              TopicKey(f) in OrphanIfaces(nodes', f)
              && OrphanIfaces(nodes', f)[TopicKey(f)].typ == MessageType(e.typ)
            else TopicKey(f) !in OrphanIfaces(nodes', f)
  {
    SameTopic(e, f);
    hide Classify, OrphanTopic;
    ClassifyOrphan(e);
  }

  lemma SameTopic(e: Entity, f: Entity)
    requires Orphanable(e) && Orphanable(f)
    ensures TopicKey(e) == TopicKey(f) <==> e.topic == f.topic
  {
    assert e.topic == e.topic[..3] + e.topic[2..][1..] && f.topic == f.topic[..3] + f.topic[2..][1..];
  }

  lemma {:induction false} ClaimType(nodes: Nodes, writers: seq<Entity>, f: Entity)
    requires (forall e | e in writers :: Orphanable(e)) && Orphanable(f)
    requires f in writers || TopicKey(f) in OrphanIfaces(nodes, f)
    ensures var nodes' := ClaimAll(nodes, writers).0;
            TopicKey(f) in OrphanIfaces(nodes', f)
            && OrphanIfaces(nodes', f)[TopicKey(f)].typ == TopicType(nodes, writers, f)
    decreases writers
  {
    hide Orphanable, Feed, MessageType;
    if writers != [] {
      var e := writers[0];
      assert writers == [e] + writers[1..];
      var id := NodeId(e.participant, Orphan);
      FeedType(nodes, e, f);
      ClaimType(nodes[id := NodeAt(nodes, id).(ifaces := Feed(NodeAt(nodes, id).ifaces, e).0)], writers[1..], f);
    }
  }

  /** Writers the sweep does not deal with are not claimed. */
  lemma {:induction false} OthersUnclaimed(nodes: Nodes, writers: seq<Entity>, g: Gid)
    requires (forall e | e in writers :: Orphanable(e) && e.end.gid != g) && !Claimed(nodes, g)
    ensures !Claimed(ClaimAll(nodes, writers).0, g)
    decreases writers
  {
    hide Orphanable, Feed, Claims;
    if writers != [] {
      var e := writers[0];
      assert e in writers;
      var id := NodeId(e.participant, Orphan);
      assert !Claims(NodeAt(nodes, id), g) by { NothingClaimed(g); }
      FeedClaimsOnly(NodeAt(nodes, id), e, g);
      OthersUnclaimed(nodes[id := NodeAt(nodes, id).(ifaces := Feed(NodeAt(nodes, id).ifaces, e).0)], writers[1..], g);
    }
  }

  /**
   * A sweep leaves a candidate unclaimed iff its grace period is not over, or its participant's orphan node has,
   * or takes before it, a Writer of another type on the topic.
   */
  lemma LeftUnclaimed(s: Disc, now: int, grace: nat, gids: seq<Gid>, g: Gid)
    requires Sound(s) && Legal(s, Sweep(now, grace, gids)) && g in Candidates(s)
    ensures Orphanable(s.endpoints[End(Writer, g)])
    ensures var f := s.endpoints[End(Writer, g)];
            g in Candidates(Step(s, Sweep(now, grace, gids)).0)
            <==> !Due(s, g, now, grace)
                 || TopicType(s.nodes, DueWriters(s, now, grace, gids), f) != MessageType(f.typ)
  {
    hide OrphanTopic, Feed, Due, MessageType;
    var s' := Step(s, Sweep(now, grace, gids)).0;
    var due, f := DueWriters(s, now, grace, gids), s.endpoints[End(Writer, g)];
    DueWritersKnown(s, now, grace, gids);
    forall e | e in due ensures Orphanable(e) {
      assert e.end.gid in Candidates(s);
    }
    if Due(s, g, now, grace) {
      AllDue(s, now, grace, gids, g);
      ClaimSettles(s.nodes, due, f);
      ClaimType(s.nodes, due, f);
      if Refused(s'.nodes, f) {
        RefusedUnclaimed(s.nodes, due, f);
      } else {
        assert Claims(s'.nodes[NodeId(f.participant, Orphan)], g);
      }
    } else {
      OthersUnclaimed(s.nodes, due, g);
    }
  }

  /**
   * Over a whole run, a sweep claims a Writer nobody claims yet iff it has waited for the grace period and the orphan
   * node takes its type.
   */
  lemma ClaimedIff(ops: seq<Op>, n: nat, g: Gid)
    requires LegalRun(INITIAL, ops) && ClockForward(ops) && n < |ops| && ops[n].Sweep?
    requires Candidate(StateAt(ops, n), g)
    ensures var s, f := StateAt(ops, n), StateAt(ops, n).endpoints[End(Writer, g)];
            Orphanable(f)
            && (Claimed(StateAt(ops, n + 1).nodes, g) <==>
                (exists m: nat :: Waited(ops, m, n, g) && Elapsed(ops[m].now, ops[n].now) >= ops[n].grace)
                && TopicType(s.nodes, DueWriters(s, ops[n].now, ops[n].grace, ops[n].gids), f) == MessageType(f.typ))
  {
    var s, op := StateAt(ops, n), ops[n];
    LegalAt(INITIAL, ops, n);
    StateNext(ops, n);
    DueIffWaited(ops, n, g);
    assert g in Candidates(s) by { assert End(Writer, g) in s.endpoints; }
    LeftUnclaimed(s, op.now, op.grace, op.gids, g);
    StillKnown(s, op, g);
  }

  lemma StillKnown(s: Disc, op: Op, g: Gid)
    requires op.Sweep? && Candidate(s, g)
    ensures g in Candidates(Step(s, op).0) <==> !Claimed(Step(s, op).0.nodes, g)
  {
    hide OrphanTopic, Claimed, DueWriters, ClaimAll;
    var s' := Step(s, op).0;
    assert s'.endpoints == s.endpoints && End(Writer, g) in s.endpoints;
  }

  /** Two Writers of one participant on one topic with different types: the second one is never claimed. */
  lemma LeftByFirstType(topic: string, typ: string, other: string)
    requires OrphanTopic(topic) && MessageType(typ) != MessageType(other)
    ensures var ops := [AddEndpoint(Entity(End(Writer, 7), 1, topic, typ), []),
                        AddEndpoint(Entity(End(Writer, 8), 1, topic, other), []), Sweep(0, 0, [7, 8])];
            LegalRun(INITIAL, ops) && 8 in Candidates(Run(INITIAL, ops).0)
    ensures MessageType("A") != MessageType("B")
  {
    hide OrphanTopic, MessageType;
    var e, f := Entity(End(Writer, 7), 1, topic, typ), Entity(End(Writer, 8), 1, topic, other);
    var add, also, sweep := AddEndpoint(e, []), AddEndpoint(f, []), Sweep(0, 0, [7, 8]);
    var s1 := Step(INITIAL, add).0;
    assert s1.endpoints == map[e.end := e] && s1.nodes == map[];
    var s2 := Step(s1, also).0;
    assert s2.endpoints == map[e.end := e, f.end := f] && s2.nodes == map[] && s2.firstSeen == map[];
    assert Candidates(s2) == {7, 8};
    assert DueWriters(s2, 0, 0, [8]) == [f] && [7, 8][1..] == [8];
    assert DueWriters(s2, 0, 0, [7, 8]) == [e, f];
    LeftUnclaimed(s2, 0, 0, [7, 8], 8);
    RunThree(add, also, sweep);
    OneLetterTypes();
  }

  lemma RunThree(a: Op, b: Op, c: Op)
    ensures var s1 := Step(INITIAL, a).0;
            var s2 := Step(s1, b).0;
            Run(INITIAL, [a, b, c]).0 == Step(s2, c).0
            && (Legal(INITIAL, a) && Legal(s1, b) && Legal(s2, c)
                && (forall op | op in {a, b, c} && op.AddEndpoint? :: op.e.end.gid != NOT_DISCOVERED)
                ==> LegalRun(INITIAL, [a, b, c]))
  {
    hide Step, Legal;
    assert [a, b, c][1..] == [b, c] && [b, c][1..] == [c] && [c][1..] == [];
    var s1 := Step(INITIAL, a).0;
    var s2 := Step(s1, b).0;
    var s3 := Step(s2, c).0;
    assert Run(s2, [c]).0 == Run(s3, []).0 && Run(s1, [b, c]).0 == Run(s2, [c]).0;
    assert LegalRun(s3, []);
    assert Legal(s2, c) && (c.AddEndpoint? ==> c.e.end.gid != NOT_DISCOVERED) ==> LegalRun(s2, [c]);
  }

  lemma OneLetterTypes()
    ensures MessageType("A") != MessageType("B")
  {
    assert Replace("A", "::dds_::", "::") == "A" && Replace("B", "::dds_::", "::") == "B";
    assert Replace("A", "::", "/") == "A" && Replace("B", "::", "/") == "B";
  }
}

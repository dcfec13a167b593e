/**
 * A topic route from DDS to zenoh: one DDS Reader, and sometimes a second, VOLATILE one, stand in for
 * all local Writers, whose QoS the route announces.
 */
module RoutePublisher {
  import opened Wrappers
  import opened Text
  import opened Names
  import opened Qos
  import opened QosMatching
  import opened QosOrder
  import opened Dds
  import FwdQueue
  import Liveliness
  import RouteSubscriber

  /** What the route was created with. */
  datatype Topic = Topic(keyless: bool, fallback: Qos, multiplier: nat)

  /**
   * `readerQos` and `volatileReaderQos` are what Readers are to be created with, `reader` and
   * `volatileReader` what the live ones were created with. `cacheSize` and `marks` (a second publisher for
   * VOLATILE samples) belong to the zenoh publisher, `listening` and `matching` to its matching listener.
   */
  datatype Pub = Pub(readerQos: Qos, volatileReaderQos: Option<Qos>, reader: Option<Qos>, volatileReader: Option<Qos>,
                     cacheSize: Option<nat>, queueLimit: nat, marks: bool, listening: bool, matching: bool,
                     announced: Option<Qos>, volatileAnnounced: Option<Qos>, locals: set<string>, remotes: set<string>)

  /** Whether the Readers that are missing can be created. */
  datatype Creations = Creations(main: Creation, volatile: Creation)

  /**
   * Results of the fallible calls: tokens declared, publishers declared, listener declared; `matched` is
   * the status a new listener reports, `first` and `second` the two times Readers are created.
   */
  datatype Outcome = Outcome(token: bool, volatileToken: bool, publisher: bool, volatilePublisher: bool,
                             listener: bool, matched: bool, first: Creations, second: Creations)

  function Desired(t: Topic, writers: seq<Qos>): (Qos, Option<Qos>) {
    ReadersQos(writers, t.fallback, t.multiplier)
  }

  function CacheOf(t: Topic, q: Qos): Option<nat> {
    CacheSize(q, t.keyless, 1)
  }

  // ---- The methods of the route -----------------------------------------------------------

  /** `activate_dds_readers`: whichever Reader is missing is created. */
  function Activated(s: Pub, c: Creations): Pub {
    s.(reader := if s.reader.Some? || !Works(c.main) then s.reader else Some(s.readerQos),
       volatileReader := if s.volatileReader.Some? || s.volatileReaderQos.None? || !Works(c.volatile)
                         then s.volatileReader else s.volatileReaderQos)
  }

  function Deactivated(s: Pub): Pub {
    s.(reader := None, volatileReader := None)
  }

  function IfMatching(s: Pub, c: Creations): Pub {
    if s.matching then Activated(s, c) else s
  }

  /** The matching listener is called. */
  function OnMatching(s: Pub, matching: bool, c: Creations): Pub {
    if matching then Activated(s.(matching := true), c) else Deactivated(s.(matching := false))
  }

  /** The announcements of an announced route follow its Writers, the new token replacing the old one. */
  function Reannounced(t: Topic, s: Pub, writers: seq<Qos>, o: Outcome): (Pub, bool) {
    if writers == [] || s.announced.None? then (s, true)
    else
      var (main, volatile) := AnnouncedQoses(writers, t.multiplier);
      var changed := !SameRouteQos(s.announced.value, main, false);
      if changed && !o.token then (s, false)
      else
        var s1 := if changed then s.(announced := Some(main)) else s;
        if volatile.None? then (s1.(volatileAnnounced := None), true)
        else if SameOption(s1.volatileAnnounced, volatile, false) then (s1, true)
        else if o.volatileToken then (s1.(volatileAnnounced := volatile), true)
        else (s1.(volatileAnnounced := None), false)
  }

  /** `rebuild`. Without a new listener the old QoS is restored, for the next update to try again. */
  function Rebuilt(t: Topic, s: Pub, main: Qos, volatile: Option<Qos>, o: Outcome): (Pub, bool) {
    if !o.publisher || (volatile.Some? && !o.volatilePublisher) then (s, false)
    else
      var cache := CacheOf(t, main);
      var s1 := Deactivated(s).(cacheSize := cache, queueLimit := FwdQueue.QueueLimit(cache), marks := volatile.Some?,
                                listening := false, matching := false);
      if !o.listener then (s1, false)
      else
        var s2 := s1.(readerQos := main, volatileReaderQos := volatile, listening := true);
        (IfMatching(OnMatching(s2, o.matched, o.first), o.second), true)
  }

  /** `set_volatile_reader`. */
  function VolatileSet(s: Pub, volatile: Option<Qos>, o: Outcome): (Pub, bool) {
    if volatile.Some? && !o.volatilePublisher then (s, false)
    else
      var s1 := s.(volatileReader := None, volatileReaderQos := volatile, marks := volatile.Some?);
      (IfMatching(s1, o.second), true)
  }

  /** `update_local_writers`, with whether it succeeds. */
  function Update(t: Topic, s: Pub, writers: seq<Qos>, o: Outcome): (Pub, bool) {
    var (s1, ok) := Reannounced(t, s, writers, o);
    if !ok then (s1, false)
    else
      var (main, volatile) := Desired(t, writers);
      if !SameRouteQos(s1.readerQos, main, true) then Rebuilt(t, s1, main, volatile, o)
      else if !SameOption(s1.volatileReaderQos, volatile, true) then VolatileSet(s1, volatile, o)
      else (s1, true)
  }

  /** `add_local_node`: the first node announces the route. */
  function AddNode(s: Pub, node: string, qos: Qos, token: bool): Pub {
    var s1 := s.(locals := s.locals + {node});
    if node !in s.locals && |s1.locals| == 1 && token then s1.(announced := Some(qos)) else s1
  }

  function RemoveNode(s: Pub, node: string): Pub {
    var s1 := s.(locals := s.locals - {node});
    if node in s.locals && s1.locals == {} then s1.(announced := None, volatileAnnounced := None) else s1
  }

  function RemoveRemote(s: Pub, x: string): Pub {
    var s1 := s.(remotes := s.remotes - {x});
    if s1.remotes == {} then Deactivated(s1) else s1
  }

  function PruneRemotes(s: Pub, prefix: string): Pub {
    var s1 := s.(remotes := set x | x in s.remotes && !StartsWith(x, prefix));
    if s1.remotes != s.remotes && s1.remotes == {} then Deactivated(s1) else s1
  }

  /**
   * `LateActivation` is the end of an activation whose look at the matching flag is out of date, the
   * listener having been called before it took the lock.
   */
  datatype Op =
    | WritersChanged(writers: seq<Qos>, o: Outcome)
    | NodeAdded(node: string, qos: Qos, token: bool)
    | NodeRemoved(node: string)
    | RemoteAdded(remote: string, c: Creations)
    | RemoteRemoved(remote: string)
    | BridgePruned(prefix: string)
    | MatchingChanged(matching: bool, c: Creations)
    | LateActivation(c: Creations)

  /** Only a declared listener is called, and only it ever saw a match. */
  predicate Possible(s: Pub, op: Op) {
    op.MatchingChanged? || op.LateActivation? ==> s.listening
  }

  function Step(t: Topic, s: Pub, op: Op): (Pub, bool) {
    match op
    case WritersChanged(writers, o) => Update(t, s, writers, o)
    case NodeAdded(node, qos, token) => (AddNode(s, node, qos, token), true)
    case NodeRemoved(node) => (RemoveNode(s, node), true)
    case RemoteAdded(x, c) => (IfMatching(s.(remotes := s.remotes + {x}), c), true)
    case RemoteRemoved(x) => (RemoveRemote(s, x), true)
    case BridgePruned(prefix) => (PruneRemotes(s, prefix), true)
    case MatchingChanged(matching, c) => (OnMatching(s, matching, c), true)
    case LateActivation(c) => (Activated(s, c), true)
  }

  predicate PossibleRun(t: Topic, s: Pub, ops: seq<Op>)
    decreases ops
  {
    ops == [] || (Possible(s, ops[0]) && PossibleRun(t, Step(t, s, ops[0]).0, ops[1..]))
  }

  function Run(t: Topic, s: Pub, ops: seq<Op>): Pub
    decreases ops
  {
    if ops == [] then s else Run(t, Step(t, s, ops[0]).0, ops[1..])
  }

  /** A route just made, its listener declared. */
  function NewRoute(t: Topic, main: Qos): Pub {
    Pub(main, None, None, None, CacheOf(t, main), FwdQueue.QueueLimit(CacheOf(t, main)), false, true, false, None, None,
        {}, {})
  }

  /** `create_for_topic`. A route that cannot be completed is dropped again. */
  function Created(t: Topic, writers: seq<Qos>, o: Outcome): Option<Pub> {
    var (main, volatile) := Desired(t, writers);
    if !o.publisher || !o.listener then None
    else
      var s := OnMatching(NewRoute(t, main), o.matched, o.first);
      if volatile.None? then Some(s)
      else if VolatileSet(s, volatile, o).1 then Some(VolatileSet(s, volatile, o).0) else None
  }

  // ---- What every step keeps --------------------------------------------------------------

  /** The QoS of a Reader derived from Writers: permissive, and its history known. */
  predicate Permissive(q: Qos) {
    q.reliability.Some? && (q.durability == Some(Volatile) || q.durability == Some(TransientLocal))
    && q.durabilityService.None? && q.history.Some? && q.deadline.None? && q.liveliness.None?
    && q.latencyBudget == Some(DDS_INFINITE_TIME) && q.destinationOrder.None? && q.presentation.None?
  }

  /**
   * Live Readers have the QoS the route has now; while the listener is declared, cache, queue and second
   * publisher are those for that QoS, and without it there is no Reader.
   */
  predicate Sound(t: Topic, s: Pub) {
    Permissive(s.readerQos) && (s.volatileReaderQos.Some? ==> Permissive(s.volatileReaderQos.value))
    && (s.reader.Some? ==> s.reader == Some(s.readerQos))
    && (s.volatileReader.Some? ==> s.volatileReader == s.volatileReaderQos && s.marks)
    && (if s.listening then s.cacheSize == CacheOf(t, s.readerQos) && s.marks == s.volatileReaderQos.Some?
        else !s.matching && s.reader.None? && s.volatileReader.None?)
    && s.queueLimit == FwdQueue.QueueLimit(s.cacheSize)
    && (s.announced.None? ==> s.volatileAnnounced.None?) && (s.locals == {} ==> s.announced.None?)
  }

  lemma DesiredPermissive(t: Topic, writers: seq<Qos>)
    ensures var (main, volatile) := Desired(t, writers);
            Permissive(main) && (volatile.Some? ==> Permissive(volatile.value))
  {
    hide RouteHistory;
  }

  /** The route is announced, as good as with what the Writers call for. */
  predicate Announces(t: Topic, s: Pub, writers: seq<Qos>) {
    var (main, volatile) := AnnouncedQoses(writers, t.multiplier);
    s.announced.Some? && SameRouteQos(s.announced.value, main, false)
    && SameOption(s.volatileAnnounced, volatile, false)
  }

  lemma ReannouncedOnly(t: Topic, s: Pub, writers: seq<Qos>, o: Outcome)
    ensures var (s', ok) := Reannounced(t, s, writers, o);
            s' == s.(announced := s'.announced, volatileAnnounced := s'.volatileAnnounced)
            && (s'.announced.Some? <==> s.announced.Some?)
            && (s.announced.None? ==> s'.volatileAnnounced == s.volatileAnnounced)
            && (ok && writers != [] ==> (Announces(t, s', writers) <==> s.announced.Some?))
            && (writers == [] ==> s' == s)
  {
    hide AnnouncedQoses, HistoryOf, IsTransientLocal;
  }

  lemma RebuiltSound(t: Topic, s: Pub, main: Qos, volatile: Option<Qos>, o: Outcome)
    requires Sound(t, s) && Permissive(main) && (volatile.Some? ==> Permissive(volatile.value))
    ensures Sound(t, Rebuilt(t, s, main, volatile, o).0)
  {
    hide CacheOf, Permissive;
  }

  lemma VolatileSetSound(t: Topic, s: Pub, volatile: Option<Qos>, o: Outcome)
    requires Sound(t, s) && (volatile.Some? ==> Permissive(volatile.value))
    ensures Sound(t, VolatileSet(s, volatile, o).0)
  {
    hide CacheOf, Permissive;
  }

  lemma CreatedSound(t: Topic, writers: seq<Qos>, o: Outcome)
    requires Created(t, writers, o).Some?
    ensures Sound(t, Created(t, writers, o).value) && Created(t, writers, o).value.listening
  {
    hide Desired, CacheOf, Permissive, OnMatching, VolatileSet;
    DesiredPermissive(t, writers);
    var (main, volatile) := Desired(t, writers);
    ReadersSound(t, NewRoute(t, main), o.first);
    var s := OnMatching(NewRoute(t, main), o.matched, o.first);
    assert s.listening && VolatileSet(s, volatile, o).0.listening by { StillListening(NewRoute(t, main), volatile, o); }
    VolatileSetSound(t, s, volatile, o);
  }

  lemma StillListening(s: Pub, volatile: Option<Qos>, o: Outcome)
    requires s.listening
    ensures forall m, c :: OnMatching(s, m, c).listening && VolatileSet(OnMatching(s, m, c), volatile, o).0.listening
  {
  }

  lemma UpdateSound(t: Topic, s: Pub, writers: seq<Qos>, o: Outcome)
    requires Sound(t, s)
    ensures Sound(t, Update(t, s, writers, o).0)
  {
    hide Desired, CacheOf, Reannounced, Rebuilt, VolatileSet, SameRouteQos, SameOption, Permissive, Announces;
    ReannouncedOnly(t, s, writers, o);
    DesiredPermissive(t, writers);
    var (s1, ok) := Reannounced(t, s, writers, o);
    if ok {
      var (main, volatile) := Desired(t, writers);
      RebuiltSound(t, s1, main, volatile, o);
      VolatileSetSound(t, s1, volatile, o);
    }
  }

  lemma ReadersSound(t: Topic, s: Pub, c: Creations)
    requires Sound(t, s)
    ensures s.listening ==> Sound(t, Activated(s, c)) && forall m :: Sound(t, OnMatching(s, m, c))
    ensures Sound(t, IfMatching(s, c))
  {
    hide CacheOf, Permissive;
  }

  lemma UsersSound(t: Topic, s: Pub, remotes: set<string>)
    requires Sound(t, s)
    ensures Sound(t, s.(remotes := remotes)) && Sound(t, Deactivated(s.(remotes := remotes)))
    ensures forall node, qos, token :: Sound(t, AddNode(s, node, qos, token))
    ensures forall node :: Sound(t, RemoveNode(s, node))
  {
    hide CacheOf, Permissive;
  }

  lemma StepSound(t: Topic, s: Pub, op: Op)
    requires Sound(t, s) && Possible(s, op)
    ensures Sound(t, Step(t, s, op).0)
  {
    hide Sound, Update, Activated, OnMatching, IfMatching, Deactivated, AddNode, RemoveNode;
    match op
    case WritersChanged(writers, o) => UpdateSound(t, s, writers, o);
    case NodeAdded(_, _, _) => UsersSound(t, s, s.remotes);
    case NodeRemoved(_) => UsersSound(t, s, s.remotes);
    case RemoteAdded(x, c) =>
      UsersSound(t, s, s.remotes + {x});
      ReadersSound(t, s.(remotes := s.remotes + {x}), c);
    case RemoteRemoved(x) => UsersSound(t, s, s.remotes - {x});
    case BridgePruned(prefix) => UsersSound(t, s, set x | x in s.remotes && !StartsWith(x, prefix));
    case MatchingChanged(_, c) => ReadersSound(t, s, c);
    case LateActivation(c) => ReadersSound(t, s, c);
  }

  /** What is kept from creation on, whatever fails and whenever the listener is called. */
  lemma {:induction false} RunSound(t: Topic, s: Pub, ops: seq<Op>)
    requires Sound(t, s) && PossibleRun(t, s, ops)
    ensures Sound(t, Run(t, s, ops))
    decreases ops
  {
    hide Sound, Step;
    if ops != [] {
      StepSound(t, s, ops[0]);
      RunSound(t, Step(t, s, ops[0]).0, ops[1..]);
    }
  }

  // ---- Following the Writers --------------------------------------------------------------

  /** The Readers to be created are as good as those the Writers call for. */
  predicate Follows(t: Topic, s: Pub, writers: seq<Qos>) {
    var (main, volatile) := Desired(t, writers);
    SameRouteQos(s.readerQos, main, true) && SameOption(s.volatileReaderQos, volatile, true)
  }

  lemma SameAsItself(q: Option<Qos>)
    ensures SameOption(q, q, true)
  {
  }

  /**
   * A successful update leaves the Reader QoS as the Writers call for. The route is announced for them exactly
   * if it was announced before, and listens exactly if it did before or its Reader QoS changed.
   */
  lemma UpdateFollows(t: Topic, s: Pub, writers: seq<Qos>, o: Outcome)
    requires Update(t, s, writers, o).1
    ensures var s' := Update(t, s, writers, o).0;
            Follows(t, s', writers)
            && (if writers == [] then s'.announced == s.announced && s'.volatileAnnounced == s.volatileAnnounced
                else Announces(t, s', writers) <==> s.announced.Some?)
            && (s'.listening <==> s.listening || !SameRouteQos(s.readerQos, Desired(t, writers).0, true))
  {
    hide Desired, CacheOf, Reannounced, SameRouteQos, SameOption, AnnouncedQoses;
    ReannouncedOnly(t, s, writers, o);
    var (main, volatile) := Desired(t, writers);
    SameAsItself(Some(main));
    SameAsItself(volatile);
    assert SameOption(Some(main), Some(main), true) <==> SameRouteQos(main, main, true);
  }

  /**
   * Without a listener nothing but an update to another Reader QoS brings one back, so nothing is
   * forwarded until then.
   */
  lemma DeafUntilRebuilt(t: Topic, s: Pub, op: Op)
    requires Sound(t, s) && !s.listening && Possible(s, op)
    ensures var (s', ok) := Step(t, s, op);
            (s'.listening <==>
             op.WritersChanged? && ok && !SameRouteQos(s.readerQos, Desired(t, op.writers).0, true))
            && (!s'.listening ==> s'.reader.None? && s'.volatileReader.None?)
  {
    hide Desired, CacheOf, Reannounced, SameRouteQos, SameOption, Permissive, AddNode, RemoveNode, Announces;
    if op.WritersChanged? {
      ReannouncedOnly(t, s, op.writers, op.o);
    } else {
      NodesOnly(s);
    }
  }

  /**
   * An announcement that failed is not tried again while the route has local nodes: only the first node to come
   * announces it.
   */
  lemma SilentUntilEmptied(t: Topic, s: Pub, op: Op)
    requires s.announced.None?
    ensures Step(t, s, op).0.announced.Some? <==> op.NodeAdded? && op.token && s.locals == {}
  {
    hide Desired, CacheOf, Reannounced, SameRouteQos, SameOption, Announces;
    match op
    case WritersChanged(writers, o) => ReannouncedOnly(t, s, writers, o);
    case NodeAdded(node, _, _) =>
      if node !in s.locals && s.locals != {} {
        var other :| other in s.locals;
        assert {node, other} <= s.locals + {node} && |{node, other}| == 2;
        SubsetSize({node, other}, s.locals + {node});
      }
    case _ =>
  }

  lemma SubsetSize(a: set<string>, b: set<string>)
    requires a <= b
    ensures |a| <= |b|
  {
    assert b == a + (b - a);
  }

  /** The route has local nodes throughout. */
  predicate Serving(t: Topic, s: Pub, ops: seq<Op>)
    decreases ops
  {
    s.locals != {} && (ops == [] || Serving(t, Step(t, s, ops[0]).0, ops[1..]))
  }

  lemma {:induction false} StaysSilent(t: Topic, s: Pub, ops: seq<Op>)
    requires s.announced.None? && Serving(t, s, ops)
    ensures Run(t, s, ops).announced.None?
    decreases ops
  {
    hide Step;
    if ops != [] {
      SilentUntilEmptied(t, s, ops[0]);
      StaysSilent(t, Step(t, s, ops[0]).0, ops[1..]);
    }
  }

  /** So a route stays unannounced though every call after its first token succeeds. */
  lemma AnnouncementForgotten(t: Topic, node: string, qos: Qos, writers: seq<Qos>, o: Outcome)
    requires o.token && o.volatileToken && o.publisher && o.volatilePublisher && o.listener
    ensures var s := Step(t, NewRoute(t, Desired(t, []).0), NodeAdded(node, qos, false)).0;
            var (s', ok) := Step(t, s, WritersChanged(writers, o));
            ok && s'.locals == {node} && s'.announced.None?
  {
    hide Desired, CacheOf, SameRouteQos, SameOption;
  }

  lemma NodesOnly(s: Pub)
    ensures forall node, qos, token :: var s' := AddNode(s, node, qos, token);
                                       s' == s.(locals := s'.locals, announced := s'.announced)
    ensures forall node :: var s' := RemoveNode(s, node);
                           s' == s.(locals := s'.locals, announced := s'.announced,
                                    volatileAnnounced := s'.volatileAnnounced)
  {
  }

  lemma WhereOne(w: Qos, p: Qos -> bool)
    ensures Where([w], p) == if p(w) then [w] else []
  {
  }

  /**
   * A rebuild that failed at the listener is forgotten when the Writers are again as they were: the update
   * succeeds, and the route is left without a listener.
   */
  lemma RebuildForgotten(t: Topic, w: Qos, o: Outcome, o': Outcome)
    requires IsTransientLocal(w) && o.publisher && !o.listener
    ensures var s := NewRoute(t, Desired(t, []).0);
            var (s1, ok1) := Update(t, s, [w], o);
            var (s2, ok2) := Update(t, s1, [], o');
            !ok1 && ok2 && Follows(t, s2, []) && !s2.listening
  {
    hide RouteHistory, CacheSize;
    assert [w][0] == w && w in [w];
    WhereOne(w, IsTransientLocal);
    WhereOne(w, (q: Qos) => !IsTransientLocal(q));
    assert IsTransientLocal(Desired(t, [w]).0) && !IsTransientLocal(Desired(t, []).0);
  }

  // ---- What the live Readers forward ------------------------------------------------------

  /** What a Reader matches depends only on what routes compare. */
  lemma SameMatches(a: Qos, b: Qos, w: Qos)
    requires Permissive(a) && Permissive(b) && SameRouteQos(a, b, true)
    ensures Compatible(w, a) <==> Compatible(w, b)
  {
  }

  /** And so does the size of the cache. */
  lemma SameCache(t: Topic, a: Qos, b: Qos)
    requires Permissive(a) && Permissive(b) && SameRouteQos(a, b, true)
    ensures CacheOf(t, a) == CacheOf(t, b)
  {
  }

  lemma DesiredServes(t: Topic, writers: seq<Qos>, w: Qos)
    requires w in writers && ProperDurations(w)
    ensures Deliveries(Desired(t, writers), w) == 1
  {
    hide ReadersQos, Deliveries;
    ServedExactlyOnce(writers, t.fallback, t.multiplier, w);
  }

  /** The Readers the QoS calls for are live. */
  predicate Active(s: Pub) {
    s.reader.Some? && (s.volatileReaderQos.Some? ==> s.volatileReader.Some?)
  }

  /**
   * After a successful update, the live Readers, though created for earlier Writers, forward what each
   * Writer of now writes exactly once, and cache as much as for a Reader created now.
   */
  lemma EachWriterOnce(t: Topic, s: Pub, writers: seq<Qos>, o: Outcome, w: Qos)
    requires Sound(t, s) && Update(t, s, writers, o).1 && Active(Update(t, s, writers, o).0)
    requires w in writers && ProperDurations(w)
    ensures var s' := Update(t, s, writers, o).0;
            Deliveries((s'.reader.value, s'.volatileReader), w) == 1
            && s'.cacheSize == CacheOf(t, Desired(t, writers).0) && (s'.volatileReader.Some? ==> s'.marks)
  {
    hide Update, Desired, SameRouteQos, Permissive, CacheOf, Compatible, AnnouncedQoses, ReadersQos;
    var s' := Update(t, s, writers, o).0;
    var (main, volatile) := Desired(t, writers);
    UpdateSound(t, s, writers, o);
    UpdateFollows(t, s, writers, o);
    DesiredPermissive(t, writers);
    SameMatches(s'.readerQos, main, w);
    SameCache(t, s'.readerQos, main);
    if volatile.Some? {
      SameMatches(s'.volatileReaderQos.value, volatile.value, w);
    }
    DesiredServes(t, writers, w);
  }

  // ---- What other bridges see -------------------------------------------------------------

  /**
   * A changed announcement is declared before the old one is retired. A bridge that hears of both has the
   * new one then, unless they are encoded alike, which means that durability services were all that changed.
   */
  lemma ReannouncementKept(live: map<string, Qos>, zid: string, ke: string, keyless: bool, was: Qos, now: Qos,
                           o: RouteSubscriber.Outcome, o': RouteSubscriber.Outcome)
    requires NoColon(zid) && NoColon(ke) && Liveliness.EncodableUserData(was) && Liveliness.EncodableUserData(now)
    requires !SameRouteQos(was, now, false)
    ensures var k, k' := Liveliness.RemotePublisherKey(zid, ke, keyless, was),
                         Liveliness.RemotePublisherKey(zid, ke, keyless, now);
            var live' := RouteSubscriber.Live(live, [RouteSubscriber.Announced(k', now, o),
                                                     RouteSubscriber.Retired(k, o')]);
            (k' in live' <==> Liveliness.Significant(was) != Liveliness.Significant(now))
            && (k' in live' ==> live'[k'] == now) && k !in live'
            && (k' !in live' ==> ServiceHistory(was) != ServiceHistory(now))
  {
    hide Liveliness.RemotePublisherKey;
    Liveliness.PublisherKeyDistinguishes(zid, ke, keyless, was, zid, ke, keyless, now);
    var k, k' := Liveliness.RemotePublisherKey(zid, ke, keyless, was),
                 Liveliness.RemotePublisherKey(zid, ke, keyless, now);
    var first, second := RouteSubscriber.Announced(k', now, o), RouteSubscriber.Retired(k, o');
    assert [first, second][1..] == [second] && [second][1..] == [];
    assert RouteSubscriber.Live(live, [first, second]) == RouteSubscriber.Live(live[k' := now], [second]);
    assert RouteSubscriber.Live(live[k' := now], [second]) == RouteSubscriber.Live(live[k' := now] - {k}, []);
    if Liveliness.Significant(was) == Liveliness.Significant(now) {
      assert IsTransientLocal(was) == IsTransientLocal(now) && HistoryOf(was) == HistoryOf(now);
    }
  }

  /** Two announcements that differ in their durability services only are encoded alike, so the route seems gone. */
  lemma ReannouncementLost(zid: string, ke: string, keyless: bool, d: DurabilityService, o: RouteSubscriber.Outcome)
    requires NoColon(zid) && NoColon(ke)
    ensures var was, now := AnnouncedQos([DEFAULT_QOS], 1),
                            AnnouncedQos([DEFAULT_QOS.(durabilityService := Some(d))], 1);
            var k, k' := Liveliness.RemotePublisherKey(zid, ke, keyless, was),
                         Liveliness.RemotePublisherKey(zid, ke, keyless, now);
            !SameRouteQos(was, now, false)
            && RouteSubscriber.Live(map[k := was], [RouteSubscriber.Announced(k', now, o),
                                                    RouteSubscriber.Retired(k, o)]) == map[]
  {
    hide Liveliness.RemotePublisherKey;
    var a, b := DEFAULT_QOS, DEFAULT_QOS.(durabilityService := Some(d));
    WhereOne(a, IsTransientLocal);
    WhereOne(b, IsTransientLocal);
    assert MaxHistory([a]) == MaxHistory([b]) by { assert [a][1..] == [] && [b][1..] == []; }
    var was, now := AnnouncedQos([a], 1), AnnouncedQos([b], 1);
    assert Liveliness.Significant(was) == Liveliness.Significant(now);
    Liveliness.PublisherKeyDistinguishes(zid, ke, keyless, was, zid, ke, keyless, now);
    var k := Liveliness.RemotePublisherKey(zid, ke, keyless, was);
    OneReplaced(k, was, now, o);
  }

  lemma OneReplaced(k: string, was: Qos, now: Qos, o: RouteSubscriber.Outcome)
    ensures RouteSubscriber.Live(map[k := was], [RouteSubscriber.Announced(k, now, o), RouteSubscriber.Retired(k, o)])
            == map[]
  {
    var first, second := RouteSubscriber.Announced(k, now, o), RouteSubscriber.Retired(k, o);
    assert [first, second][1..] == [second] && [second][1..] == [];
    assert map[k := was][k := now] == map[k := now];
    assert RouteSubscriber.Live(map[k := was], [first, second]) == RouteSubscriber.Live(map[k := now], [second]);
    assert RouteSubscriber.Live(map[k := now], [second]) == RouteSubscriber.Live(map[k := now] - {k}, []);
  }

  // ---- The route object -------------------------------------------------------------------

  class RoutePublisher {
    const dds: Dds
    const topic: Topic
    var ddsReader: Handle
    var ddsVolatileReader: Handle
    ghost var createdWith: Option<Qos>
    ghost var volatileCreatedWith: Option<Qos>
    var readerQos: Qos
    var volatileReaderQos: Option<Qos>
    var cacheSize: Option<nat>
    var queueLimit: nat
    var volatilePublisher: bool
    var matchingListener: bool
    var isMatching: bool
    var announcedQos: Option<Qos>
    var volatileAnnouncement: Option<Qos>
    var localNodes: set<string>
    var remoteRoutes: set<string>

    ghost function State(): Pub
      reads this
    {
      Pub(readerQos, volatileReaderQos, createdWith, volatileCreatedWith, cacheSize, queueLimit, volatilePublisher,
          matchingListener, isMatching, announcedQos, volatileAnnouncement, localNodes, remoteRoutes)
    }

    /** The DDS entities of the route. */
    ghost function Held(): set<Handle>
      reads `ddsReader, `ddsVolatileReader
    {
      {ddsReader, ddsVolatileReader} - {DDS_ENTITY_NULL}
    }

    ghost predicate Valid()
      reads this, dds
    {
      dds.Valid() && Held() <= dds.live && Held() <= dds.advertised
      && (ddsReader != DDS_ENTITY_NULL <==> createdWith.Some?)
      && (ddsVolatileReader != DDS_ENTITY_NULL <==> volatileCreatedWith.Some?)
      && (ddsReader != DDS_ENTITY_NULL ==> ddsReader != ddsVolatileReader)
    }

    /** The route before its listener is declared. */
    constructor (dds: Dds, topic: Topic, readerQos: Qos)
      requires dds.Valid()
      ensures Valid() && Held() == {} && this.dds == dds && this.topic == topic
      ensures State() == NewRoute(topic, readerQos).(listening := false)
    {
      this.dds, this.topic, this.readerQos, volatileReaderQos := dds, topic, readerQos, None;
      ddsReader, ddsVolatileReader, createdWith, volatileCreatedWith := DDS_ENTITY_NULL, DDS_ENTITY_NULL, None, None;
      cacheSize := CacheOf(topic, readerQos);
      queueLimit := FwdQueue.QueueLimit(CacheOf(topic, readerQos));
      volatilePublisher, matchingListener, isMatching := false, false, false;
      announcedQos, volatileAnnouncement, localNodes, remoteRoutes := None, None, {}, {};
    }

    static method Create(dds: Dds, topic: Topic, writers: seq<Qos>, o: Outcome) returns (route: RoutePublisher?)
      requires dds.Valid()
      modifies dds
      ensures dds.Valid() && (route != null <==> Created(topic, writers, o).Some?)
      ensures route == null ==> dds.live == old(dds.live) && dds.advertised == old(dds.advertised)
      ensures route != null ==> fresh(route) && route.dds == dds && route.topic == topic && route.Valid()
                                && route.State() == Created(topic, writers, o).value
                                && dds.live - route.Held() == old(dds.live)
                                && dds.advertised - route.Held() == old(dds.advertised)
    {
      hide Desired, CacheOf;
      route := null;
      if !o.publisher { return; }
      var (main, volatile) := Desired(topic, writers);
      var made := new RoutePublisher(dds, topic, main);
      var ok := made.DeclareMatchingListener(o);
      if !ok { return; }
      if volatile.Some? {
        ok := made.SetVolatileReader(volatile, o);
        if !ok {
          made.Drop();
          return;
        }
      }
      route := made;
    }

    method ActivateReader(c: Creation)
      requires Valid()
      modifies this`ddsReader, this`createdWith, dds
      ensures Valid()
      ensures State() == old(State()).(reader := if old(createdWith).Some? || !Works(c) then old(createdWith)
                                                 else Some(readerQos))
      ensures dds.live - Held() == old(dds.live - Held()) && dds.advertised - Held() == old(dds.advertised - Held())
    {
      if ddsReader == DDS_ENTITY_NULL {
        var r := dds.CreateAdvertised(c);
        if r.Some? {
          ddsReader, createdWith := r.value, Some(readerQos);
        }
      }
    }

    method ActivateVolatileReader(c: Creation)
      requires Valid()
      modifies this`ddsVolatileReader, this`volatileCreatedWith, dds
      ensures Valid()
      ensures State() == old(State()).(volatileReader :=
                if old(volatileCreatedWith).Some? || volatileReaderQos.None? || !Works(c) then old(volatileCreatedWith)
                else volatileReaderQos)
      ensures dds.live - Held() == old(dds.live - Held()) && dds.advertised - Held() == old(dds.advertised - Held())
    {
      if volatileReaderQos.Some? && ddsVolatileReader == DDS_ENTITY_NULL {
        var r := dds.CreateAdvertised(c);
        if r.Some? {
          ddsVolatileReader, volatileCreatedWith := r.value, volatileReaderQos;
        }
      }
    }

    /** `activate_dds_readers`: the VOLATILE Reader comes last, so it can leave Writers to the other one. */
    method Activate(c: Creations)
      requires Valid()
      modifies this`ddsReader, this`ddsVolatileReader, this`createdWith, this`volatileCreatedWith, dds
      ensures Valid() && State() == Activated(old(State()), c)
      ensures dds.live - Held() == old(dds.live - Held()) && dds.advertised - Held() == old(dds.advertised - Held())
    {
      hide Held, Works;
      ActivateReader(c.main);
      ActivateVolatileReader(c.volatile);
    }

    method DeactivateVolatileReader()
      requires Valid()
      modifies this`ddsVolatileReader, this`volatileCreatedWith, dds
      ensures Valid() && State() == old(State()).(volatileReader := None) && ddsVolatileReader == DDS_ENTITY_NULL
      ensures dds.live == old(dds.live) - {old(ddsVolatileReader)}
              && dds.advertised == old(dds.advertised) - {old(ddsVolatileReader)}
      ensures dds.live - Held() == old(dds.live - Held()) && dds.advertised - Held() == old(dds.advertised - Held())
    {
      var reader := ddsVolatileReader;
      ddsVolatileReader, volatileCreatedWith := DDS_ENTITY_NULL, None;
      if reader != DDS_ENTITY_NULL {
        dds.DeleteAdvertised(reader);
      }
    }

    /** `deactivate_dds_reader`, for both Readers. */
    method Deactivate()
      requires Valid()
      modifies this`ddsReader, this`ddsVolatileReader, this`createdWith, this`volatileCreatedWith, dds
      ensures Valid() && State() == Deactivated(old(State())) && Held() == {}
      ensures dds.live == old(dds.live - Held()) && dds.advertised == old(dds.advertised - Held())
      ensures dds.live - Held() == old(dds.live - Held()) && dds.advertised - Held() == old(dds.advertised - Held())
    {
      var reader := ddsReader;
      ddsReader, createdWith := DDS_ENTITY_NULL, None;
      if reader != DDS_ENTITY_NULL {
        dds.DeleteAdvertised(reader);
      }
      DeactivateVolatileReader();
    }

    method ActivateIfMatching(c: Creations)
      requires Valid()
      modifies this`ddsReader, this`ddsVolatileReader, this`createdWith, this`volatileCreatedWith, dds
      ensures Valid() && State() == IfMatching(old(State()), c)
      ensures dds.live - Held() == old(dds.live - Held()) && dds.advertised - Held() == old(dds.advertised - Held())
    {
      hide Activated;
      if isMatching {
        Activate(c);
      }
    }

    /** The matching listener's callback. */
    method OnMatchingStatus(matching: bool, c: Creations)
      requires Valid()
      modifies this`isMatching, this`ddsReader, this`ddsVolatileReader, this`createdWith, this`volatileCreatedWith, dds
      ensures Valid() && State() == OnMatching(old(State()), matching, c)
      ensures dds.live - Held() == old(dds.live - Held()) && dds.advertised - Held() == old(dds.advertised - Held())
    {
      hide Activated;
      isMatching := matching;
      if matching {
        Activate(c);
      } else {
        Deactivate();
      }
    }

    /** The new listener is called with the current status. */
    method DeclareMatchingListener(o: Outcome) returns (ok: bool)
      requires Valid()
      modifies this`matchingListener, this`isMatching, this`ddsReader, this`ddsVolatileReader, this`createdWith,
               this`volatileCreatedWith, dds
      ensures Valid() && ok == o.listener
      ensures State() == if ok then OnMatching(old(State()).(listening := true), o.matched, o.first) else old(State())
      ensures !ok ==> dds.live == old(dds.live) && dds.advertised == old(dds.advertised) && Held() == old(Held())
      ensures dds.live - Held() == old(dds.live - Held()) && dds.advertised - Held() == old(dds.advertised - Held())
    {
      hide OnMatching;
      if !o.listener { return false; }
      matchingListener := true;
      OnMatchingStatus(o.matched, o.first);
      ok := true;
    }

    method Reannounce(writers: seq<Qos>, o: Outcome) returns (ok: bool)
      requires Valid()
      modifies this`announcedQos, this`volatileAnnouncement
      ensures Valid() && (State(), ok) == Reannounced(topic, old(State()), writers, o)
    {
      hide AnnouncedQoses, SameRouteQos;
      if writers == [] || announcedQos.None? { return true; }
      var (main, volatile) := AnnouncedQoses(writers, topic.multiplier);
      if !SameRouteQos(announcedQos.value, main, false) {
        if !o.token { return false; }
        announcedQos := Some(main);
      }
      var current := volatileAnnouncement;
      volatileAnnouncement := None;
      if volatile.Some? {
        if SameOption(current, volatile, false) {
          volatileAnnouncement := current;
        } else {
          if !o.volatileToken { return false; }
          volatileAnnouncement := volatile;
        }
      }
      ok := true;
    }

    /** The old listener is undeclared first, so that it cannot bring back the Readers. */
    method SwapPublisher(cache: Option<nat>, marks: bool)
      requires Valid()
      modifies this, dds
      ensures Valid()
      ensures State() == old(State()).(reader := None, volatileReader := None, cacheSize := cache,
                                       queueLimit := FwdQueue.QueueLimit(cache), marks := marks,
                                       listening := false, matching := false)
      ensures dds.live - Held() == old(dds.live - Held()) && dds.advertised - Held() == old(dds.advertised - Held())
    {
      hide Held, FwdQueue.QueueLimit;
      matchingListener := false;
      Deactivate();
      cacheSize, queueLimit, volatilePublisher, isMatching := cache, FwdQueue.QueueLimit(cache), marks, false;
    }

    method Rebuild(main: Qos, volatile: Option<Qos>, o: Outcome) returns (ok: bool)
      requires Valid()
      modifies this, dds
      ensures Valid() && (State(), ok) == Rebuilt(topic, old(State()), main, volatile, o)
      ensures dds.live - Held() == old(dds.live - Held()) && dds.advertised - Held() == old(dds.advertised - Held())
    {
      hide CacheOf, OnMatching, IfMatching, Held, FwdQueue.QueueLimit;
      if !o.publisher { return false; }
      if volatile.Some? && !o.volatilePublisher { return false; }
      SwapPublisher(CacheOf(topic, main), volatile.Some?);
      var oldQos, oldVolatileQos := readerQos, volatileReaderQos;
      readerQos, volatileReaderQos := main, volatile;
      ok := DeclareMatchingListener(o);
      if !ok {
        readerQos, volatileReaderQos := oldQos, oldVolatileQos;
        return;
      }
      ActivateIfMatching(o.second);
    }

    method SetVolatileReader(volatile: Option<Qos>, o: Outcome) returns (ok: bool)
      requires Valid()
      modifies this, dds
      ensures Valid() && (State(), ok) == VolatileSet(old(State()), volatile, o)
      ensures dds.live - Held() == old(dds.live - Held()) && dds.advertised - Held() == old(dds.advertised - Held())
    {
      hide Activated;
      if volatile.Some? && !o.volatilePublisher { return false; }
      DeactivateVolatileReader();
      volatileReaderQos, volatilePublisher := volatile, volatile.Some?;
      ActivateIfMatching(o.second);
      ok := true;
    }

    method UpdateLocalWriters(writers: seq<Qos>, o: Outcome) returns (ok: bool)
      requires Valid()
      modifies this, dds
      ensures Valid() && (State(), ok) == Update(topic, old(State()), writers, o)
      ensures dds.live - Held() == old(dds.live - Held()) && dds.advertised - Held() == old(dds.advertised - Held())
    {
      hide Desired, SameRouteQos, Reannounced, Rebuilt, VolatileSet;
      ok := Reannounce(writers, o);
      if !ok { return; }
      var (main, volatile) := Desired(topic, writers);
      if !SameRouteQos(readerQos, main, true) {
        ok := Rebuild(main, volatile, o);
      } else if !SameOption(volatileReaderQos, volatile, true) {
        ok := SetVolatileReader(volatile, o);
      }
    }

    method AddLocalNode(node: string, announceQos: Qos, token: bool)
      requires Valid()
      modifies this`localNodes, this`announcedQos
      ensures Valid() && State() == AddNode(old(State()), node, announceQos, token)
    {
      if node !in localNodes {
        localNodes := localNodes + {node};
        if |localNodes| == 1 && token {
          announcedQos := Some(announceQos);
        }
      }
    }

    method RemoveLocalNode(node: string)
      requires Valid()
      modifies this`localNodes, this`announcedQos, this`volatileAnnouncement
      ensures Valid() && State() == RemoveNode(old(State()), node)
    {
      if node in localNodes {
        localNodes := localNodes - {node};
        if localNodes == {} {
          announcedQos, volatileAnnouncement := None, None;
        }
      }
    }

    method AddRemoteRoute(remote: string, c: Creations)
      requires Valid()
      modifies this, dds
      ensures Valid() && (State(), true) == Step(topic, old(State()), RemoteAdded(remote, c))
      ensures dds.live - Held() == old(dds.live - Held()) && dds.advertised - Held() == old(dds.advertised - Held())
    {
      hide Activated;
      remoteRoutes := remoteRoutes + {remote};
      ActivateIfMatching(c);
    }

    method RemoveRemoteRoute(remote: string)
      requires Valid()
      modifies this, dds
      ensures Valid() && State() == RemoveRemote(old(State()), remote)
      ensures dds.live - Held() == old(dds.live - Held()) && dds.advertised - Held() == old(dds.advertised - Held())
    {
      remoteRoutes := remoteRoutes - {remote};
      if remoteRoutes == {} {
        Deactivate();
      }
    }

    method PruneRemoteRoutes(prefix: string) returns (pruned: bool)
      requires Valid()
      modifies this, dds
      ensures Valid() && State() == PruneRemotes(old(State()), prefix)
      ensures pruned <==> remoteRoutes != old(remoteRoutes)
      ensures dds.live - Held() == old(dds.live - Held()) && dds.advertised - Held() == old(dds.advertised - Held())
    {
      var before := remoteRoutes;
      remoteRoutes := set x | x in remoteRoutes && !StartsWith(x, prefix);
      pruned := remoteRoutes != before;
      if pruned && remoteRoutes == {} {
        Deactivate();
      }
    }

    /** Dropping the route undeclares its listener and deletes its Readers. */
    method Drop()
      requires Valid()
      modifies this, dds
      ensures Valid() && Held() == {} && !matchingListener
      ensures dds.live == old(dds.live - Held()) && dds.advertised == old(dds.advertised - Held())
    {
      matchingListener := false;
      Deactivate();
    }
  }
}

/**
 * The route manager: a (kind, name) is routed exactly while a local node or a remote bridge needs it,
 * and the admin space has one key per route.
 */
module Routes {
  import opened Wrappers
  import opened Text
  import opened NodeInfo
  import opened Names

  /** Stands among the local nodes for DDS Readers no node declares. */
  const MATCHED_READERS_KEY := "<matched_dds_readers>"

  datatype Route = Route(local: set<string>, remote: set<string>)

  datatype AdminKey = AdminKey(kind: Kind, ke: string)

  /** Routes of all kinds in one map, a route for publications having the kind of the local publisher. */
  datatype Mgr = Mgr(routes: map<Key, Route>, admin: set<AdminKey>)

  /** A local discovery event, `node` being a full name. */
  datatype LocalEvent =
    | Discovered(node: string, key: Key)
    | Undiscovered(node: string, key: Key)
    | LocalWritersChanged(name: string)

  /** What a remote bridge announces; `qos` is the encoded QoS, which only tells publishers apart. */
  datatype Announcement = Announcement(zid: string, kind: Kind, ke: string, qos: string)

  /** Results of the fallible calls: DDS info found, route created, DDS and zenoh entities updated. */
  datatype Outcome = Outcome(found: bool, created: bool, updated: bool)

  const NO_ROUTES := Mgr(map[], {})

  /** The kind of route serving a remote interface. */
  function Peer(kind: Kind): Kind {
    match kind
    case MsgPub => MsgSub
    case MsgSub => MsgPub
    case ServiceSrv => ServiceCli
    case ServiceCli => ServiceSrv
    case ActionSrv => ActionCli
    case ActionCli => ActionSrv
  }

  function RemoteKey(a: Announcement): string {
    a.zid + ":" + a.ke + if a.kind.MsgPub? then ":" + a.qos else ""
  }

  predicate OfBridge(remote: string, zid: string) {
    StartsWith(remote, zid + ":")
  }

  predicate Unused(r: Route) {
    r.local == {} && r.remote == {}
  }

  /** Subscriber routes are created without any fallible call. */
  predicate Obtained(routes: map<Key, Route>, k: Key, o: Outcome) {
    k in routes || k.kind.MsgSub? || o.created
  }

  function RouteAt(routes: map<Key, Route>, k: Key): Route {
    if k in routes then routes[k] else Route({}, {})
  }

  // ---- The events -------------------------------------------------------------------------

  function AdminOf(ns: string, k: Key): AdminKey
    requires ValidNamespace(ns) && k.name != ""
  {
    AdminKey(k.kind, KeyOf(ns, k.name))
  }

  /** A route gets or keeps its place in the map and in the admin space. */
  function Put(ns: string, s: Mgr, k: Key, r: Route): Mgr
    requires ValidNamespace(ns) && k.name != ""
  {
    Mgr(s.routes[k := r], if k in s.routes then s.admin else s.admin + {AdminOf(ns, k)})
  }

  /** A route that lost a user goes once it has none, and the key it is known by in the admin space. */
  function Settle(s: Mgr, k: Key, r: Route, admin: AdminKey): Mgr {
    if Unused(r) then Mgr(s.routes - {k}, s.admin - {admin}) else s.(routes := s.routes[k := r])
  }

  predicate ValidLocal(e: LocalEvent) {
    !e.LocalWritersChanged? ==> e.key.name != ""
  }

  /** `on_ros_discovery_event`, with whether it succeeds. */
  function OnDiscovery(ns: string, s: Mgr, e: LocalEvent, o: Outcome): (Mgr, bool)
    requires ValidNamespace(ns) && ValidLocal(e)
  {
    match e
    case Discovered(node, k) =>
      if (IsTopic(k.kind) && !o.found) || !Obtained(s.routes, k, o) then (s, false)
      else
        var r := RouteAt(s.routes, k);
        (Put(ns, s, k, r.(local := r.local + {node})), k.kind.MsgPub? ==> o.updated)
    case Undiscovered(node, k) =>
      if k !in s.routes then (s, true)
      else
        var r := s.routes[k].(local := s.routes[k].local - {node});
        (Settle(s, k, r, AdminOf(ns, k)), Unused(r) || (k.kind.MsgPub? ==> o.updated))
    case LocalWritersChanged(name) => (s, Key(MsgPub, name) in s.routes ==> o.updated)
  }

  predicate ValidRemote(ns: string, a: Announcement)
    requires ValidNamespace(ns)
  {
    NameOf(ns, a.ke) != ""
  }

  function TargetKey(ns: string, a: Announcement): Key
    requires ValidNamespace(ns)
  {
    Key(Peer(a.kind), NameOf(ns, a.ke))
  }

  /** `on_ros_announcement_event`: `announced` or retired, with whether it succeeds. */
  function OnAnnouncement(ns: string, s: Mgr, announced: bool, a: Announcement, o: Outcome): (Mgr, bool)
    requires ValidNamespace(ns) && ValidRemote(ns, a)
  {
    var k := TargetKey(ns, a);
    if announced then
      if !Obtained(s.routes, k, o) then (s, false)
      else
        var r := RouteAt(s.routes, k);
        (Put(ns, s, k, r.(remote := r.remote + {RemoteKey(a)})), a.kind.MsgPub? ==> o.updated)
    else if k !in s.routes then (s, true)
    else
      var r := s.routes[k].(remote := s.routes[k].remote - {RemoteKey(a)});
      (Settle(s, k, r, AdminKey(k.kind, a.ke)), Unused(r) || (a.kind.MsgPub? ==> o.updated))
  }

  /** `on_matched_reader_event`. */
  function OnMatchedReader(s: Mgr, name: string, matched: bool): Mgr {
    var k := Key(MsgSub, name);
    if k !in s.routes then s
    else
      var r := s.routes[k];
      var local := if matched then r.local + {MATCHED_READERS_KEY} else r.local - {MATCHED_READERS_KEY};
      s.(routes := s.routes[k := r.(local := local)])
  }

  function Pruned(r: Route, zid: string): Route {
    r.(remote := set x | x in r.remote && !OfBridge(x, zid))
  }

  /** A route loses entries of the bridge and with them its last users. */
  predicate Dropped(r: Route, zid: string) {
    Pruned(r, zid) != r && Unused(Pruned(r, zid))
  }

  predicate ProperNames(routes: map<Key, Route>) {
    forall k | k in routes :: k.name != ""
  }

  /** `on_remote_bridge_left`. */
  function OnBridgeLeft(ns: string, s: Mgr, zid: string): Mgr
    requires ValidNamespace(ns) && ProperNames(s.routes)
  {
    Mgr(map k | k in s.routes && !Dropped(s.routes[k], zid) :: Pruned(s.routes[k], zid),
        s.admin - set k | k in s.routes && Dropped(s.routes[k], zid) :: AdminOf(ns, k))
  }

  // ---- What is needed ---------------------------------------------------------------------

  /**
   * Who needs what, no map of routes involved. `lingering` are the subscriber routes whose only user
   * was matched readers: nothing takes them away before the next event about them.
   */
  datatype Needs = Needs(local: set<(Key, string)>, remote: set<(Key, string)>, lingering: set<Key>)

  const NO_NEEDS := Needs({}, {}, {})

  predicate Needed(n: Needs, k: Key) {
    (exists x | x in n.local :: x.0 == k) || exists x | x in n.remote :: x.0 == k
  }

  function NeedsAfterDiscovery(n: Needs, e: LocalEvent, obtained: bool): Needs {
    match e
    case Discovered(node, k) =>
      if obtained then n.(local := n.local + {(k, node)}, lingering := n.lingering - {k}) else n
    case Undiscovered(node, k) => n.(local := n.local - {(k, node)}, lingering := n.lingering - {k})
    case LocalWritersChanged(_) => n
  }

  function NeedsAfterAnnouncement(ns: string, n: Needs, announced: bool, a: Announcement, obtained: bool): Needs
    requires ValidNamespace(ns)
  {
    var k := TargetKey(ns, a);
    if announced then
      if obtained then n.(remote := n.remote + {(k, RemoteKey(a))}, lingering := n.lingering - {k}) else n
    else n.(remote := n.remote - {(k, RemoteKey(a))}, lingering := n.lingering - {k})
  }

  function NeedsAfterMatched(n: Needs, name: string, matched: bool): Needs {
    var k := Key(MsgSub, name);
    if !Needed(n, k) && k !in n.lingering then n
    else if matched then n.(local := n.local + {(k, MATCHED_READERS_KEY)}, lingering := n.lingering - {k})
    else
      var n' := n.(local := n.local - {(k, MATCHED_READERS_KEY)});
      if Needed(n', k) then n' else n'.(lingering := n'.lingering + {k})
  }

  function NeedsAfterBridgeLeft(n: Needs, zid: string): Needs {
    n.(remote := set x | x in n.remote && !OfBridge(x.1, zid))
  }

  // ---- The refinement ---------------------------------------------------------------------

  ghost predicate RoutesMatch(routes: map<Key, Route>, n: Needs) {
    (forall k :: k in routes <==> Needed(n, k) || k in n.lingering)
    && (forall k, node | k in routes :: node in routes[k].local <==> (k, node) in n.local)
    && (forall k, x | k in routes :: x in routes[k].remote <==> (k, x) in n.remote)
    && forall k | k in n.lingering :: k.kind.MsgSub? && !Needed(n, k)
  }

  ghost predicate AdminMatch(ns: string, s: Mgr)
    requires ValidNamespace(ns)
  {
    (forall k | k in s.routes :: StartsWith(k.name, "/"))
    && s.admin == set k | k in s.routes && k.name != "" :: AdminOf(ns, k)
  }

  ghost predicate Exact(ns: string, s: Mgr, n: Needs)
    requires ValidNamespace(ns)
  {
    RoutesMatch(s.routes, n) && AdminMatch(ns, s)
  }

  lemma AdminPut(ns: string, s: Mgr, k: Key, r: Route)
    requires ValidNamespace(ns) && AdminMatch(ns, s) && StartsWith(k.name, "/")
    ensures AdminMatch(ns, Put(ns, s, k, r))
  {
  }

  lemma AdminSettle(ns: string, s: Mgr, k: Key, r: Route)
    requires ValidNamespace(ns) && AdminMatch(ns, s) && k in s.routes
    ensures k.name != "" && AdminMatch(ns, Settle(s, k, r, AdminOf(ns, k)))
  {
    var s' := Settle(s, k, r, AdminOf(ns, k));
    forall j | j in s.routes && j != k ensures AdminOf(ns, j) != AdminOf(ns, k) {
      if j.kind == k.kind && KeyOf(ns, j.name) == KeyOf(ns, k.name) {
        KeysDistinct(ns, j.name, k.name);
      }
    }
    hide KeyOf;
    assert s'.admin == set j | j in s'.routes && j.name != "" :: AdminOf(ns, j);
  }

  /** Only the needs of `k` changed, as its route did. */
  lemma MatchOne(routes: map<Key, Route>, n: Needs, routes': map<Key, Route>, n': Needs, k: Key)
    requires RoutesMatch(routes, n)
    requires forall j | j != k :: (j in routes' <==> j in routes) && (j in routes ==> routes'[j] == routes[j])
    requires forall j, x | j != k ::
               ((j, x) in n'.local <==> (j, x) in n.local) && ((j, x) in n'.remote <==> (j, x) in n.remote)
    requires forall j | j != k :: j in n'.lingering <==> j in n.lingering
    requires k in routes' <==> Needed(n', k) || k in n'.lingering
    requires k in routes' ==> (forall node :: node in routes'[k].local <==> (k, node) in n'.local)
                              && forall x :: x in routes'[k].remote <==> (k, x) in n'.remote
    requires k in n'.lingering ==> k.kind.MsgSub? && !Needed(n', k)
    ensures RoutesMatch(routes', n')
  {
  }

  /** A route's users are the ones who need it. */
  lemma UsersNeed(r: Route, n: Needs, k: Key)
    requires forall node :: node in r.local <==> (k, node) in n.local
    requires forall x :: x in r.remote <==> (k, x) in n.remote
    ensures Needed(n, k) <==> !Unused(r)
  {
  }

  lemma NotNeeded(n: Needs, k: Key)
    requires !Needed(n, k)
    ensures forall x :: (k, x) !in n.local && (k, x) !in n.remote
  {
  }

  lemma DiscoveryExact(ns: string, s: Mgr, n: Needs, e: LocalEvent, o: Outcome)
    requires ValidNamespace(ns) && Exact(ns, s, n) && (e.LocalWritersChanged? || StartsWith(e.key.name, "/"))
    ensures Exact(ns, OnDiscovery(ns, s, e, o).0,
                  NeedsAfterDiscovery(n, e, e.Discovered? && (IsTopic(e.key.kind) ==> o.found)
                      && Obtained(s.routes, e.key, o)))
  {
    hide AdminMatch, KeyOf;
    match e
    case LocalWritersChanged(_) =>
    case Discovered(node, k) =>
      if (IsTopic(k.kind) ==> o.found) && Obtained(s.routes, k, o) {
        var r := RouteAt(s.routes, k).(local := RouteAt(s.routes, k).local + {node});
        AdminPut(ns, s, k, r);
        var n' := NeedsAfterDiscovery(n, e, true);
        if k !in s.routes {
          NotNeeded(n, k);
        }
        assert (k, node) in n'.local && (k, node).0 == k;
        MatchOne(s.routes, n, s.routes[k := r], n', k);
      }
    case Undiscovered(node, k) =>
      var n' := NeedsAfterDiscovery(n, e, false);
      if k in s.routes {
        var r := s.routes[k].(local := s.routes[k].local - {node});
        AdminSettle(ns, s, k, r);
        UsersNeed(r, n', k);
        MatchOne(s.routes, n, OnDiscovery(ns, s, e, o).0.routes, n', k);
      } else {
        NotNeeded(n, k);
        assert n' == n;
      }
  }

  lemma AnnouncementExact(ns: string, s: Mgr, n: Needs, announced: bool, a: Announcement, o: Outcome)
    requires ValidNamespace(ns) && Exact(ns, s, n) && ValidRemote(ns, a) && Under(ns, a.ke)
    ensures Exact(ns, OnAnnouncement(ns, s, announced, a, o).0,
                  NeedsAfterAnnouncement(ns, n, announced, a, Obtained(s.routes, TargetKey(ns, a), o)))
  {
    KeyRoundTrip(ns, a.ke);
    hide AdminMatch, KeyOf, NameOf, Under;
    var k, x := TargetKey(ns, a), RemoteKey(a);
    var n' := NeedsAfterAnnouncement(ns, n, announced, a, Obtained(s.routes, k, o));
    if k !in s.routes {
      NotNeeded(n, k);
    }
    if announced {
      if Obtained(s.routes, k, o) {
        var r := RouteAt(s.routes, k).(remote := RouteAt(s.routes, k).remote + {x});
        AdminPut(ns, s, k, r);
        assert (k, x) in n'.remote && (k, x).0 == k;
        MatchOne(s.routes, n, s.routes[k := r], n', k);
      }
    } else if k in s.routes {
      var r := s.routes[k].(remote := s.routes[k].remote - {x});
      AdminSettle(ns, s, k, r);
      UsersNeed(r, n', k);
      MatchOne(s.routes, n, OnAnnouncement(ns, s, announced, a, o).0.routes, n', k);
    } else {
      assert n' == n;
    }
  }

  lemma MatchedExact(ns: string, s: Mgr, n: Needs, name: string, matched: bool)
    requires ValidNamespace(ns) && Exact(ns, s, n)
    ensures Exact(ns, OnMatchedReader(s, name, matched), NeedsAfterMatched(n, name, matched))
  {
    hide KeyOf;
    var k := Key(MsgSub, name);
    if k in s.routes {
      var s', n' := OnMatchedReader(s, name, matched), NeedsAfterMatched(n, name, matched);
      assert forall j :: j in s'.routes <==> j in s.routes;
      if matched {
        assert (k, MATCHED_READERS_KEY) in n'.local && (k, MATCHED_READERS_KEY).0 == k;
      }
      MatchOne(s.routes, n, s'.routes, n', k);
    }
  }

  lemma BridgeLeftExact(ns: string, s: Mgr, n: Needs, zid: string)
    requires ValidNamespace(ns) && Exact(ns, s, n) && ProperNames(s.routes)
    ensures Exact(ns, OnBridgeLeft(ns, s, zid), NeedsAfterBridgeLeft(n, zid))
  {
    var s', n' := OnBridgeLeft(ns, s, zid), NeedsAfterBridgeLeft(n, zid);
    assert AdminMatch(ns, s') by { AdminBridgeLeft(ns, s, zid); }
    hide KeyOf, OfBridge, AdminMatch;
    forall k ensures k in s'.routes <==> Needed(n', k) || k in n'.lingering {
      if k in s.routes {
        UsersNeed(s.routes[k], n, k);
        UsersNeed(Pruned(s.routes[k], zid), n', k);
      } else {
        NotNeeded(n, k);
      }
    }
  }

  lemma AdminBridgeLeft(ns: string, s: Mgr, zid: string)
    requires ValidNamespace(ns) && AdminMatch(ns, s) && ProperNames(s.routes)
    ensures AdminMatch(ns, OnBridgeLeft(ns, s, zid))
  {
    var s' := OnBridgeLeft(ns, s, zid);
    hide Dropped;
    forall j, k | j in s.routes && k in s.routes && j != k ensures AdminOf(ns, j) != AdminOf(ns, k) {
      if j.kind == k.kind && KeyOf(ns, j.name) == KeyOf(ns, k.name) {
        KeysDistinct(ns, j.name, k.name);
      }
    }
    hide KeyOf;
    forall key ensures key in s'.admin <==> key in set j | j in s'.routes && j.name != "" :: AdminOf(ns, j) {
      if j :| j in s.routes && AdminOf(ns, j) == key {
        assert j in s'.routes <==> !Dropped(s.routes[j], zid);
      }
    }
  }

  // ---- Runs -------------------------------------------------------------------------------

  datatype Op =
    | Local(e: LocalEvent, o: Outcome)
    | Remote(announced: bool, a: Announcement, o: Outcome)
    | MatchedReader(name: string, matched: bool)
    | BridgeLeft(zid: string)

  /** Interface names are absolute and announced keys lie under the namespace. */
  predicate Proper(ns: string, op: Op)
    requires ValidNamespace(ns)
  {
    match op
    case Local(e, _) => e.LocalWritersChanged? || StartsWith(e.key.name, "/")
    case Remote(_, a, _) => ValidRemote(ns, a) && Under(ns, a.ke)
    case _ => true
  }

  predicate AbsoluteNames(s: Mgr) {
    forall k | k in s.routes :: StartsWith(k.name, "/")
  }

  function Apply(ns: string, s: Mgr, op: Op): (r: Mgr)
    requires ValidNamespace(ns) && Proper(ns, op) && AbsoluteNames(s)
    ensures AbsoluteNames(r)
  {
    match op
    case Local(e, o) => OnDiscovery(ns, s, e, o).0
    case Remote(announced, a, o) =>
      KeyRoundTrip(ns, a.ke);
      OnAnnouncement(ns, s, announced, a, o).0
    case MatchedReader(name, matched) => OnMatchedReader(s, name, matched)
    case BridgeLeft(zid) => OnBridgeLeft(ns, s, zid)
  }

  /** The needs after a step, whose fallible calls tell what was obtained. */
  function Need(ns: string, s: Mgr, n: Needs, op: Op): Needs
    requires ValidNamespace(ns) && Proper(ns, op)
  {
    match op
    case Local(e, o) =>
      NeedsAfterDiscovery(n, e, e.Discovered? && (IsTopic(e.key.kind) ==> o.found) && Obtained(s.routes, e.key, o))
    case Remote(announced, a, o) => NeedsAfterAnnouncement(ns, n, announced, a, Obtained(s.routes, TargetKey(ns, a), o))
    case MatchedReader(name, matched) => NeedsAfterMatched(n, name, matched)
    case BridgeLeft(zid) => NeedsAfterBridgeLeft(n, zid)
  }

  function Run(ns: string, s: Mgr, n: Needs, ops: seq<Op>): (Mgr, Needs)
    requires ValidNamespace(ns) && (forall op | op in ops :: Proper(ns, op)) && AbsoluteNames(s)
    decreases ops
  {
    if ops == [] then (s, n) else Run(ns, Apply(ns, s, ops[0]), Need(ns, s, n, ops[0]), ops[1..])
  }

  lemma StepExact(ns: string, s: Mgr, n: Needs, op: Op)
    requires ValidNamespace(ns) && Proper(ns, op) && AbsoluteNames(s) && Exact(ns, s, n)
    ensures Exact(ns, Apply(ns, s, op), Need(ns, s, n, op))
  {
    hide Exact;
    match op
    case Local(e, o) => DiscoveryExact(ns, s, n, e, o);
    case Remote(announced, a, o) => AnnouncementExact(ns, s, n, announced, a, o);
    case MatchedReader(name, matched) => MatchedExact(ns, s, n, name, matched);
    case BridgeLeft(zid) => BridgeLeftExact(ns, s, n, zid);
  }

  lemma {:induction false} RunExact(ns: string, s: Mgr, n: Needs, ops: seq<Op>)
    requires ValidNamespace(ns) && (forall op | op in ops :: Proper(ns, op)) && AbsoluteNames(s) && Exact(ns, s, n)
    ensures Exact(ns, Run(ns, s, n, ops).0, Run(ns, s, n, ops).1)
    decreases ops
  {
    hide Exact, Proper, Apply, Need;
    if ops != [] {
      StepExact(ns, s, n, ops[0]);
      RunExact(ns, Apply(ns, s, ops[0]), Need(ns, s, n, ops[0]), ops[1..]);
    }
  }

  lemma {:induction false} NothingLingers(ns: string, s: Mgr, n: Needs, ops: seq<Op>)
    requires ValidNamespace(ns) && (forall op | op in ops :: Proper(ns, op)) && AbsoluteNames(s)
    requires n.lingering == {} && forall op | op in ops :: !op.MatchedReader?
    ensures Run(ns, s, n, ops).1.lingering == {}
    decreases ops
  {
    hide Proper, Apply;
    if ops != [] {
      assert ops[0] in ops;
      NothingLingers(ns, Apply(ns, s, ops[0]), Need(ns, s, n, ops[0]), ops[1..]);
    }
  }

  /**
   * After any run, a (kind, name) has a route exactly when a local node or a remote bridge needs it;
   * for subscriber routes if no matched-reader events occurred.
   */
  lemma RoutedIffNeeded(ns: string, ops: seq<Op>, k: Key)
    requires ValidNamespace(ns) && (forall op | op in ops :: Proper(ns, op))
    requires !k.kind.MsgSub? || forall op | op in ops :: !op.MatchedReader?
    ensures var (s, n) := Run(ns, NO_ROUTES, NO_NEEDS, ops);
            (k in s.routes <==> Needed(n, k))
            && (k in s.routes ==>
                  s.routes[k]
                  == Route(set x | x in n.local && x.0 == k :: x.1, set x | x in n.remote && x.0 == k :: x.1))
  {
    hide AdminMatch;
    EmptyExact(ns);
    RunExact(ns, NO_ROUTES, NO_NEEDS, ops);
    if k.kind.MsgSub? {
      NothingLingers(ns, NO_ROUTES, NO_NEEDS, ops);
    }
    var (s, n) := Run(ns, NO_ROUTES, NO_NEEDS, ops);
    if k in s.routes {
      forall x ensures x in s.routes[k].local <==> x in set y | y in n.local && y.0 == k :: y.1 {
        assert x in s.routes[k].local <==> (k, x) in n.local;
        assert (k, x).0 == k && (k, x).1 == x;
      }
      forall x ensures x in s.routes[k].remote <==> x in set y | y in n.remote && y.0 == k :: y.1 {
        assert x in s.routes[k].remote <==> (k, x) in n.remote;
        assert (k, x).0 == k && (k, x).1 == x;
      }
    }
  }

  lemma EmptyExact(ns: string)
    requires ValidNamespace(ns)
    ensures Exact(ns, NO_ROUTES, NO_NEEDS)
  {
  }

  /** The admin space holds one key for each route and nothing else. */
  lemma OneAdminKeyEach(ns: string, ops: seq<Op>)
    requires ValidNamespace(ns) && (forall op | op in ops :: Proper(ns, op))
    ensures var s := Run(ns, NO_ROUTES, NO_NEEDS, ops).0;
            AbsoluteNames(s) && s.admin == (set k | k in s.routes :: AdminKey(k.kind, KeyOf(ns, k.name)))
            && forall j, k | j in s.routes && k in s.routes && j != k ::
                 AdminKey(j.kind, KeyOf(ns, j.name)) != AdminKey(k.kind, KeyOf(ns, k.name))
  {
    EmptyExact(ns);
    RunExact(ns, NO_ROUTES, NO_NEEDS, ops);
    var s := Run(ns, NO_ROUTES, NO_NEEDS, ops).0;
    forall j, k | j in s.routes && k in s.routes && j != k && j.kind == k.kind
        ensures KeyOf(ns, j.name) != KeyOf(ns, k.name) {
      if KeyOf(ns, j.name) == KeyOf(ns, k.name) {
        KeysDistinct(ns, j.name, k.name);
      }
    }
  }

  // ---- Where the claims end ---------------------------------------------------------------

  /**
   * Announcing a new route and retiring it leaves the admin space as it was exactly for keys under the
   * namespace.
   */
  lemma RetireCleans(ns: string, s: Mgr, a: Announcement, o: Outcome, o': Outcome)
    requires ValidNamespace(ns) && ValidRemote(ns, a) && Obtained(s.routes, TargetKey(ns, a), o)
    requires TargetKey(ns, a) !in s.routes && AdminOf(ns, TargetKey(ns, a)) !in s.admin
    ensures var s' := OnAnnouncement(ns, OnAnnouncement(ns, s, true, a, o).0, false, a, o').0;
            s'.routes == s.routes && (s'.admin == s.admin <==> Under(ns, a.ke))
  {
    KeyRoundTrip(ns, a.ke);
    hide KeyOf, NameOf, Under;
    var k, nobody: set<string> := TargetKey(ns, a), {};
    var s1 := OnAnnouncement(ns, s, true, a, o).0;
    assert nobody + {RemoteKey(a)} == {RemoteKey(a)};
    assert s1 == Mgr(s.routes[k := Route({}, {RemoteKey(a)})], s.admin + {AdminOf(ns, k)});
    var s' := OnAnnouncement(ns, s1, false, a, o').0;
    assert Route({}, {RemoteKey(a)} - {RemoteKey(a)}) == Route({}, {});
    assert s' == Mgr(s1.routes - {k}, s1.admin - {AdminKey(k.kind, a.ke)});
    assert s1.routes - {k} == s.routes;
    assert AdminOf(ns, k) in s'.admin <==> a.ke != KeyOf(ns, k.name);
  }

  /** A key that only starts like the namespace leaves its admin key behind. */
  lemma RetireLeaves(o: Outcome, o': Outcome)
    requires o.created
    ensures var a := Announcement("z", MsgSub, "bottle/x", "");
            ValidRemote("/bot", a)
            && var s := OnAnnouncement("/bot", OnAnnouncement("/bot", NO_ROUTES, true, a, o).0, false, a, o').0;
               s.routes == map[] && s.admin != {}
  {
    var a := Announcement("z", MsgSub, "bottle/x", "");
    KeyOutsideNamespace();
    assert TargetKey("/bot", a) == Key(MsgPub, "tle/x");
    assert KeyOf("/bot", "tle/x") == "bot/le/x" && "bot/le/x" != "bottle/x";
    KeyRoundTrip("/bot", a.ke);
    RetireCleans("/bot", NO_ROUTES, a, o, o');
  }

  /** A matched-reader event leaves an unused route behind exactly if the readers leaving were its only users. */
  lemma MatchedLeavesUnused(s: Mgr, name: string, matched: bool)
    requires forall k | k in s.routes :: !Unused(s.routes[k])
    ensures (exists k | k in OnMatchedReader(s, name, matched).routes ::
            Unused(OnMatchedReader(s, name, matched).routes[k]))
       <==> (!matched && Key(MsgSub, name) in s.routes
           && s.routes[Key(MsgSub, name)] == Route({MATCHED_READERS_KEY}, {}))
  {
    var k := Key(MsgSub, name);
    var s' := OnMatchedReader(s, name, matched);
    if k in s.routes {
      assert k in s'.routes;
      if Unused(s'.routes[k]) {
        assert s.routes[k].local != {};
        assert s.routes[k].local == {MATCHED_READERS_KEY};
      }
    }
  }

  /**
   * A run that leaves one: a remote publisher comes, local readers match, the publisher goes, and the readers
   * go last.
   */
  lemma MatchedLeftover(ns: string, zid: string, name: string, qos: string, o: Outcome)
    requires ValidNamespace(ns) && StartsWith(name, "/")
    ensures var a, k := Announcement(zid, MsgPub, KeyOf(ns, name), qos), Key(MsgSub, name);
            var ops := [Remote(true, a, o), MatchedReader(name, true), Remote(false, a, o), MatchedReader(name, false)];
            (forall op | op in ops :: Proper(ns, op))
            && var routes := Run(ns, NO_ROUTES, NO_NEEDS, ops).0.routes;
               k in routes && Unused(routes[k])
  {
    NameRoundTrip(ns, name);
    hide KeyOf, NameOf, Under, Apply, Need, AdminMatch, Run;
    var a, k := Announcement(zid, MsgPub, KeyOf(ns, name), qos), Key(MsgSub, name);
    var ops := [Remote(true, a, o), MatchedReader(name, true), Remote(false, a, o), MatchedReader(name, false)];
    RunFour(ns, ops[0], ops[1], ops[2], ops[3]);
    EmptyExact(ns);
    RunExact(ns, NO_ROUTES, NO_NEEDS, ops);
    forall s1, s2, s3 ensures NeedsOfFour(ns, s1, s2, s3, ops) == Needs({}, {}, {k}) {
      OnlyLingering(ns, name, a, s1, s2, s3, o);
    }
    var (s4, n4) := Run(ns, NO_ROUTES, NO_NEEDS, ops);
    assert RoutesMatch(s4.routes, n4);
    assert s4.routes[k].local == {} && s4.routes[k].remote == {};
  }

  lemma RunFour(ns: string, a: Op, b: Op, c: Op, d: Op)
    requires ValidNamespace(ns) && forall op | op in {a, b, c, d} :: Proper(ns, op)
    ensures var s1 := Apply(ns, NO_ROUTES, a);
            var s2 := Apply(ns, s1, b);
            var s3 := Apply(ns, s2, c);
            Run(ns, NO_ROUTES, NO_NEEDS, [a, b, c, d])
            == (Apply(ns, s3, d), NeedsOfFour(ns, s1, s2, s3, [a, b, c, d]))
  {
    hide Apply, Need, Proper;
    assert [a, b, c, d][1..] == [b, c, d] && [b, c, d][1..] == [c, d] && [c, d][1..] == [d] && [d][1..] == [];
    var s1, n1 := Apply(ns, NO_ROUTES, a), Need(ns, NO_ROUTES, NO_NEEDS, a);
    var s2, n2 := Apply(ns, s1, b), Need(ns, s1, n1, b);
    var s3, n3 := Apply(ns, s2, c), Need(ns, s2, n2, c);
    var s4, n4 := Apply(ns, s3, d), Need(ns, s3, n3, d);
    assert Run(ns, s4, n4, []) == (s4, n4);
    assert Run(ns, s3, n3, [d]) == (s4, n4);
    assert Run(ns, s2, n2, [c, d]) == (s4, n4);
    assert Run(ns, s1, n1, [b, c, d]) == (s4, n4);
  }

  /** What is needed after four steps, met in the states given. */
  function NeedsOfFour(ns: string, s1: Mgr, s2: Mgr, s3: Mgr, ops: seq<Op>): Needs
    requires ValidNamespace(ns) && |ops| == 4 && forall op | op in ops :: Proper(ns, op)
  {
    Need(ns, s3, Need(ns, s2, Need(ns, s1, Need(ns, NO_ROUTES, NO_NEEDS, ops[0]), ops[1]), ops[2]), ops[3])
  }

  lemma OnlyLingering(ns: string, name: string, a: Announcement, s1: Mgr, s2: Mgr, s3: Mgr, o: Outcome)
    requires ValidNamespace(ns) && Proper(ns, Remote(true, a, o)) && a.kind == MsgPub && NameOf(ns, a.ke) == name
    ensures NeedsOfFour(ns, s1, s2, s3,
                          [Remote(true, a, o), MatchedReader(name, true), Remote(false, a, o),
                           MatchedReader(name, false)])
            == Needs({}, {}, {Key(MsgSub, name)})
  {
    hide KeyOf, NameOf, Under;
    var k := Key(MsgSub, name);
    var n1 := Need(ns, NO_ROUTES, NO_NEEDS, Remote(true, a, o));
    assert n1.remote == {(k, RemoteKey(a))} && n1.local == {} && n1.lingering == {};
    var n2 := Need(ns, s1, n1, MatchedReader(name, true));
    assert (k, RemoteKey(a)) in n1.remote;
    assert n2.local == {(k, MATCHED_READERS_KEY)} && n2.remote == n1.remote && n2.lingering == {};
    var n3 := Need(ns, s2, n2, Remote(false, a, o));
    assert n3.local == n2.local && n3.remote == {} && n3.lingering == {};
    var n4 := Need(ns, s3, n3, MatchedReader(name, false));
    assert (k, MATCHED_READERS_KEY) in n3.local;
    assert n4.local == {} && n4.remote == {} && n4.lingering == {k};
  }
}

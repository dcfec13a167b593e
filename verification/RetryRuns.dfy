/**
 * Retries never make ghost routes: over every run of the main loop, what waits for a retry is the
 * latest word about its interface, and so is whatever a route serves.
 */
module RetryRuns {
  import opened Wrappers
  import opened Text
  import opened NodeInfo
  import opened Names
  import opened Routes
  import opened Retry

  /** The remote route a notice is about: who is served, by which entry. */
  function RefOf(ns: string, n: Notice): (Key, string)
    requires ValidNamespace(ns)
  {
    (TargetKey(ns, n.a), RemoteKey(n.a))
  }

  /** The latest allowed event about each interface and the latest allowed notice about each remote route. */
  datatype Log = Log(events: map<InterfaceKey, LocalEvent>, notices: map<(Key, string), bool>)

  function Record(c: Config, log: Log, op: Retry.Op): Log
    requires ValidNamespace(c.ns)
  {
    match op
    case Heard(e, _) => if IsAllowed(c, e) then log.(events := log.events[KeyOfEvent(e) := e]) else log
    case HeardNotice(n, _) =>
      if IsAnnouncementAllowed(c, n) then log.(notices := log.notices[RefOf(c.ns, n) := n.announced]) else log
    case _ => log
  }

  predicate Serves(s: Mgr, k: Key, node: string) {
    k in s.routes && node in s.routes[k].local
  }

  predicate Feeds(s: Mgr, k: Key, x: string) {
    k in s.routes && x in s.routes[k].remote
  }

  // ---- The invariant ----------------------------------------------------------------------

  predicate LatestEvent(log: Log, e: LocalEvent) {
    KeyOfEvent(e) in log.events && log.events[KeyOfEvent(e)] == e
  }

  predicate LatestNotice(ns: string, log: Log, n: Notice)
    requires ValidNamespace(ns)
  {
    RefOf(ns, n) in log.notices && log.notices[RefOf(ns, n)] == n.announced
  }

  /** Queued events are the latest ones about their interfaces, one each, retried at most 10 times. */
  ghost predicate EventQueue(log: Log, q: Queue<LocalEvent>) {
    (forall x | x in q :: 1 <= x.1 <= MAX_EVENT_RETRIES && LatestEvent(log, x.0))
    && forall i, j | 0 <= i < j < |q| :: KeyOfEvent(q[i].0) != KeyOfEvent(q[j].0)
  }

  ghost predicate NoticeQueue(ns: string, log: Log, q: Queue<Notice>)
    requires ValidNamespace(ns)
  {
    (forall x | x in q :: 1 <= x.1 <= MAX_EVENT_RETRIES && NoticeId(x.0).Some? && LatestNotice(ns, log, x.0))
    && forall i, j | 0 <= i < j < |q| :: NoticeId(q[i].0) != NoticeId(q[j].0)
  }

  /** A route only serves nodes whose latest event is a discovery. */
  ghost predicate NodesLatest(log: Log, s: Mgr) {
    forall k, node | Serves(s, k, node) && node != MATCHED_READERS_KEY :: LatestEvent(log, Discovered(node, k))
  }

  /** A route only serves remote routes whose latest notice is an announcement. */
  ghost predicate RemotesLatest(log: Log, s: Mgr) {
    forall k, x | Feeds(s, k, x) :: (k, x) in log.notices && log.notices[(k, x)]
  }

  ghost predicate Pending(e: LocalEvent, q: Queue<LocalEvent>) {
    exists x | x in q :: x.0 == e
  }

  /** A node discovered last is served, or the event waits for a retry, or it was given up. */
  ghost predicate NodesKept(log: Log, s: Mgr, q: Queue<LocalEvent>, abandoned: set<InterfaceKey>) {
    forall k, node | LatestEvent(log, Discovered(node, k)) ::
      Serves(s, k, node) || Pending(Discovered(node, k), q) || KeyOfEvent(Discovered(node, k)) in abandoned
  }

  ghost predicate Inv(c: Config, log: Log, l: Loop)
    requires ValidNamespace(c.ns)
  {
    EventQueue(log, l.retries) && NoticeQueue(c.ns, log, l.notices) && NodesLatest(log, l.mgr)
        && RemotesLatest(log, l.mgr)
    && NodesKept(log, l.mgr, l.retries, l.abandoned)
  }

  // ---- What the events do to the users of routes ------------------------------------------

  lemma DiscoveryUsers(ns: string, s: Mgr, e: LocalEvent, o: Outcome)
    requires ValidNamespace(ns) && ValidLocal(e)
    ensures var (s', ok) := OnDiscovery(ns, s, e, o);
            (forall k, node | Serves(s', k, node) :: Serves(s, k, node) || e == Discovered(node, k))
            && (forall k, node | Serves(s, k, node) && e != Undiscovered(node, k) :: Serves(s', k, node))
            && (e.Undiscovered? ==> !Serves(s', e.key, e.node))
            && (e.Discovered? && ok ==> Serves(s', e.key, e.node))
            && (forall k, x :: Feeds(s', k, x) <==> Feeds(s, k, x))
  {
    hide KeyOf;
  }

  lemma AnnouncementUsers(ns: string, s: Mgr, n: Notice, o: Outcome)
    requires ValidNamespace(ns) && ValidRemote(ns, n.a)
    ensures var s' := OnAnnouncement(ns, s, n.announced, n.a, o).0;
            (forall k, node :: Serves(s', k, node) <==> Serves(s, k, node))
            && (forall k, x | Feeds(s', k, x) :: Feeds(s, k, x) || (n.announced && (k, x) == RefOf(ns, n)))
            && (!n.announced ==> !Feeds(s', RefOf(ns, n).0, RefOf(ns, n).1))
  {
    hide KeyOf, NameOf, RemoteKey;
  }

  lemma BridgeLeftUsers(ns: string, s: Mgr, zid: string)
    requires ValidNamespace(ns) && ProperNames(s.routes)
    ensures var s' := OnBridgeLeft(ns, s, zid);
            (forall k, node :: Serves(s', k, node) <==> Serves(s, k, node))
            && (forall k, x :: Feeds(s', k, x) <==> Feeds(s, k, x) && !OfBridge(x, zid))
  {
    hide KeyOf, OfBridge;
    forall k, x | k in s.routes
      ensures x in Routes.Pruned(s.routes[k], zid).remote <==> Feeds(s, k, x) && !OfBridge(x, zid)
    {
    }
  }

  lemma MatchedUsers(s: Mgr, name: string, matched: bool)
    ensures var s' := OnMatchedReader(s, name, matched);
            (forall k, node | node != MATCHED_READERS_KEY :: Serves(s', k, node) <==> Serves(s, k, node))
            && (forall k, x :: Feeds(s', k, x) <==> Feeds(s, k, x))
  {
  }

  // ---- The identity of notices ------------------------------------------------------------

  /** Two topic notices have the same id exactly when they are about the same remote route. */
  lemma SameId(ns: string, m: Notice, n: Notice)
    requires ValidNamespace(ns) && ProperNotice(ns, m) && ProperNotice(ns, n) && NoticeId(m).Some?
    ensures NoticeId(m) == NoticeId(n) <==> RefOf(ns, m) == RefOf(ns, n)
  {
    hide NameOf, Under;
    var x, y := RemoteKey(m.a), RemoteKey(n.a);
    if NoticeId(m) == NoticeId(n) {
      IdKinds(m, n);
      assert ("MP:" + x)[3..] == x && ("MP:" + y)[3..] == y && ("MS:" + x)[3..] == x && ("MS:" + y)[3..] == y;
      SameRoute(m.a, n.a);
    }
  }

  lemma IdKinds(m: Notice, n: Notice)
    requires NoticeId(m) == NoticeId(n) && NoticeId(m).Some?
    ensures m.a.kind == n.a.kind
  {
    assert ("MP:" + RemoteKey(m.a))[1] == 'P' && ("MS:" + RemoteKey(n.a))[1] == 'S';
    assert ("MS:" + RemoteKey(m.a))[1] == 'S' && ("MP:" + RemoteKey(n.a))[1] == 'P';
  }

  lemma SameRoute(a: Announcement, b: Announcement)
    requires a.kind == b.kind && RemoteKey(a) == RemoteKey(b)
    requires NoColon(a.zid) && NoColon(a.ke) && NoColon(b.zid) && NoColon(b.ke)
    ensures a.zid == b.zid && a.ke == b.ke
  {
    if a.kind.MsgPub? {
      assert RemoteKey(a) == a.zid + ":" + (a.ke + ":" + a.qos) && RemoteKey(b) == b.zid + ":" + (b.ke + ":" + b.qos);
      HeadUnique(a.zid, b.zid, a.ke + ":" + a.qos, b.ke + ":" + b.qos);
      HeadUnique(a.ke, b.ke, a.qos, b.qos);
    } else {
      assert RemoteKey(a) == a.zid + ":" + a.ke && RemoteKey(b) == b.zid + ":" + b.ke;
      HeadUnique(a.zid, b.zid, a.ke, b.ke);
    }
  }

  // ---- The queues -------------------------------------------------------------------------

  lemma EventsRetained(log: Log, q: Queue<LocalEvent>, keep: LocalEvent -> bool)
    requires EventQueue(log, q)
    ensures EventQueue(log, Retain(q, keep))
  {
    RetainHas(q, keep);
    var r := Retain(q, keep);
    forall i, j | 0 <= i < j < |r| ensures KeyOfEvent(r[i].0) != KeyOfEvent(r[j].0) {
      RetainOrder(q, keep, i, j);
      var a, b :| 0 <= a < b < |q| && q[a] == r[i] && q[b] == r[j];
    }
  }

  lemma NoticesRetained(ns: string, log: Log, q: Queue<Notice>, keep: Notice -> bool)
    requires ValidNamespace(ns) && NoticeQueue(ns, log, q)
    ensures NoticeQueue(ns, log, Retain(q, keep))
  {
    hide NoticeId, LatestNotice;
    RetainHas(q, keep);
    var r := Retain(q, keep);
    forall i, j | 0 <= i < j < |r| ensures NoticeId(r[i].0) != NoticeId(r[j].0) {
      RetainOrder(q, keep, i, j);
      var a, b :| 0 <= a < b < |q| && q[a] == r[i] && q[b] == r[j];
    }
  }

  lemma EventsPut(log: Log, e: LocalEvent, attempts: nat, q: Queue<LocalEvent>)
    requires EventQueue(log, q) && LatestEvent(log, e) && 1 <= attempts <= MAX_EVENT_RETRIES
    requires forall x | x in q :: KeyOfEvent(x.0) != KeyOfEvent(e)
    ensures EventQueue(log, [(e, attempts)] + q)
  {
  }

  lemma EventsTail(log: Log, q: Queue<LocalEvent>)
    requires EventQueue(log, q) && q != []
    ensures EventQueue(log, q[1..]) && 1 <= q[0].1 <= MAX_EVENT_RETRIES && LatestEvent(log, q[0].0)
    ensures forall x | x in q[1..] :: x in q && KeyOfEvent(x.0) != KeyOfEvent(q[0].0)
  {
  }

  lemma NoticesPut(ns: string, log: Log, n: Notice, attempts: nat, q: Queue<Notice>)
    requires ValidNamespace(ns) && NoticeQueue(ns, log, q) && LatestNotice(ns, log, n) && NoticeId(n).Some?
    requires 1 <= attempts <= MAX_EVENT_RETRIES && forall x | x in q :: NoticeId(x.0) != NoticeId(n)
    ensures NoticeQueue(ns, log, [(n, attempts)] + q)
  {
  }

  lemma NoticesTail(ns: string, log: Log, q: Queue<Notice>)
    requires ValidNamespace(ns) && NoticeQueue(ns, log, q) && q != []
    ensures NoticeQueue(ns, log, q[1..]) && 1 <= q[0].1 <= MAX_EVENT_RETRIES && LatestNotice(ns, log, q[0].0)
            && NoticeId(q[0].0).Some?
    ensures forall x | x in q[1..] :: x in q && NoticeId(x.0) != NoticeId(q[0].0)
  {
  }

  lemma {:induction false} RetriedEvents(ns: string, log: Log, s: Mgr, pending: Queue<LocalEvent>,
      outcomes: seq<Outcome>)
    requires ValidNamespace(ns) && AbsoluteNames(s) && ProperQueue(pending) && |outcomes| == |pending|
    requires EventQueue(log, pending) && NodesLatest(log, s)
    ensures var (s', queue, _) := RetryEvents(ns, s, pending, outcomes);
            EventQueue(log, queue) && NodesLatest(log, s')
            && (forall x | x in queue :: Pending(x.0, pending)) && (forall k, x :: Feeds(s', k, x) <==> Feeds(s, k, x))
    decreases pending
  {
    hide KeyOf, OnDiscovery, Serves, Feeds, KeyOfEvent, EventQueue, LatestEvent;
    if pending != [] {
      var (e, attempts) := pending[0];
      var rest := pending[1..];
      assert pending[0] in pending;
      EventsTail(log, pending);
      HeardSane(Config(ns, k => true), s, e, outcomes[0]);
      DiscoveryUsers(ns, s, e, outcomes[0]);
      var s1 := OnDiscovery(ns, s, e, outcomes[0]).0;
      RetriedEvents(ns, log, s1, rest, outcomes[1..]);
      var queue := RetryEvents(ns, s1, rest, outcomes[1..]).1;
      forall x | x in queue ensures KeyOfEvent(x.0) != KeyOfEvent(e) && Pending(x.0, pending) {
        var y :| y in rest && y.0 == x.0;
      }
      if attempts < MAX_EVENT_RETRIES {
        EventsPut(log, e, attempts + 1, queue);
      }
    }
  }

  /** A node that is served, or whose discovery is being retried, is not forgotten. */
  lemma {:induction false} RetriedKept(ns: string, log: Log, s: Mgr, pending: Queue<LocalEvent>,
      outcomes: seq<Outcome>, k: Key, node: string)
    requires ValidNamespace(ns) && AbsoluteNames(s) && ProperQueue(pending) && |outcomes| == |pending|
    requires EventQueue(log, pending) && LatestEvent(log, Discovered(node, k))
    requires Serves(s, k, node) || Pending(Discovered(node, k), pending)
    ensures var (s', queue, abandoned) := RetryEvents(ns, s, pending, outcomes);
            Serves(s', k, node) || Pending(Discovered(node, k), queue) || KeyOfEvent(Discovered(node, k)) in abandoned
    decreases pending
  {
    hide KeyOf, OnDiscovery, Serves;
    if pending != [] {
      var (e, attempts) := pending[0];
      var rest := pending[1..];
      assert pending[0] in pending && pending == [pending[0]] + rest;
      assert pending[0].0 == e && LatestEvent(log, e);
      HeardSane(Config(ns, k => true), s, e, outcomes[0]);
      DiscoveryUsers(ns, s, e, outcomes[0]);
      assert forall i | 0 <= i < |rest| :: rest[i] == pending[i + 1];
      var (s1, ok) := OnDiscovery(ns, s, e, outcomes[0]);
      var (s', queue, abandoned) := RetryEvents(ns, s, pending, outcomes);
      if e == Discovered(node, k) && !ok {
        if attempts < MAX_EVENT_RETRIES {
          assert queue[0].0 == e && queue[0] in queue;
        }
      } else {
        assert Serves(s1, k, node) || Pending(Discovered(node, k), rest);
        RetriedKept(ns, log, s1, rest, outcomes[1..], k, node);
        var queue1 := RetryEvents(ns, s1, rest, outcomes[1..]).1;
        assert forall x | x in queue1 :: x in queue;
      }
    }
  }

  lemma {:induction false} RetriedNotices(ns: string, log: Log, s: Mgr, pending: Queue<Notice>, outcomes: seq<Outcome>)
    requires ValidNamespace(ns) && AbsoluteNames(s) && ProperNotices(ns, pending) && |outcomes| == |pending|
    requires NoticeQueue(ns, log, pending) && RemotesLatest(log, s)
    ensures var (s', queue) := RetryNotices(ns, s, pending, outcomes);
            NoticeQueue(ns, log, queue) && RemotesLatest(log, s')
            && (forall x | x in queue :: Waiting(x.0, pending))
            && (forall k, node :: Serves(s', k, node) <==> Serves(s, k, node))
    decreases pending
  {
    hide KeyOf, OnAnnouncement, Serves, NoticeId, ProperNotice, LatestNotice, RemotesLatest, AbsoluteNames, NoticeQueue;
    if pending != [] {
      var (n, attempts) := pending[0];
      var rest := pending[1..];
      assert pending[0] in pending;
      NoticesTail(ns, log, pending);
      NoticeSane(Config(ns, k => true), s, n, outcomes[0]);
      NoticeUsers(ns, log, s, n, outcomes[0]);
      var s1 := OnAnnouncement(ns, s, n.announced, n.a, outcomes[0]).0;
      RetriedNotices(ns, log, s1, rest, outcomes[1..]);
      var queue := RetryNotices(ns, s1, rest, outcomes[1..]).1;
      forall x | x in queue ensures NoticeId(x.0) != NoticeId(n) && Waiting(x.0, pending) {
        var y :| y in rest && y.0 == x.0;
      }
      if attempts < MAX_EVENT_RETRIES {
        NoticesPut(ns, log, n, attempts + 1, queue);
      }
    }
  }

  ghost predicate Waiting(n: Notice, q: Queue<Notice>) {
    exists x | x in q :: x.0 == n
  }

  /** Acting on the latest notice keeps every route fed by announced ones only. */
  lemma NoticeUsers(ns: string, log: Log, s: Mgr, n: Notice, o: Outcome)
    requires ValidNamespace(ns) && ProperNotice(ns, n) && LatestNotice(ns, log, n) && RemotesLatest(log, s)
    ensures var s' := OnAnnouncement(ns, s, n.announced, n.a, o).0;
            RemotesLatest(log, s') && forall k, node :: Serves(s', k, node) <==> Serves(s, k, node)
  {
  }

  lemma {:induction false} PrunedUsers(c: Config, log: Log, s: Mgr, notices: Queue<Notice>, prunes: seq<string>,
      reconnected: set<string>)
    requires ValidNamespace(c.ns) && AbsoluteNames(s) && NoticeQueue(c.ns, log, notices) && RemotesLatest(log, s)
    ensures var (s', notices') := PruneAll(c.ns, s, notices, prunes, reconnected);
            NoticeQueue(c.ns, log, notices') && RemotesLatest(log, s')
                && (forall k, node :: Serves(s', k, node) <==> Serves(s, k, node))
    decreases prunes
  {
    hide NoticeQueue, Serves, Feeds, OnBridgeLeft;
    if prunes != [] {
      if prunes[0] in reconnected {
        PrunedUsers(c, log, s, notices, prunes[1..], reconnected);
      } else {
        NoticesRetained(c.ns, log, notices, Unrelated(prunes[0]));
        BridgeLeftUsers(c.ns, s, prunes[0]);
        LeftAbsolute(c.ns, s, prunes[0]);
        PrunedUsers(c, log, OnBridgeLeft(c.ns, s, prunes[0]), Retain(notices, Unrelated(prunes[0])), prunes[1..],
            reconnected);
      }
    }
  }

  // ---- Each step keeps the invariant ------------------------------------------------------

  lemma HeardInv(c: Config, log: Log, l: Loop, e: LocalEvent, o: Outcome)
    requires Sane(c, l) && Inv(c, log, l) && ProperEvent(e)
    ensures Inv(c, Record(c, log, Heard(e, o)), Step(c, l, Heard(e, o)))
  {
    hide OnDiscovery, AbsoluteNames, EventQueue, NoticeQueue, NodesLatest, NodesKept;
    if IsAllowed(c, e) {
      var log', l' := Record(c, log, Heard(e, o)), Step(c, l, Heard(e, o));
      EventSupersedes(log, log', l.retries, e);
      HeardSane(c, l.mgr, e, o);
      DiscoveryUsers(c.ns, l.mgr, e, o);
      NoticesUnaffected(c, log, log', l'.notices);
      NodesAfter(log, log', l.mgr, l'.mgr, e);
      HeardKept(c, log, l, e, o);
    }
  }

  /** A newer event takes the place of a queued one about the same interface. */
  lemma EventSupersedes(log: Log, log': Log, q: Queue<LocalEvent>, e: LocalEvent)
    requires EventQueue(log, q) && log'.events == log.events[KeyOfEvent(e) := e]
    ensures var waiting := Retain(q, AboutOthers(e)); EventQueue(log', waiting) && EventQueue(log', waiting + [(e, 1)])
  {
    hide KeyOfEvent;
    var waiting := Retain(q, AboutOthers(e));
    EventsRetained(log, q, AboutOthers(e));
    RetainHas(q, AboutOthers(e));
    assert forall i | 0 <= i < |waiting| :: waiting[i] in waiting;
  }

  lemma HeardKept(c: Config, log: Log, l: Loop, e: LocalEvent, o: Outcome)
    requires Sane(c, l) && NodesKept(log, l.mgr, l.retries, l.abandoned) && ProperEvent(e) && IsAllowed(c, e)
    ensures var l' := Step(c, l, Heard(e, o));
            NodesKept(Record(c, log, Heard(e, o)), l'.mgr, l'.retries, l'.abandoned)
  {
    hide OnDiscovery, Serves, Feeds, AbsoluteNames;
    var log', l' := Record(c, log, Heard(e, o)), Step(c, l, Heard(e, o));
    var waiting := Retain(l.retries, AboutOthers(e));
    RetainHas(l.retries, AboutOthers(e));
    DiscoveryUsers(c.ns, l.mgr, e, o);
    forall k, node | LatestEvent(log', Discovered(node, k))
      ensures Serves(l'.mgr, k, node) || Pending(Discovered(node, k), l'.retries)
              || KeyOfEvent(Discovered(node, k)) in l'.abandoned
    {
      var d := Discovered(node, k);
      if KeyOfEvent(d) == KeyOfEvent(e) {
        assert d == e;
        assert l'.retries != waiting ==> l'.retries[|waiting|] == (e, 1) && (e, 1) in l'.retries && (e, 1).0 == d;
      } else {
        assert LatestEvent(log, d);
        if Pending(d, l.retries) {
          var x :| x in l.retries && x.0 == d;
          assert x in waiting && x in l'.retries;
        }
      }
    }
  }

  lemma NoticesUnaffected(c: Config, log: Log, log': Log, q: Queue<Notice>)
    requires ValidNamespace(c.ns) && NoticeQueue(c.ns, log, q) && log'.notices == log.notices
    ensures NoticeQueue(c.ns, log', q)
  {
  }

  lemma NodesAfter(log: Log, log': Log, s: Mgr, s': Mgr, e: LocalEvent)
    requires NodesLatest(log, s) && log'.events == log.events[KeyOfEvent(e) := e]
    requires forall k, node | Serves(s', k, node) :: Serves(s, k, node) || e == Discovered(node, k)
    requires e.Undiscovered? ==> !Serves(s', e.key, e.node)
    ensures NodesLatest(log', s')
  {
  }

  lemma HeardNoticeInv(c: Config, log: Log, l: Loop, n: Notice, o: Outcome)
    requires Sane(c, l) && Inv(c, log, l) && ProperNotice(c.ns, n)
    ensures Inv(c, Record(c, log, HeardNotice(n, o)), Step(c, l, HeardNotice(n, o)))
  {
    hide OnAnnouncement, Serves, Feeds, TargetKey, RemoteKey, NoticeId, KeyOf, AbsoluteNames, EventQueue, NoticeQueue,
        NodesLatest, NodesKept;
    if IsAnnouncementAllowed(c, n) {
      var log', l' := Record(c, log, HeardNotice(n, o)), Step(c, l, HeardNotice(n, o));
      var waiting := if NoticeId(n).None? then l.notices else Retain(l.notices, NoticesOfOthers(n));
      AnnouncementUsers(c.ns, l.mgr, n, o);
      Superseded(c, log, log', l.notices, n);
      if l'.notices == waiting + [(n, 1)] {
        Enqueued(c.ns, log', waiting, n);
      }
      assert RemotesLatest(log', l'.mgr);
      assert EventQueue(log', l'.retries) && NodesLatest(log', l'.mgr)
          && NodesKept(log', l'.mgr, l'.retries, l'.abandoned) by {
        SameNodes(log, log', l, l');
      }
    }
  }

  /** Nothing about local nodes changed. */
  lemma SameNodes(log: Log, log': Log, l: Loop, l': Loop)
    requires EventQueue(log, l.retries) && NodesLatest(log, l.mgr) && NodesKept(log, l.mgr, l.retries, l.abandoned)
    requires log'.events == log.events && l'.retries == l.retries && l'.abandoned == l.abandoned
    requires forall k, node | node != MATCHED_READERS_KEY :: Serves(l'.mgr, k, node) <==> Serves(l.mgr, k, node)
    requires forall k ::
               LatestEvent(log, Discovered(MATCHED_READERS_KEY, k))
               ==> Serves(l'.mgr, k, MATCHED_READERS_KEY) == Serves(l.mgr, k, MATCHED_READERS_KEY)
    ensures EventQueue(log', l'.retries) && NodesLatest(log', l'.mgr)
            && NodesKept(log', l'.mgr, l'.retries, l'.abandoned)
  {
  }

  /** What the newer notice leaves in the queue is about other remote routes. */
  lemma Superseded(c: Config, log: Log, log': Log, q: Queue<Notice>, n: Notice)
    requires ValidNamespace(c.ns) && NoticeQueue(c.ns, log, q) && ProperNotices(c.ns, q) && ProperNotice(c.ns, n)
    requires log'.notices == log.notices[RefOf(c.ns, n) := n.announced]
    ensures var waiting := if NoticeId(n).None? then q else Retain(q, NoticesOfOthers(n));
            NoticeQueue(c.ns, log', waiting) && forall x | x in waiting :: NoticeId(x.0) != NoticeId(n)
  {
    hide TargetKey, RemoteKey, ProperNotice;
    var waiting := if NoticeId(n).None? then q else Retain(q, NoticesOfOthers(n));
    NoticesRetained(c.ns, log, q, NoticesOfOthers(n));
    RetainHas(q, NoticesOfOthers(n));
    hide NoticeId;
    forall x | x in waiting ensures LatestNotice(c.ns, log', x.0) && NoticeId(x.0) != NoticeId(n) {
      assert x in q;
      SameId(c.ns, x.0, n);
    }
  }

  lemma Enqueued(ns: string, log: Log, q: Queue<Notice>, n: Notice)
    requires ValidNamespace(ns) && NoticeQueue(ns, log, q) && NoticeId(n).Some? && LatestNotice(ns, log, n)
    requires forall x | x in q :: NoticeId(x.0) != NoticeId(n)
    ensures NoticeQueue(ns, log, q + [(n, 1)])
  {
  }

  lemma TickInv(c: Config, log: Log, l: Loop, op: Retry.Op)
    requires Sane(c, l) && Inv(c, log, l) && op.Tick? && Possible(c, l, op)
    ensures Inv(c, log, Step(c, l, op))
  {
    hide NodesLatest, RemotesLatest, EventQueue, NoticeQueue, PruneAll, Serves, Feeds, LatestEvent;
    PruneSane(c, l.mgr, l.notices, l.prunes, op.reconnected);
    PrunedUsers(c, log, l.mgr, l.notices, l.prunes, op.reconnected);
    var (s1, notices) := Retry.Pruned(c, l, op);
    NoticesSane(c.ns, s1, notices, op.forNotices);
    RetriedNotices(c.ns, log, s1, notices, op.forNotices);
    var s2 := RetryNotices(c.ns, s1, notices, op.forNotices).0;
    NodesMoved(log, l.mgr, s2);
    RetriedEvents(c.ns, log, s2, l.retries, op.forEvents);
    var l' := Step(c, l, op);
    RemotesMoved(log, s2, l'.mgr);
    forall k, node | LatestEvent(log, Discovered(node, k))
      ensures Serves(l'.mgr, k, node) || Pending(Discovered(node, k), l'.retries)
              || KeyOfEvent(Discovered(node, k)) in l'.abandoned
    {
      if Serves(l.mgr, k, node) || Pending(Discovered(node, k), l.retries) {
        RetriedKept(c.ns, log, s2, l.retries, op.forEvents, k, node);
      }
    }
  }

  lemma NodesMoved(log: Log, s: Mgr, s': Mgr)
    requires NodesLatest(log, s) && forall k, node :: Serves(s', k, node) <==> Serves(s, k, node)
    ensures NodesLatest(log, s')
  {
  }

  lemma RemotesMoved(log: Log, s: Mgr, s': Mgr)
    requires RemotesLatest(log, s) && forall k, x :: Feeds(s', k, x) <==> Feeds(s, k, x)
    ensures RemotesLatest(log, s')
  {
  }

  /** Events are about nodes with proper names. */
  predicate ProperLog(log: Log) {
    forall key | key in log.events :: ProperEvent(log.events[key])
  }

  lemma StepInv(c: Config, log: Log, l: Loop, op: Retry.Op)
    requires Sane(c, l) && Possible(c, l, op) && Inv(c, log, l) && ProperLog(log)
    ensures Inv(c, Record(c, log, op), Step(c, l, op)) && ProperLog(Record(c, log, op))
  {
    match op
    case Heard(e, o) => HeardInv(c, log, l, e, o);
    case HeardNotice(n, o) => HeardNoticeInv(c, log, l, n, o);
    case HeardMatched(name, matched) =>
      MatchedUsers(l.mgr, name, matched);
      SameNodes(log, log, l, Step(c, l, op));
      RemotesMoved(log, l.mgr, Step(c, l, op).mgr);
    case TransportLost(_) =>
    case Tick(_, _, _) => TickInv(c, log, l, op);
  }

  // ---- Runs -------------------------------------------------------------------------------

  ghost predicate PossibleRun(c: Config, l: Loop, ops: seq<Retry.Op>)
    requires Sane(c, l)
    decreases ops
  {
    ops == [] || (Possible(c, l, ops[0]) && (StepSane(c, l, ops[0]); PossibleRun(c, Step(c, l, ops[0]), ops[1..])))
  }

  ghost function Run(c: Config, l: Loop, log: Log, ops: seq<Retry.Op>): (Loop, Log)
    requires Sane(c, l) && PossibleRun(c, l, ops)
    decreases ops
  {
    if ops == [] then (l, log)
    else
      StepSane(c, l, ops[0]);
      Run(c, Step(c, l, ops[0]), Record(c, log, ops[0]), ops[1..])
  }

  lemma {:induction false} RunInv(c: Config, l: Loop, log: Log, ops: seq<Retry.Op>)
    requires Sane(c, l) && PossibleRun(c, l, ops) && Inv(c, log, l) && ProperLog(log)
    ensures var (l', log') := Run(c, l, log, ops); Inv(c, log', l')
    decreases ops
  {
    hide Inv, ProperLog, Step, Record, AbsoluteNames, ProperQueue, ProperNotices, Possible;
    if ops != [] {
      StepSane(c, l, ops[0]);
      StepInv(c, log, l, ops[0]);
      RunInv(c, Step(c, l, ops[0]), Record(c, log, ops[0]), ops[1..]);
    }
  }

  const NOTHING_HEARD := Log(map[], map[])

  /**
   * At any time: queued events are the latest about their interfaces, one each, on at most their tenth
   * try; a node is served only if its latest event is a discovery, and if it is and the event was not
   * given up, it is served or waiting; a remote route is served only if its latest notice announces it.
   */
  lemma NoGhosts(c: Config, ops: seq<Retry.Op>)
    requires ValidNamespace(c.ns) && Sane(c, Retry.INITIAL) && PossibleRun(c, Retry.INITIAL, ops)
    ensures var (l, log) := Run(c, Retry.INITIAL, NOTHING_HEARD, ops);
            EventQueue(log, l.retries) && NoticeQueue(c.ns, log, l.notices)
            && (forall k, node | Serves(l.mgr, k, node) && node != MATCHED_READERS_KEY ::
                  LatestEvent(log, Discovered(node, k)))
            && (forall k, node | LatestEvent(log, Discovered(node, k)) ::
                  Serves(l.mgr, k, node) || Pending(Discovered(node, k), l.retries)
                  || KeyOfEvent(Discovered(node, k)) in l.abandoned)
            && (forall k, x | Feeds(l.mgr, k, x) :: (k, x) in log.notices && log.notices[(k, x)])
  {
    RunInv(c, Retry.INITIAL, NOTHING_HEARD, ops);
  }

  // ---- A lost bridge stays gone -----------------------------------------------------------

  /** Nothing of the bridge is served or waiting to be. */
  ghost predicate Gone(zid: string, s: Mgr, q: Queue<Notice>) {
    (forall k, x | Feeds(s, k, x) :: !OfBridge(x, zid)) && forall x | x in q :: x.0.a.zid != zid
  }

  lemma StaysOrNot(ns: string, zid: string, n: Notice)
    requires ValidNamespace(ns) && ProperNotice(ns, n) && NoColon(zid) && NoticeId(n).Some?
    ensures Stays(zid, n) <==> n.a.zid != zid
    ensures OfBridge(RemoteKey(n.a), zid) <==> n.a.zid == zid
  {
    hide NameOf, Under;
    var rest := n.a.ke + if n.a.kind.MsgPub? then ":" + n.a.qos else "";
    assert RemoteKey(n.a) == n.a.zid + ":" + rest;
    PrefixOfBridge(zid, n.a.zid, rest);
    var x := RemoteKey(n.a);
    assert zid + ":" <= x <==> StartsWith(x, zid + ":");
    IdPrefix("MP:", x, zid);
    IdPrefix("MS:", x, zid);
    assert ("MP:" + x)[1] == 'P' && ("MS:" + x)[1] == 'S' && ("MP:" + zid + ":")[1] == 'P'
        && ("MS:" + zid + ":")[1] == 'S';
  }

  lemma IdPrefix(tag: string, x: string, zid: string)
    ensures StartsWith(tag + x, tag + zid + ":") <==> StartsWith(x, zid + ":")
  {
    assert tag + zid + ":" == tag + (zid + ":");
    PrefixSplit(tag + x, tag, zid + ":");
    assert (tag + x)[..|tag|] == tag && (tag + x)[|tag|..] == x;
  }

  lemma {:induction false} PruneGone(c: Config, log: Log, s: Mgr, notices: Queue<Notice>, prunes: seq<string>,
      reconnected: set<string>, zid: string)
    requires ValidNamespace(c.ns) && AbsoluteNames(s) && ProperNotices(c.ns, notices)
             && NoticeQueue(c.ns, log, notices) && NoColon(zid)
    requires Gone(zid, s, notices) || (zid in prunes && zid !in reconnected)
    ensures var (s', notices') := PruneAll(c.ns, s, notices, prunes, reconnected); Gone(zid, s', notices')
    decreases prunes
  {
    hide Stays, Feeds, OnBridgeLeft, NoticeId, ProperNotice, OfBridge, NoticeQueue;
    if prunes != [] {
      assert prunes == [prunes[0]] + prunes[1..];
      if prunes[0] in reconnected {
        PruneGone(c, log, s, notices, prunes[1..], reconnected, zid);
      } else {
        var keep := Unrelated(prunes[0]);
        RetainHas(notices, keep);
        NoticesRetained(c.ns, log, notices, keep);
        BridgeLeftUsers(c.ns, s, prunes[0]);
        LeftAbsolute(c.ns, s, prunes[0]);
        if prunes[0] == zid {
          UnrelatedRetained(c.ns, log, notices, zid);
        }
        PruneGone(c, log, OnBridgeLeft(c.ns, s, prunes[0]), Retain(notices, keep), prunes[1..], reconnected, zid);
      }
    }
  }

  /** A prune takes everything of the bridge out of the queue, and of no other. */
  lemma UnrelatedRetained(ns: string, log: Log, q: Queue<Notice>, zid: string)
    requires ValidNamespace(ns) && ProperNotices(ns, q) && NoticeQueue(ns, log, q) && NoColon(zid)
    ensures forall x :: x in Retain(q, Unrelated(zid)) <==> x in q && x.0.a.zid != zid
  {
    hide Stays, NoticeId, ProperNotice;
    RetainHas(q, Unrelated(zid));
    forall x | x in q ensures Stays(zid, x.0) <==> x.0.a.zid != zid {
      StaysOrNot(ns, zid, x.0);
    }
  }

  lemma AnnouncementGone(ns: string, s: Mgr, q: Queue<Notice>, n: Notice, o: Outcome, zid: string)
    requires ValidNamespace(ns) && ProperNotice(ns, n) && n.a.zid != zid && NoColon(zid) && Gone(zid, s, q)
    ensures Gone(zid, OnAnnouncement(ns, s, n.announced, n.a, o).0, q)
  {
    hide Feeds, OnAnnouncement, NameOf, Under, OfBridge;
    AnnouncementUsers(ns, s, n, o);
    var rest := n.a.ke + if n.a.kind.MsgPub? then ":" + n.a.qos else "";
    assert RemoteKey(n.a) == n.a.zid + ":" + rest;
    assert !OfBridge(RemoteKey(n.a), zid) by { NotOfBridge(n.a.zid, rest, zid); }
  }

  lemma NotOfBridge(other: string, rest: string, zid: string)
    requires NoColon(zid) && NoColon(other) && other != zid
    ensures !OfBridge(other + ":" + rest, zid)
  {
    PrefixOfBridge(zid, other, rest);
  }

  lemma {:induction false} RetriedGone(ns: string, s: Mgr, pending: Queue<Notice>, outcomes: seq<Outcome>, zid: string)
    requires ValidNamespace(ns) && AbsoluteNames(s) && ProperNotices(ns, pending) && |outcomes| == |pending|
             && NoColon(zid)
    requires Gone(zid, s, pending)
    ensures var (s', queue) := RetryNotices(ns, s, pending, outcomes); Gone(zid, s', queue)
    decreases pending
  {
    hide Feeds, OnAnnouncement, ProperNotice, OfBridge;
    if pending != [] {
      var n := pending[0].0;
      assert pending[0] in pending && pending == [pending[0]] + pending[1..];
      NoticeSane(Config(ns, k => true), s, n, outcomes[0]);
      AnnouncementGone(ns, s, pending, n, outcomes[0], zid);
      RetriedGone(ns, OnAnnouncement(ns, s, n.announced, n.a, outcomes[0]).0, pending[1..], outcomes[1..], zid);
    }
  }

  /** The tick after a transport was lost, unless it came back, leaves nothing of the bridge. */
  lemma PrunedForGood(c: Config, log: Log, l: Loop, op: Retry.Op, zid: string)
    requires Sane(c, l) && Inv(c, log, l) && op.Tick? && Possible(c, l, op)
    requires zid in l.prunes && zid !in op.reconnected
    ensures var l' := Step(c, l, op); Gone(zid, l'.mgr, l'.notices)
  {
    GoneTick(c, log, l, op, zid);
  }

  lemma GoneTick(c: Config, log: Log, l: Loop, op: Retry.Op, zid: string)
    requires Sane(c, l) && Inv(c, log, l) && op.Tick? && Possible(c, l, op) && NoColon(zid)
    requires Gone(zid, l.mgr, l.notices) || (zid in l.prunes && zid !in op.reconnected)
    ensures var l' := Step(c, l, op); Gone(zid, l'.mgr, l'.notices)
  {
    hide NodesLatest, RemotesLatest, EventQueue, NoticeQueue, PruneAll, Serves, Feeds, OfBridge, NodesKept;
    PruneSane(c, l.mgr, l.notices, l.prunes, op.reconnected);
    PruneGone(c, log, l.mgr, l.notices, l.prunes, op.reconnected, zid);
    PrunedUsers(c, log, l.mgr, l.notices, l.prunes, op.reconnected);
    var (s1, notices) := Retry.Pruned(c, l, op);
    NoticesSane(c.ns, s1, notices, op.forNotices);
    RetriedGone(c.ns, s1, notices, op.forNotices, zid);
    RetriedNotices(c.ns, log, s1, notices, op.forNotices);
    var s2 := RetryNotices(c.ns, s1, notices, op.forNotices).0;
    NodesMoved(log, l.mgr, s2);
    RetriedEvents(c.ns, log, s2, l.retries, op.forEvents);
  }

  /** No step but an announcement of the bridge itself brings anything of it back. */
  lemma StaysGone(c: Config, log: Log, l: Loop, op: Retry.Op, zid: string)
    requires Sane(c, l) && Inv(c, log, l) && Possible(c, l, op) && NoColon(zid) && Gone(zid, l.mgr, l.notices)
    requires op.HeardNotice? ==> op.n.a.zid != zid
    ensures var l' := Step(c, l, op); Gone(zid, l'.mgr, l'.notices)
  {
    hide Inv, Feeds, OfBridge, OnAnnouncement, OnDiscovery, OnMatchedReader, ProperNotice;
    match op
    case Heard(e, o) =>
      HeardSane(c, l.mgr, e, o);
      DiscoveryUsers(c.ns, l.mgr, e, o);
    case HeardNotice(n, o) =>
      NoticeSane(c, l.mgr, n, o);
      AnnouncementGone(c.ns, l.mgr, l.notices, n, o, zid);
      RetainHas(l.notices, NoticesOfOthers(n));
    case HeardMatched(name, matched) => MatchedUsers(l.mgr, name, matched);
    case TransportLost(_) =>
    case Tick(_, _, _) => GoneTick(c, log, l, op, zid);
  }

  /** So over a whole run, a pruned bridge that announces nothing anew is not served anywhere. */
  lemma {:induction false} NeverResurrected(c: Config, log: Log, l: Loop, ops: seq<Retry.Op>, zid: string)
    requires Sane(c, l) && PossibleRun(c, l, ops) && Inv(c, log, l) && ProperLog(log) && NoColon(zid)
             && Gone(zid, l.mgr, l.notices)
    requires forall op | op in ops && op.HeardNotice? :: op.n.a.zid != zid
    ensures var l' := Run(c, l, log, ops).0; Gone(zid, l'.mgr, l'.notices)
    decreases ops
  {
    hide Inv, ProperLog, Step, Record, AbsoluteNames, ProperQueue, ProperNotices, Possible, Gone;
    if ops != [] {
      assert ops[0] in ops;
      StepSane(c, l, ops[0]);
      StepInv(c, log, l, ops[0]);
      StaysGone(c, log, l, ops[0], zid);
      NeverResurrected(c, Record(c, log, ops[0]), Step(c, l, ops[0]), ops[1..], zid);
    }
  }
}

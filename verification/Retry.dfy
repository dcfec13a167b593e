/**
 * The main loop: events whose route update failed are queued and retried, superseded by newer events
 * about the same interface, and prunes of lost bridges wait for the next retry tick.
 */
module Retry {
  import opened Wrappers
  import opened Text
  import opened NodeInfo
  import opened Names
  import opened Routes

  const MAX_EVENT_RETRIES: nat := 10

  /** `allow` tells whether the configuration permits routes of that kind and name. */
  datatype Config = Config(ns: string, allow: Key -> bool)

  datatype Notice = Notice(announced: bool, a: Announcement)

  type Queue<T> = seq<(T, nat)>

  /** `abandoned` are the interfaces whose latest event was given up. */
  datatype Loop = Loop(mgr: Mgr, retries: Queue<LocalEvent>, notices: Queue<Notice>, prunes: seq<string>,
      abandoned: set<InterfaceKey>)

  const INITIAL := Loop(NO_ROUTES, [], [], [], {})

  /** What an event is about, whatever its direction; None stands for "LocalWriters". */
  datatype InterfaceKey = InterfaceKey(node: string, kind: Option<Kind>, name: string)

  function KeyOfEvent(e: LocalEvent): InterfaceKey {
    match e
    case Discovered(node, k) => InterfaceKey(node, Some(k.kind), k.name)
    case Undiscovered(node, k) => InterfaceKey(node, Some(k.kind), k.name)
    case LocalWritersChanged(name) => InterfaceKey("", None, name)
  }

  /** `msg_route_id`. */
  function NoticeId(n: Notice): Option<string> {
    match n.a.kind
    case MsgPub => Some("MP:" + RemoteKey(n.a))
    case MsgSub => Some("MS:" + RemoteKey(n.a))
    case _ => None
  }

  predicate ProperEvent(e: LocalEvent) {
    if e.LocalWritersChanged? then true else StartsWith(e.key.name, "/") && e.node != MATCHED_READERS_KEY
  }

  /** ROS names and zenoh ids have no colon, and keys are announced under the namespace. */
  predicate ProperNotice(ns: string, n: Notice)
    requires ValidNamespace(ns)
  {
    ValidRemote(ns, n.a) && Under(ns, n.a.ke) && NoColon(n.a.zid) && NoColon(n.a.ke)
  }

  // ---- The steps --------------------------------------------------------------------------

  function Retain<T>(q: Queue<T>, keep: T -> bool): Queue<T> {
    if q == [] then [] else (if keep(q[0].0) then [q[0]] else []) + Retain(q[1..], keep)
  }

  /** Events that are not superseded by `e`. */
  function AboutOthers(e: LocalEvent): LocalEvent -> bool {
    q => KeyOfEvent(q) != KeyOfEvent(e)
  }

  function NoticesOfOthers(n: Notice): Notice -> bool {
    q => NoticeId(q) != NoticeId(n)
  }

  predicate ProperQueue(q: Queue<LocalEvent>) {
    forall x | x in q :: ProperEvent(x.0)
  }

  predicate ProperNotices(ns: string, q: Queue<Notice>)
    requires ValidNamespace(ns)
  {
    forall x | x in q :: ProperNotice(ns, x.0)
  }

  predicate Sane(c: Config, l: Loop) {
    ValidNamespace(c.ns) && AbsoluteNames(l.mgr) && ProperQueue(l.retries) && ProperNotices(c.ns, l.notices)
    && forall zid | zid in l.prunes :: NoColon(zid)
  }

  /** A retried event leaves the queue, waits for another try, or is given up. */
  function RetryEvents(ns: string, s: Mgr, pending: Queue<LocalEvent>, outcomes: seq<Outcome>)
    : (Mgr, Queue<LocalEvent>, set<InterfaceKey>)
    requires ValidNamespace(ns) && AbsoluteNames(s) && ProperQueue(pending) && |outcomes| == |pending|
    decreases pending
  {
    if pending == [] then (s, [], {})
    else
      var (e, attempts) := pending[0];
      assert ProperEvent(e) by { assert pending[0] in pending; }
      var (s1, ok) := OnDiscovery(ns, s, e, outcomes[0]);
      var (s2, queue, abandoned) := RetryEvents(ns, s1, pending[1..], outcomes[1..]);
      if ok then (s2, queue, abandoned)
      else if attempts < MAX_EVENT_RETRIES then (s2, [(e, attempts + 1)] + queue, abandoned)
      else (s2, queue, abandoned + {KeyOfEvent(e)})
  }

  function RetryNotices(ns: string, s: Mgr, pending: Queue<Notice>, outcomes: seq<Outcome>): (Mgr, Queue<Notice>)
    requires ValidNamespace(ns) && AbsoluteNames(s) && ProperNotices(ns, pending) && |outcomes| == |pending|
    decreases pending
  {
    if pending == [] then (s, [])
    else
      var (n, attempts) := pending[0];
      assert ProperNotice(ns, n) by { assert pending[0] in pending; }
      var (s1, ok) := OnAnnouncement(ns, s, n.announced, n.a, outcomes[0]);
      assert AbsoluteNames(s1) by { KeyRoundTrip(ns, n.a.ke); }
      var (s2, queue) := RetryNotices(ns, s1, pending[1..], outcomes[1..]);
      if ok || attempts >= MAX_EVENT_RETRIES then (s2, queue) else (s2, [(n, attempts + 1)] + queue)
  }

  /** The notices a lost bridge has waiting are those whose id starts with its own. */
  predicate Stays(zid: string, n: Notice) {
    NoticeId(n).None?
    || (!StartsWith(NoticeId(n).value, "MP:" + zid + ":") && !StartsWith(NoticeId(n).value, "MS:" + zid + ":"))
  }

  function Unrelated(zid: string): Notice -> bool {
    n => Stays(zid, n)
  }

  function PruneAll(ns: string, s: Mgr, notices: Queue<Notice>, prunes: seq<string>, reconnected: set<string>)
    : (Mgr, Queue<Notice>)
    requires ValidNamespace(ns) && AbsoluteNames(s)
    decreases prunes
  {
    if prunes == [] then (s, notices)
    else if prunes[0] in reconnected then PruneAll(ns, s, notices, prunes[1..], reconnected)
    else PruneAll(ns, OnBridgeLeft(ns, s, prunes[0]), Retain(notices, Unrelated(prunes[0])), prunes[1..], reconnected)
  }

  datatype Op =
    | Heard(e: LocalEvent, o: Outcome)
    | HeardNotice(n: Notice, o: Outcome)
    | HeardMatched(name: string, matched: bool)
    | TransportLost(zid: string)
    | Tick(reconnected: set<string>, forNotices: seq<Outcome>, forEvents: seq<Outcome>)

  predicate IsAllowed(c: Config, e: LocalEvent) {
    c.allow(if e.LocalWritersChanged? then Key(MsgPub, e.name) else e.key)
  }

  predicate IsAnnouncementAllowed(c: Config, n: Notice)
    requires ValidNamespace(c.ns)
  {
    c.allow(TargetKey(c.ns, n.a))
  }

  function Pruned(c: Config, l: Loop, op: Op): (Mgr, Queue<Notice>)
    requires Sane(c, l) && op.Tick?
  {
    PruneAll(c.ns, l.mgr, l.notices, l.prunes, op.reconnected)
  }

  ghost predicate Possible(c: Config, l: Loop, op: Op)
    requires Sane(c, l)
  {
    match op
    case Heard(e, _) => ProperEvent(e)
    case HeardNotice(n, _) => ProperNotice(c.ns, n)
    case HeardMatched(_, _) => true
    case TransportLost(zid) => NoColon(zid)
    case Tick(_, forNotices, forEvents) => |forNotices| == |Pruned(c, l, op).1| && |forEvents| == |l.retries|
  }

  function Step(c: Config, l: Loop, op: Op): Loop
    requires Sane(c, l) && Possible(c, l, op)
  {
    match op
    case Heard(e, o) =>
      if !IsAllowed(c, e) then l
      else
        var waiting := Retain(l.retries, AboutOthers(e));
        var (mgr, ok) := OnDiscovery(c.ns, l.mgr, e, o);
        l.(mgr := mgr, retries := if ok then waiting else waiting + [(e, 1)],
           abandoned := l.abandoned - {KeyOfEvent(e)})
    case HeardNotice(n, o) =>
      if !IsAnnouncementAllowed(c, n) then l
      else
        var waiting := if NoticeId(n).None? then l.notices else Retain(l.notices, NoticesOfOthers(n));
        var (mgr, ok) := OnAnnouncement(c.ns, l.mgr, n.announced, n.a, o);
        l.(mgr := mgr, notices := if ok || NoticeId(n).None? then waiting else waiting + [(n, 1)])
    case HeardMatched(name, matched) => l.(mgr := OnMatchedReader(l.mgr, name, matched))
    case TransportLost(zid) => if zid in l.prunes then l else l.(prunes := l.prunes + [zid])
    case Tick(reconnected, forNotices, forEvents) =>
      PruneSane(c, l.mgr, l.notices, l.prunes, reconnected);
      var (s1, notices) := Pruned(c, l, op);
      var (s2, notices') := RetryNotices(c.ns, s1, notices, forNotices);
      NoticesSane(c.ns, s1, notices, forNotices);
      var (s3, retries, abandoned) := RetryEvents(c.ns, s2, l.retries, forEvents);
      Loop(s3, retries, notices', [], l.abandoned + abandoned)
  }

  lemma {:induction false} RetainHas<T>(q: Queue<T>, keep: T -> bool)
    ensures forall x :: x in Retain(q, keep) <==> x in q && keep(x.0)
  {
    if q != [] {
      assert q == [q[0]] + q[1..];
      RetainHas(q[1..], keep);
    }
  }

  ghost predicate InOrder<T(!new)>(q: seq<T>, x: T, y: T) {
    exists a, b :: 0 <= a < b < |q| && q[a] == x && q[b] == y
  }

  /** What is retained stays in order. */
  lemma {:induction false} RetainOrder<T(!new)>(q: Queue<T>, keep: T -> bool, i: nat, j: nat)
    requires i < j < |Retain(q, keep)|
    ensures InOrder(q, Retain(q, keep)[i], Retain(q, keep)[j])
  {
    var tail, r := q[1..], Retain(q, keep);
    var rest := Retain(tail, keep);
    if keep(q[0].0) && i == 0 {
      RetainHas(tail, keep);
      assert r[j] == rest[j - 1] && rest[j - 1] in rest;
      var b :| 0 <= b < |tail| && tail[b] == r[j];
      assert q[0] == r[0] && q[b + 1] == r[j];
    } else {
      var d := if keep(q[0].0) then 1 else 0;
      RetainOrder(tail, keep, i - d, j - d);
      assert r[i] == rest[i - d] && r[j] == rest[j - d];
      var a, b :| 0 <= a < b < |tail| && tail[a] == r[i] && tail[b] == r[j];
      assert q[a + 1] == r[i] && q[b + 1] == r[j];
    }
  }

  lemma {:induction false} PruneSane(c: Config, s: Mgr, notices: Queue<Notice>, prunes: seq<string>,
      reconnected: set<string>)
    requires ValidNamespace(c.ns) && AbsoluteNames(s) && ProperNotices(c.ns, notices)
    ensures var (s', notices') := PruneAll(c.ns, s, notices, prunes, reconnected);
            AbsoluteNames(s') && ProperNotices(c.ns, notices') && forall x | x in notices' :: x in notices
    decreases prunes
  {
    hide Stays, Routes.Dropped, ProperNotice;
    if prunes != [] {
      if prunes[0] in reconnected {
        PruneSane(c, s, notices, prunes[1..], reconnected);
      } else {
        RetainHas(notices, Unrelated(prunes[0]));
        PruneSane(c, OnBridgeLeft(c.ns, s, prunes[0]), Retain(notices, Unrelated(prunes[0])), prunes[1..], reconnected);
      }
    }
  }

  lemma {:induction false} NoticesSane(ns: string, s: Mgr, pending: Queue<Notice>, outcomes: seq<Outcome>)
    requires ValidNamespace(ns) && AbsoluteNames(s) && ProperNotices(ns, pending) && |outcomes| == |pending|
    ensures var (s', queue) := RetryNotices(ns, s, pending, outcomes);
            AbsoluteNames(s') && ProperNotices(ns, queue)
    decreases pending
  {
    hide KeyOf, NameOf, Under, RemoteKey;
    if pending != [] {
      assert pending[0] in pending;
      KeyRoundTrip(ns, pending[0].0.a.ke);
      NoticesSane(ns, OnAnnouncement(ns, s, pending[0].0.announced, pending[0].0.a, outcomes[0]).0, pending[1..],
          outcomes[1..]);
    }
  }

  lemma {:induction false} EventsSane(ns: string, s: Mgr, pending: Queue<LocalEvent>, outcomes: seq<Outcome>)
    requires ValidNamespace(ns) && AbsoluteNames(s) && ProperQueue(pending) && |outcomes| == |pending|
    ensures var (s', queue, _) := RetryEvents(ns, s, pending, outcomes);
            AbsoluteNames(s') && ProperQueue(queue)
    decreases pending
  {
    hide KeyOf;
    if pending != [] {
      assert pending[0] in pending;
      EventsSane(ns, OnDiscovery(ns, s, pending[0].0, outcomes[0]).0, pending[1..], outcomes[1..]);
    }
  }

  lemma StepSane(c: Config, l: Loop, op: Op)
    requires Sane(c, l) && Possible(c, l, op)
    ensures Sane(c, Step(c, l, op))
  {
    hide ProperEvent, ProperNotice, RemoteKey;
    match op
    case Heard(e, o) =>
      RetainHas(l.retries, AboutOthers(e));
      HeardSane(c, l.mgr, e, o);
    case HeardNotice(n, o) =>
      RetainHas(l.notices, NoticesOfOthers(n));
      NoticeSane(c, l.mgr, n, o);
    case HeardMatched(_, _) =>
    case TransportLost(_) =>
    case Tick(reconnected, forNotices, forEvents) =>
      PruneSane(c, l.mgr, l.notices, l.prunes, reconnected);
      var (s1, notices) := Pruned(c, l, op);
      NoticesSane(c.ns, s1, notices, forNotices);
      EventsSane(c.ns, RetryNotices(c.ns, s1, notices, forNotices).0, l.retries, forEvents);
  }

  lemma HeardSane(c: Config, s: Mgr, e: LocalEvent, o: Outcome)
    requires ValidNamespace(c.ns) && AbsoluteNames(s) && ProperEvent(e)
    ensures ValidLocal(e) && AbsoluteNames(OnDiscovery(c.ns, s, e, o).0)
  {
  }

  lemma NoticeSane(c: Config, s: Mgr, n: Notice, o: Outcome)
    requires ValidNamespace(c.ns) && AbsoluteNames(s) && ProperNotice(c.ns, n)
    ensures ValidRemote(c.ns, n.a) && AbsoluteNames(OnAnnouncement(c.ns, s, n.announced, n.a, o).0)
  {
    KeyRoundTrip(c.ns, n.a.ke);
  }

  lemma LeftAbsolute(ns: string, s: Mgr, zid: string)
    requires ValidNamespace(ns) && AbsoluteNames(s)
    ensures AbsoluteNames(OnBridgeLeft(ns, s, zid))
  {
  }

  /** One round of the retry loop. */
  lemma EventsNext(ns: string, s: Mgr, pending: Queue<LocalEvent>, outcomes: seq<Outcome>)
    requires ValidNamespace(ns) && AbsoluteNames(s) && ProperQueue(pending) && |outcomes| == |pending| && pending != []
    requires ProperEvent(pending[0].0) && AbsoluteNames(OnDiscovery(ns, s, pending[0].0, outcomes[0]).0)
             && ProperQueue(pending[1..])
    ensures var (e, attempts) := pending[0];
            var (s1, ok) := OnDiscovery(ns, s, e, outcomes[0]);
            var (s2, queue, abandoned) := RetryEvents(ns, s1, pending[1..], outcomes[1..]);
            RetryEvents(ns, s, pending, outcomes)
            == (s2, (if ok || attempts >= MAX_EVENT_RETRIES then [] else [(e, attempts + 1)]) + queue,
                if ok || attempts < MAX_EVENT_RETRIES then abandoned else abandoned + {KeyOfEvent(e)})
  {
    hide OnDiscovery, AbsoluteNames, KeyOfEvent;
    var (_, queue, _) := RetryEvents(ns, OnDiscovery(ns, s, pending[0].0, outcomes[0]).0, pending[1..], outcomes[1..]);
    assert [] + queue == queue;
  }

  lemma NoticesNext(ns: string, s: Mgr, pending: Queue<Notice>, outcomes: seq<Outcome>)
    requires ValidNamespace(ns) && AbsoluteNames(s) && ProperNotices(ns, pending) && |outcomes| == |pending|
             && pending != []
    requires ProperNotice(ns, pending[0].0) && ProperNotices(ns, pending[1..])
    requires AbsoluteNames(OnAnnouncement(ns, s, pending[0].0.announced, pending[0].0.a, outcomes[0]).0)
    ensures var (n, attempts) := pending[0];
            var (s1, ok) := OnAnnouncement(ns, s, n.announced, n.a, outcomes[0]);
            var (s2, queue) := RetryNotices(ns, s1, pending[1..], outcomes[1..]);
            RetryNotices(ns, s, pending, outcomes)
            == (s2, (if ok || attempts >= MAX_EVENT_RETRIES then [] else [(n, attempts + 1)]) + queue)
  {
    hide OnAnnouncement, AbsoluteNames;
    var queue := RetryNotices(ns, OnAnnouncement(ns, s, pending[0].0.announced, pending[0].0.a, outcomes[0]).0,
        pending[1..], outcomes[1..]).1;
    assert [] + queue == queue;
  }

  lemma NothingRetried(ns: string, s: Mgr)
    requires ValidNamespace(ns) && AbsoluteNames(s)
    ensures RetryEvents(ns, s, [], []) == (s, [], {}) && RetryNotices(ns, s, [], []) == (s, [])
  {
  }
}

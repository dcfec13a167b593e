/**
 * One ROS node as the bridge sees it: the interfaces assembled from its DDS endpoints, and the
 * endpoints it declared that DDS discovery has not shown yet.
 */
module NodeInfo {
  import opened Wrappers
  import opened Text
  import opened Iteration

  /** A DDS endpoint identifier. */
  type Gid = nat

  const NOT_DISCOVERED: Gid := 0

  datatype Side = Reader | Writer

  /** Readers and Writers live in separate maps keyed by gid, hence the pair. */
  datatype End = End(side: Side, gid: Gid)

  /** What DDS discovery reports about an endpoint. */
  datatype Entity = Entity(end: End, participant: Gid, topic: string, typ: string)

  datatype Kind = MsgPub | MsgSub | ServiceSrv | ServiceCli | ActionSrv | ActionCli

  datatype Key = Key(kind: Kind, name: string)

  datatype Role =
    | Endpoint
    | Request | Reply
    | SendRequest | SendReply | CancelRequest | CancelReply | ResultRequest | ResultReply
    | Status | Feedback

  /** The interface an endpoint belongs to, the role it plays there, and the type it tells. */
  datatype Use = Use(key: Key, role: Role, typ: Option<string>)

  /** A topic interface collects `endpoints`, a service or action one fills `slots`, unset meaning NOT_DISCOVERED. */
  datatype Iface = Iface(typ: string, endpoints: set<Gid>, slots: map<Role, Gid>)

  type Ifaces = map<Key, Iface>

  datatype Node = Node(ifaces: Ifaces, parked: set<End>)

  datatype NodeEvent = NodeEvent(discovered: bool, key: Key, iface: Iface)

  predicate IsTopic(kind: Kind) {
    kind.MsgPub? || kind.MsgSub?
  }

  function TopicKind(side: Side): Kind {
    if side.Reader? then MsgSub else MsgPub
  }

  function Roles(kind: Kind): set<Role> {
    match kind
    case MsgPub | MsgSub => {Endpoint}
    case ServiceSrv | ServiceCli => {Request, Reply}
    case ActionSrv | ActionCli =>
      {SendRequest, SendReply, CancelRequest, CancelReply, ResultRequest, ResultReply, Status, Feedback}
  }

  predicate IsRequest(role: Role) {
    role in {Request, SendRequest, CancelRequest, ResultRequest}
  }

  /** The roles whose endpoints have a generic type, telling nothing about the interface. */
  predicate Untyped(role: Role) {
    role in {Status, CancelRequest, CancelReply}
  }

  /** Servers read requests and write everything else, clients the other way round. */
  function SideOf(kind: Kind, role: Role): Side {
    match kind
    case MsgPub => Writer
    case MsgSub => Reader
    case ServiceSrv | ActionSrv => if IsRequest(role) then Reader else Writer
    case ServiceCli | ActionCli => if IsRequest(role) then Writer else Reader
  }

  /** Topics are complete while they exist, services and actions once every role is discovered. */
  predicate Complete(kind: Kind, iface: Iface) {
    IsTopic(kind) || forall role | role in Roles(kind) :: role in iface.slots
  }

  // ---- Classification of DDS topics -------------------------------------------------------

  function MessageType(dds: string): string {
    var r := Replace(Replace(dds, "::dds_::", "::"), "::", "/");
    if EndsWith(r, "_") then r[..|r| - 1] else r
  }

  function FirstStripped(s: string, suffixes: seq<string>): string {
    if suffixes == [] then s
    else match StripSuffix(s, suffixes[0])
      case Some(r) => r
      case None => FirstStripped(s, suffixes[1..])
  }

  function ServiceType(dds: string): string {
    MessageType(FirstStripped(dds, ["_Request_", "_Response_"]))
  }

  function ActionType(dds: string): string {
    MessageType(FirstStripped(dds, ["_SendGoal_Request_", "_SendGoal_Response_", "_GetResult_Request_",
                                    "_GetResult_Response_", "_FeedbackMessage_"]))
  }

  function ServiceKind(side: Side, role: Role): Kind {
    if IsRequest(role) == side.Reader? then ServiceSrv else ServiceCli
  }

  function ActionKind(side: Side, role: Role): Kind {
    if IsRequest(role) == side.Reader? then ActionSrv else ActionCli
  }

  /** An action role's DDS topic suffix; cancel and status endpoints have generic types telling nothing. */
  datatype Pattern = Pattern(suffix: string, role: Role, typed: bool)

  function Patterns(prefix: string): seq<Pattern> {
    if prefix == "rt/" then
      [Pattern("/_action/status", Status, false), Pattern("/_action/feedback", Feedback, true)]
    else if prefix == "rq/" then
      [Pattern("/_action/send_goalRequest", SendRequest, true),
       Pattern("/_action/cancel_goalRequest", CancelRequest, false),
       Pattern("/_action/get_resultRequest", ResultRequest, true)]
    else if prefix == "rr/" then
      [Pattern("/_action/send_goalReply", SendReply, true),
       Pattern("/_action/cancel_goalReply", CancelReply, false),
       Pattern("/_action/get_resultReply", ResultReply, true)]
    else []
  }

  function MatchPattern(name: string, patterns: seq<Pattern>): Option<Pattern> {
    if patterns == [] then None
    else if EndsWith(name, patterns[0].suffix) then Some(patterns[0])
    else MatchPattern(name, patterns[1..])
  }

  lemma MatchedSuffix(name: string, patterns: seq<Pattern>)
    ensures MatchPattern(name, patterns).Some? ==>
              EndsWith(name, MatchPattern(name, patterns).value.suffix)
              && MatchPattern(name, patterns).value in patterns
  {
  }

  /** Where `update_with_reader` and `update_with_writer` dispatch an endpoint, None if its topic is not a ROS one. */
  function Classify(e: Entity): Option<Use> {
    if |e.topic| < 3 then None
    else
      var prefix, name, side := e.topic[..3], e.topic[2..], e.end.side;
      MatchedSuffix(name, Patterns(prefix));
      match MatchPattern(name, Patterns(prefix))
      case Some(p) =>
        Some(Use(Key(ActionKind(side, p.role), name[..|name| - |p.suffix|]), p.role,
                 if p.typed then Some(ActionType(e.typ)) else None))
      case None =>
        if prefix == "rt/" then
          Some(Use(Key(TopicKind(side), name), Endpoint, Some(MessageType(e.typ))))
        else if prefix == "rq/" && EndsWith(name, "Request") then
          Some(Use(Key(ServiceKind(side, Request), name[..|name| - 7]), Request, Some(ServiceType(e.typ))))
        else if prefix == "rr/" && EndsWith(name, "Reply") then
          Some(Use(Key(ServiceKind(side, Reply), name[..|name| - 5]), Reply, Some(ServiceType(e.typ))))
        else None
  }

  /** A classified endpoint plays a role of its interface kind, on the side that kind gives the role. */
  lemma ClassifiedRole(e: Entity)
    ensures Classify(e).Some? ==>
              var u := Classify(e).value;
              u.role in Roles(u.key.kind) && SideOf(u.key.kind, u.role) == e.end.side
              && (u.role == Endpoint <==> IsTopic(u.key.kind))
              && (u.typ.None? <==> u.role in {Status, CancelRequest, CancelReply})
  {
    if |e.topic| >= 3 {
      MatchedSuffix(e.topic[2..], Patterns(e.topic[..3]));
    }
  }

  function Suffix(role: Role): string {
    match role
    case Endpoint => ""
    case Request => "Request"
    case Reply => "Reply"
    case Status => "/_action/status"
    case Feedback => "/_action/feedback"
    case SendRequest => "/_action/send_goalRequest"
    case CancelRequest => "/_action/cancel_goalRequest"
    case ResultRequest => "/_action/get_resultRequest"
    case SendReply => "/_action/send_goalReply"
    case CancelReply => "/_action/cancel_goalReply"
    case ResultReply => "/_action/get_resultReply"
  }

  lemma LastDiffers(s: string, a: string, b: string, k: nat)
    requires k < |a| && k < |b| && a[|a| - 1 - k] != b[|b| - 1 - k]
    ensures !EndsWith(s + a, b)
  {
  }

  function TopicPrefix(role: Role): string {
    if IsRequest(role) then "rq"
    else if role in {Endpoint, Status, Feedback} then "rt"
    else "rr"
  }

  /** The DDS topic a route creates for `role` of the ROS interface `name`. */
  function DdsTopic(name: string, role: Role): string {
    TopicPrefix(role) + name + Suffix(role)
  }

  lemma MatchThree(s: string, p: Pattern, q: Pattern, r: Pattern)
    ensures MatchPattern(s, [p, q, r]) == if EndsWith(s, p.suffix) then Some(p)
                                          else if EndsWith(s, q.suffix) then Some(q)
                                          else if EndsWith(s, r.suffix) then Some(r) else None
  {
    assert [p, q, r][1..] == [q, r] && [q, r][1..] == [r];
    assert MatchPattern(s, [q, r]) == if EndsWith(s, q.suffix) then Some(q) else MatchPattern(s, [r]);
  }

  lemma MatchRequest(name: string, role: Role)
    requires role in {SendRequest, CancelRequest, ResultRequest}
    ensures MatchPattern(name + Suffix(role), Patterns("rq/")) == Some(Pattern(Suffix(role), role, !Untyped(role)))
  {
    MatchThree(name + Suffix(role), Pattern(Suffix(SendRequest), SendRequest, true),
               Pattern(Suffix(CancelRequest), CancelRequest, false),
                   Pattern(Suffix(ResultRequest), ResultRequest, true));
    StripConcat(name, Suffix(role));
    OtherRequests(name, role);
  }

  lemma MatchReply(name: string, role: Role)
    requires role in {SendReply, CancelReply, ResultReply}
    ensures MatchPattern(name + Suffix(role), Patterns("rr/")) == Some(Pattern(Suffix(role), role, !Untyped(role)))
  {
    MatchThree(name + Suffix(role), Pattern(Suffix(SendReply), SendReply, true),
               Pattern(Suffix(CancelReply), CancelReply, false), Pattern(Suffix(ResultReply), ResultReply, true));
    StripConcat(name, Suffix(role));
    OtherReplies(name, role);
  }

  lemma MatchTopic(name: string, role: Role)
    requires role in {Status, Feedback}
    ensures MatchPattern(name + Suffix(role), Patterns("rt/")) == Some(Pattern(Suffix(role), role, !Untyped(role)))
  {
    var p, q := Pattern(Suffix(Status), Status, false), Pattern(Suffix(Feedback), Feedback, true);
    assert [p, q][1..] == [q];
    StripConcat(name, Suffix(role));
    if role == Feedback {
      LastDiffers(name, Suffix(Feedback), Suffix(Status), 0);
    }
  }

  /** A topic that matches an action pattern is dispatched to that action. */
  lemma ClassifyMatched(e: Entity, p: Pattern)
    requires |e.topic| >= 3 && MatchPattern(e.topic[2..], Patterns(e.topic[..3])) == Some(p)
    ensures |p.suffix| <= |e.topic[2..]|
    ensures Classify(e).Some? && Classify(e).value.role == p.role
    ensures Classify(e).value.key == Key(ActionKind(e.end.side, p.role), e.topic[2..][..|e.topic[2..]| - |p.suffix|])
  {
    hide Patterns, MatchPattern;
    MatchedSuffix(e.topic[2..], Patterns(e.topic[..3]));
  }

  /** The action topics of all sub-routes are dispatched back to that action, role and kind. */
  lemma ClassifyActionTopic(name: string, role: Role, e: Entity)
    requires ValidRosName(name) && role in Roles(ActionSrv)
    requires e.topic == DdsTopic(name, role)
    ensures Classify(e).Some?
    ensures var u := Classify(e).value;
            u.key == Key(ActionKind(e.end.side, role), name) && u.role == role
  {
    hide Classify, MatchPattern, Patterns, Suffix;
    StripConcat(name, Suffix(role));
    assert |e.topic| >= 3 && e.topic[2..] == name + Suffix(role);
    assert e.topic[..3] == TopicPrefix(role) + "/";
    if IsRequest(role) {
      MatchRequest(name, role);
      assert e.topic[..3] == "rq/";
    } else if role in {Status, Feedback} {
      MatchTopic(name, role);
      assert e.topic[..3] == "rt/";
    } else {
      MatchReply(name, role);
      assert e.topic[..3] == "rr/";
    }
    ClassifyMatched(e, Pattern(Suffix(role), role, !Untyped(role)));
  }

  lemma OtherRequests(name: string, role: Role)
    ensures role == CancelRequest ==> !EndsWith(name + Suffix(role), Suffix(SendRequest))
    ensures role == ResultRequest ==> !EndsWith(name + Suffix(role), Suffix(SendRequest))
    ensures role == ResultRequest ==> !EndsWith(name + Suffix(role), Suffix(CancelRequest))
  {
    if role == CancelRequest {
      LastDiffers(name, Suffix(role), Suffix(SendRequest), 12);
    } else if role == ResultRequest {
      LastDiffers(name, Suffix(role), Suffix(SendRequest), 7);
      LastDiffers(name, Suffix(role), Suffix(CancelRequest), 7);
    }
  }

  lemma OtherReplies(name: string, role: Role)
    ensures role == CancelReply ==> !EndsWith(name + Suffix(role), Suffix(SendReply))
    ensures role == ResultReply ==> !EndsWith(name + Suffix(role), Suffix(SendReply))
    ensures role == ResultReply ==> !EndsWith(name + Suffix(role), Suffix(CancelReply))
  {
    if role == CancelReply {
      LastDiffers(name, Suffix(role), Suffix(SendReply), 10);
    } else if role == ResultReply {
      LastDiffers(name, Suffix(role), Suffix(SendReply), 5);
      LastDiffers(name, Suffix(role), Suffix(CancelReply), 5);
    }
  }

  // ---- Updating a node with an endpoint ---------------------------------------------------

  /** Only the leading '/' is checked: the source tests a constant for being a key expression. */
  predicate ValidRosName(name: string) {
    StartsWith(name, "/")
  }

  function SetSlot(slots: map<Role, Gid>, role: Role, gid: Gid): map<Role, Gid> {
    if gid == NOT_DISCOVERED then slots - {role} else slots[role := gid]
  }

  /** The interfaces after one of the `update_*` functions ran for use `u` of `gid`, and the interface to announce. */
  function Update(ifaces: Ifaces, u: Use, gid: Gid): (Ifaces, Option<Iface>) {
    var typ := if u.typ.Some? then u.typ.value else "";
    if u.key !in ifaces then
      if !ValidRosName(u.key.name) then (ifaces, None)
      else if u.role == Endpoint then
        var t := Iface(typ, {gid}, map[]);
        (ifaces[u.key := t], Some(t))
      else (ifaces[u.key := Iface(typ, {}, SetSlot(map[], u.role, gid))], None)
    else
      var v := ifaces[u.key];
      if u.role == Endpoint then
        if v.typ != typ || gid in v.endpoints then (ifaces, None)
        else
          var t := v.(endpoints := v.endpoints + {gid});
          (ifaces[u.key := t], if v.endpoints == {} then Some(t) else None)
      else
        var retyped := if u.typ.Some? then v.(typ := typ) else v;
        var filled := retyped.(slots := SetSlot(v.slots, u.role, gid));
        (ifaces[u.key := filled],
         if filled.slots != v.slots && Complete(u.key.kind, filled) then Some(filled)
         else if retyped.typ != v.typ && Complete(u.key.kind, v) then Some(retyped)
         else None)
  }

  /** `update_with_reader` and `update_with_writer`. */
  function Feed(ifaces: Ifaces, e: Entity): (Ifaces, seq<NodeEvent>) {
    match Classify(e)
    case None => (ifaces, [])
    case Some(u) =>
      var (ifaces', iface) := Update(ifaces, u, e.end.gid);
      (ifaces', if iface.Some? then [NodeEvent(true, u.key, iface.value)] else [])
  }

  function FeedAll(ifaces: Ifaces, es: seq<Entity>): (Ifaces, seq<NodeEvent>)
    decreases es
  {
    if es == [] then (ifaces, [])
    else
      var (i1, e1) := Feed(ifaces, es[0]);
      var (i2, e2) := FeedAll(i1, es[1..]);
      (i2, e1 + e2)
  }

  // ---- Removing an endpoint from a node ---------------------------------------------------

  /** Whether the interface at `key` uses `end` in some slot. */
  predicate Fills(key: Key, iface: Iface, end: End) {
    exists r | r in iface.slots :: iface.slots[r] == end.gid && SideOf(key.kind, r) == end.side
  }

  /**
   * Topics drop the endpoint one after the other until one is left empty, the `find_map` of
   * `remove_reader` and `remove_writer`. `order` is the iteration order of the hash map.
   */
  function DropEndpoint(ifaces: Ifaces, end: End, order: seq<Key>): (Ifaces, Option<Key>) {
    if order == [] then (ifaces, None)
    else
      var k := order[0];
      if k in ifaces && k.kind == TopicKind(end.side) && end.gid in ifaces[k].endpoints then
        var left := ifaces[k].(endpoints := ifaces[k].endpoints - {end.gid});
        if left.endpoints == {} then (ifaces[k := left], Some(k))
        else DropEndpoint(ifaces[k := left], end, order[1..])
      else DropEndpoint(ifaces, end, order[1..])
  }

  function FirstFilled(ifaces: Ifaces, end: End, order: seq<Key>): Option<Key> {
    if order == [] then None
    else if order[0] in ifaces && !IsTopic(order[0].kind) && Fills(order[0], ifaces[order[0]], end) then Some(order[0])
    else FirstFilled(ifaces, end, order[1..])
  }

  /** The interface `remove_reader` or `remove_writer` undiscovers, and the interfaces before it is taken out. */
  function Undiscovered(ifaces: Ifaces, end: End, order: seq<Key>): (r: (Ifaces, Option<Key>))
    ensures r.1.Some? ==> r.1.value in r.0 && r.0.Keys == ifaces.Keys
  {
    DropEndpointKeys(ifaces, end, order);
    var (dropped, topic) := DropEndpoint(ifaces, end, order);
    FirstFilledKey(dropped, end, order);
    (dropped, if topic.Some? then topic else FirstFilled(dropped, end, order))
  }

  lemma DropEndpointKeys(ifaces: Ifaces, end: End, order: seq<Key>)
    ensures DropEndpoint(ifaces, end, order).0.Keys == ifaces.Keys
    ensures DropEndpoint(ifaces, end, order).1.Some? ==> DropEndpoint(ifaces, end, order).1.value in ifaces
  {
  }

  lemma FirstFilledKey(ifaces: Ifaces, end: End, order: seq<Key>)
    ensures FirstFilled(ifaces, end, order).Some? ==> FirstFilled(ifaces, end, order).value in ifaces
  {
  }

  function Remove(node: Node, end: End, order: seq<Key>): (Node, seq<NodeEvent>) {
    match Undiscovered(node.ifaces, end, order)
    case (ifaces, Some(k)) => (node.(ifaces := ifaces - {k}), [NodeEvent(false, k, ifaces[k])])
    case (ifaces, None) => (Node(ifaces, node.parked - {end}), [])
  }

  /** The events of `remove_all_entities`, `order` enumerating the interfaces. */
  function AllUndiscovered(ifaces: Ifaces, order: seq<Key>): seq<NodeEvent> {
    if order == [] then []
    else (if order[0] in ifaces then [NodeEvent(false, order[0], ifaces[order[0]])] else [])
         + AllUndiscovered(ifaces, order[1..])
  }

  // ---- What the events say ----------------------------------------------------------------

  /** The interfaces a node has announced: those it holds complete. */
  function Announced(ifaces: Ifaces): set<Key> {
    set k | k in ifaces && Complete(k.kind, ifaces[k])
  }

  /** A listener adding what is discovered and removing what is undiscovered. */
  function Fold(known: set<Key>, events: seq<NodeEvent>): set<Key>
    decreases events
  {
    if events == [] then known
    else Fold(if events[0].discovered then known + {events[0].key} else known - {events[0].key}, events[1..])
  }

  lemma FoldConcat(known: set<Key>, a: seq<NodeEvent>, b: seq<NodeEvent>)
    ensures Fold(known, a + b) == Fold(Fold(known, a), b)
    decreases a
  {
    if a == [] {
      assert a + b == b;
    } else {
      assert (a + b)[1..] == a[1..] + b;
    }
  }

  lemma OneSlotIncomplete(kind: Kind, typ: string, role: Role, gid: Gid)
    requires !IsTopic(kind)
    ensures !Complete(kind, Iface(typ, {}, SetSlot(map[], role, gid)))
  {
    if role == Request || role == SendRequest {
      assert Reply in Roles(kind) || SendReply in Roles(kind);
    } else {
      assert Request in Roles(kind) || SendRequest in Roles(kind);
    }
  }

  /** Completeness is gained only with an event and never lost. */
  lemma UpdateAnnounced(ifaces: Ifaces, u: Use, gid: Gid)
    requires gid != NOT_DISCOVERED && u.role in Roles(u.key.kind)
    ensures var (ifaces', iface) := Update(ifaces, u, gid);
            Announced(ifaces') == Announced(ifaces) + (if iface.Some? then {u.key} else {})
  {
  }

  lemma FeedFold(ifaces: Ifaces, e: Entity)
    requires e.end.gid != NOT_DISCOVERED
    ensures Fold(Announced(ifaces), Feed(ifaces, e).1) == Announced(Feed(ifaces, e).0)
  {
    ClassifiedRole(e);
    if Classify(e).Some? {
      UpdateAnnounced(ifaces, Classify(e).value, e.end.gid);
    }
  }

  lemma {:induction false} FeedAllFold(ifaces: Ifaces, es: seq<Entity>)
    requires forall e | e in es :: e.end.gid != NOT_DISCOVERED
    ensures Fold(Announced(ifaces), FeedAll(ifaces, es).1) == Announced(FeedAll(ifaces, es).0)
    decreases es
  {
    if es != [] {
      FeedFold(ifaces, es[0]);
      FeedAllFold(Feed(ifaces, es[0]).0, es[1..]);
      FoldConcat(Announced(ifaces), Feed(ifaces, es[0]).1, FeedAll(Feed(ifaces, es[0]).0, es[1..]).1);
    }
  }

  lemma DropAnnounced(ifaces: Ifaces, end: End, order: seq<Key>)
    ensures Announced(DropEndpoint(ifaces, end, order).0) == Announced(ifaces)
  {
  }

  lemma RemoveFold(node: Node, end: End, order: seq<Key>)
    ensures Fold(Announced(node.ifaces), Remove(node, end, order).1) == Announced(Remove(node, end, order).0.ifaces)
  {
    DropAnnounced(node.ifaces, end, order);
    var r := Undiscovered(node.ifaces, end, order);
    if r.1.Some? {
      assert Announced(r.0 - {r.1.value}) == Announced(r.0) - {r.1.value};
    }
  }

  // ---- Assembling one interface -----------------------------------------------------------

  /** `es` are endpoints of the one service or action `key`: each role has one gid, typed roles agree on `typ`. */
  ghost predicate EndpointsOf(key: Key, typ: string, gids: map<Role, Gid>, es: seq<Entity>) {
    !IsTopic(key.kind) && ValidRosName(key.name) && typ != "" && gids.Keys == Roles(key.kind)
    && (forall r | r in gids :: gids[r] != NOT_DISCOVERED)
    && forall e | e in es ::
         Classify(e).Some? && Classify(e).value.key == key && Classify(e).value.role in gids
         && e.end.gid == gids[Classify(e).value.role]
         && (Classify(e).value.typ.Some? ==> Classify(e).value.typ.value == typ)
  }

  ghost function RolesSeen(es: seq<Entity>): set<Role> {
    set e | e in es && Classify(e).Some? :: Classify(e).value.role
  }

  ghost function PartialIface(typ: string, gids: map<Role, Gid>, seen: set<Role>): Iface {
    Iface(if forall r | r in seen :: Untyped(r) then "" else typ, {}, map r | r in gids && r in seen :: gids[r])
  }

  /** The state reached once the roles `seen` have arrived. */
  ghost predicate Assembling(ifaces: Ifaces, key: Key, typ: string, gids: map<Role, Gid>, seen: set<Role>) {
    if seen == {} then key !in ifaces else key in ifaces && ifaces[key] == PartialIface(typ, gids, seen)
  }

  lemma AssembleStep(ifaces: Ifaces, key: Key, typ: string, gids: map<Role, Gid>, seen: set<Role>, e: Entity)
    requires EndpointsOf(key, typ, gids, [e]) && seen <= gids.Keys && Assembling(ifaces, key, typ, gids, seen)
    ensures var seen' := seen + {Classify(e).value.role};
            Assembling(Feed(ifaces, e).0, key, typ, gids, seen')
            && Feed(ifaces, e).1 == if seen' == gids.Keys && seen != seen'
                                    then [NodeEvent(true, key, Iface(typ, {}, gids))] else []
  {
    hide Classify;
    assert e in [e];
    ClassifiedRole(e);
    var u := Classify(e).value;
    var seen' := seen + {u.role};
    var before, after := PartialIface(typ, gids, seen), PartialIface(typ, gids, seen');
    assert SetSlot(before.slots, u.role, e.end.gid) == after.slots;
    assert (forall r | r in seen' :: Untyped(r)) <==> (forall r | r in seen :: Untyped(r)) && Untyped(u.role);
    assert Complete(key.kind, before) <==> seen == gids.Keys;
    assert Complete(key.kind, after) <==> seen' == gids.Keys;
    if seen == {} {
      OneSlotIncomplete(key.kind, after.typ, u.role, e.end.gid);
      assert SetSlot(map[], u.role, e.end.gid) == after.slots;
    }
    if seen' == gids.Keys {
      assert after.slots == gids;
      assert !Untyped(Request) && !Untyped(SendRequest);
      assert Request in seen' || SendRequest in seen';
    }
  }

  lemma {:induction false} AssembleFrom(ifaces: Ifaces, key: Key, typ: string, gids: map<Role, Gid>, seen: set<Role>,
      es: seq<Entity>)
    requires EndpointsOf(key, typ, gids, es) && seen <= gids.Keys && Assembling(ifaces, key, typ, gids, seen)
    ensures FeedAll(ifaces, es).1 == if seen + RolesSeen(es) == gids.Keys && seen != gids.Keys
                                     then [NodeEvent(true, key, Iface(typ, {}, gids))] else []
    decreases es
  {
    hide Classify;
    if es != [] {
      assert EndpointsOf(key, typ, gids, [es[0]]);
      AssembleStep(ifaces, key, typ, gids, seen, es[0]);
      var seen' := seen + {Classify(es[0]).value.role};
      assert RolesSeen(es) == {Classify(es[0]).value.role} + RolesSeen(es[1..]) by {
        assert es == [es[0]] + es[1..];
      }
      AssembleFrom(Feed(ifaces, es[0]).0, key, typ, gids, seen', es[1..]);
    } else {
      assert RolesSeen(es) == {};
    }
  }

  /**
   * Whatever the order and the repetitions in which the endpoints of one service or action arrive, nothing is
   * announced until every role was seen, and then exactly one event, carrying all gids and the type.
   */
  lemma AnnouncedOnceComplete(ifaces: Ifaces, key: Key, typ: string, gids: map<Role, Gid>, es: seq<Entity>, n: nat)
    requires EndpointsOf(key, typ, gids, es) && key !in ifaces && n <= |es|
    ensures FeedAll(ifaces, es[..n]).1 == if RolesSeen(es[..n]) == gids.Keys
                                          then [NodeEvent(true, key, Iface(typ, {}, gids))] else []
  {
    hide Classify;
    assert Request in gids || SendRequest in gids;
    AssembleFrom(ifaces, key, typ, gids, {}, es[..n]);
  }

  // ---- Confluence -------------------------------------------------------------------------

  /** An endpoint once classified. */
  datatype Fact = Fact(use: Use, gid: Gid)

  ghost function FactsOf(es: set<Entity>): set<Fact> {
    set e | e in es && Classify(e).Some? :: Fact(Classify(e).value, e.end.gid)
  }

  predicate Plays(f: Fact, k: Key, r: Role) {
    f.use.key == k && f.use.role == r
  }

  predicate ProperFact(f: Fact) {
    f.gid != NOT_DISCOVERED && f.use.role in Roles(f.use.key.kind)
    && (f.use.role == Endpoint ==> f.use.typ.Some?)
  }

  /** Endpoints of one interface agree on its type, and each role of a service or action has one endpoint. */
  predicate Agree(e: Fact, f: Fact) {
    e.use.key == f.use.key ==>
      (e.use.typ.Some? && f.use.typ.Some? ==> e.use.typ == f.use.typ)
      && (e.use.role == f.use.role && e.use.role != Endpoint ==> e.gid == f.gid)
  }

  ghost predicate Consistent(fs: set<Fact>) {
    (forall f | f in fs :: ProperFact(f)) && forall e, f | e in fs && f in fs :: Agree(e, f)
  }

  ghost function TypeIn(k: Key, fs: set<Fact>): string {
    if f :| f in fs && f.use.key == k && f.use.typ.Some? then f.use.typ.value else ""
  }

  ghost predicate Played(k: Key, r: Role, fs: set<Fact>) {
    exists f | f in fs :: Plays(f, k, r)
  }

  ghost function HolderIn(k: Key, r: Role, fs: set<Fact>): Gid
    requires Played(k, r, fs)
  {
    var f :| f in fs && Plays(f, k, r); f.gid
  }

  ghost function SlotsIn(k: Key, fs: set<Fact>): map<Role, Gid> {
    map r | r in Roles(k.kind) && r != Endpoint && Played(k, r, fs) :: HolderIn(k, r, fs)
  }

  /** The interface `k` as the facts alone determine it. */
  ghost function Summary(k: Key, fs: set<Fact>): Iface {
    Iface(TypeIn(k, fs), set f | f in fs && Plays(f, k, Endpoint) :: f.gid, SlotsIn(k, fs))
  }

  ghost function CanonKeys(fs: set<Fact>): set<Key> {
    set f | f in fs && ValidRosName(f.use.key.name) :: f.use.key
  }

  /** The interfaces of a node that was fed exactly the facts `fs`, in whatever order. */
  ghost function Canon(fs: set<Fact>): Ifaces {
    map k | k in CanonKeys(fs) :: Summary(k, fs)
  }

  lemma HolderInIs(k: Key, r: Role, fs: set<Fact>, f: Fact)
    requires Consistent(fs) && f in fs && Plays(f, k, r) && r != Endpoint
    ensures Played(k, r, fs) && HolderIn(k, r, fs) == f.gid
  {
  }

  lemma TypeStep(k: Key, fs: set<Fact>, f: Fact)
    requires Consistent(fs + {f})
    ensures TypeIn(k, fs + {f}) == if f.use.key == k && f.use.typ.Some? then f.use.typ.value else TypeIn(k, fs)
  {
  }

  lemma SlotsStep(k: Key, fs: set<Fact>, f: Fact)
    requires Consistent(fs + {f})
    ensures SlotsIn(k, fs + {f}) == if f.use.key == k && f.use.role != Endpoint
                                    then SetSlot(SlotsIn(k, fs), f.use.role, f.gid) else SlotsIn(k, fs)
  {
    forall r | r != Endpoint
      ensures Played(k, r, fs + {f}) <==> Played(k, r, fs) || Plays(f, k, r)
      ensures Plays(f, k, r) ==> HolderIn(k, r, fs + {f}) == f.gid
      ensures Played(k, r, fs) && !Plays(f, k, r) ==> HolderIn(k, r, fs + {f}) == HolderIn(k, r, fs)
    {
      if Plays(f, k, r) {
        HolderInIs(k, r, fs + {f}, f);
      } else if g :| g in fs && Plays(g, k, r) {
        HolderInIs(k, r, fs, g);
        HolderInIs(k, r, fs + {f}, g);
      }
    }
    assert ProperFact(f);
  }

  lemma SummaryStep(k: Key, fs: set<Fact>, f: Fact)
    requires Consistent(fs + {f})
    ensures var s := Summary(k, fs);
            Summary(k, fs + {f})
            == if f.use.key != k then s
               else if f.use.role == Endpoint then Iface(f.use.typ.value, s.endpoints + {f.gid}, s.slots)
               else Iface(if f.use.typ.Some? then f.use.typ.value else s.typ, s.endpoints,
                          SetSlot(s.slots, f.use.role, f.gid))
  {
    assert ProperFact(f);
    TypeStep(k, fs, f);
    SlotsStep(k, fs, f);
    var s, s' := Summary(k, fs), Summary(k, fs + {f});
    assert s'.endpoints == if Plays(f, k, Endpoint) then s.endpoints + {f.gid} else s.endpoints;
  }

  /** An endpoint agrees on the type of what is already known of its topic. */
  lemma SameType(fs: set<Fact>, f: Fact)
    requires Consistent(fs + {f}) && f.use.key in CanonKeys(fs) && f.use.role == Endpoint
    ensures f.use.typ.Some? && TypeIn(f.use.key, fs) == f.use.typ.value
  {
  }

  lemma CanonKeysStep(fs: set<Fact>, f: Fact)
    ensures CanonKeys(fs + {f}) == CanonKeys(fs) + (if ValidRosName(f.use.key.name) then {f.use.key} else {})
  {
  }

  /** The interface the fact concerns: what `Update` stores is the summary of the larger set. */
  lemma CanonStepHere(fs: set<Fact>, f: Fact)
    requires Consistent(fs + {f}) && ValidRosName(f.use.key.name)
    ensures var fed := Update(Canon(fs), f.use, f.gid).0;
            f.use.key in fed && fed[f.use.key] == Summary(f.use.key, fs + {f})
  {
    var k := f.use.key;
    assert f in fs + {f};
    SummaryStep(k, fs, f);
    if k in CanonKeys(fs) {
      if f.use.role == Endpoint {
        SameType(fs, f);
        var s := Summary(k, fs);
        assert s.(endpoints := s.endpoints + {f.gid}) == Summary(k, fs + {f});
      }
    } else {
      NothingKnown(k, fs);
    }
  }

  /** Feeding a fact to the canonical node of a set gives the canonical node of the larger set. */
  lemma CanonStep(fs: set<Fact>, f: Fact)
    requires Consistent(fs + {f})
    ensures Update(Canon(fs), f.use, f.gid).0 == Canon(fs + {f})
  {
    hide Summary, Roles, Consistent;
    var k := f.use.key;
    var fed, after := Update(Canon(fs), f.use, f.gid).0, Canon(fs + {f});
    CanonKeysStep(fs, f);
    forall j | j in after && j != k ensures after[j] == Canon(fs)[j] {
      SummaryStep(j, fs, f);
    }
    if ValidRosName(k.name) {
      CanonStepHere(fs, f);
    }
    assert fed.Keys == after.Keys;
    assert forall j | j in fed :: fed[j] == after[j];
  }

  lemma NothingKnown(k: Key, fs: set<Fact>)
    requires ValidRosName(k.name) && k !in CanonKeys(fs)
    ensures Summary(k, fs) == Iface("", {}, map[])
  {
  }

  lemma FactsStep(es: set<Entity>, e: Entity)
    ensures FactsOf(es + {e})
         == FactsOf(es) + (if Classify(e).Some? then {Fact(Classify(e).value, e.end.gid)} else {})
  {
  }

  /** However a set of endpoints is ordered, feeding them all leads to its canonical node. */
  lemma {:induction false} CanonAll(es: set<Entity>, order: seq<Entity>)
    requires Consistent(FactsOf(es + Elements(order)))
    ensures FeedAll(Canon(FactsOf(es)), order).0 == Canon(FactsOf(es + Elements(order)))
    decreases order
  {
    hide Classify, Canon;
    if order == [] {
      assert es + Elements(order) == es;
    } else {
      var e := order[0];
      assert order == [e] + order[1..];
      assert es + {e} + Elements(order[1..]) == es + Elements(order);
      FactsStep(es, e);
      if Classify(e).Some? {
        assert FactsOf(es + {e}) <= FactsOf(es + Elements(order));
        CanonStep(FactsOf(es), Fact(Classify(e).value, e.end.gid));
      } else {
        assert FactsOf(es + {e}) == FactsOf(es);
      }
      assert Feed(Canon(FactsOf(es)), e).0 == Canon(FactsOf(es + {e}));
      CanonAll(es + {e}, order[1..]);
    }
  }

  // ---- The node object --------------------------------------------------------------------

  class NodeInfo {
    var ifaces: Ifaces
    var parked: set<End>

    ghost function State(): Node
      reads this
    {
      Node(ifaces, parked)
    }

    constructor ()
      ensures State() == Node(map[], {})
    {
      ifaces, parked := map[], {};
    }

    /** `update_with_reader` or `update_with_writer`, and the `update_*` function it dispatches to. */
    method UpdateWith(e: Entity) returns (events: seq<NodeEvent>)
      modifies this`ifaces
      ensures (ifaces, events) == Feed(old(ifaces), e)
    {
      hide Classify;
      events := [];
      var use := Classify(e);
      if use.None? { return; }
      var u, gid := use.value, e.end.gid;
      var typ := if u.typ.Some? then u.typ.value else "";
      if u.key !in ifaces {
        if !ValidRosName(u.key.name) { return; }
        if u.role == Endpoint {
          ifaces := ifaces[u.key := Iface(typ, {gid}, map[])];
          events := [NodeEvent(true, u.key, ifaces[u.key])];
        } else {
          ifaces := ifaces[u.key := Iface(typ, {}, SetSlot(map[], u.role, gid))];
        }
        return;
      }
      var v := ifaces[u.key];
      if u.role == Endpoint {
        if v.typ == typ && gid !in v.endpoints {
          ifaces := ifaces[u.key := v.(endpoints := v.endpoints + {gid})];
          OnlyEndpoint(v.endpoints, gid);
          if |ifaces[u.key].endpoints| == 1 {
            events := [NodeEvent(true, u.key, ifaces[u.key])];
          }
        }
        return;
      }
      if u.typ.Some? && v.typ != typ {
        ifaces := ifaces[u.key := v.(typ := typ)];
        if Complete(u.key.kind, ifaces[u.key]) {
          events := [NodeEvent(true, u.key, ifaces[u.key])];
        }
      }
      var slots := SetSlot(v.slots, u.role, gid);
      if slots != v.slots {
        ifaces := ifaces[u.key := ifaces[u.key].(slots := slots)];
        if Complete(u.key.kind, ifaces[u.key]) {
          events := [NodeEvent(true, u.key, ifaces[u.key])];
        }
      }
      assert ifaces == old(ifaces)[u.key := (if u.typ.Some? then v.(typ := typ) else v).(slots := slots)];
    }

    /** `remove_reader` or `remove_writer`, `order` being the hash map iteration order it met. */
    method RemoveEnd(end: End) returns (events: seq<NodeEvent>, ghost order: seq<Key>)
      modifies this
      ensures Enumerates(order, old(ifaces).Keys)
      ensures (State(), events) == Remove(old(State()), end, order)
    {
      var keys := IterationOrder(ifaces.Keys);
      order := keys;
      ghost var node := State();
      for i := 0 to |keys|
        invariant parked == old(parked)
        invariant DropEndpoint(ifaces, end, keys[i..]) == DropEndpoint(node.ifaces, end, keys)
      {
        var k := keys[i];
        assert keys[i..][1..] == keys[i + 1..];
        if k in ifaces && k.kind == TopicKind(end.side) && end.gid in ifaces[k].endpoints {
          ifaces := ifaces[k := ifaces[k].(endpoints := ifaces[k].endpoints - {end.gid})];
          if ifaces[k].endpoints == {} {
            events := [NodeEvent(false, k, ifaces[k])];
            ifaces := ifaces - {k};
            return;
          }
        }
      }
      for i := 0 to |keys|
        invariant State() == Node(DropEndpoint(node.ifaces, end, keys).0, node.parked)
        invariant FirstFilled(ifaces, end, keys[i..]) == FirstFilled(ifaces, end, keys)
      {
        var k := keys[i];
        assert keys[i..][1..] == keys[i + 1..];
        if k in ifaces && !IsTopic(k.kind) && Fills(k, ifaces[k], end) {
          events := [NodeEvent(false, k, ifaces[k])];
          ifaces := ifaces - {k};
          return;
        }
      }
      events := [];
      parked := parked - {end};
    }

    method RemoveAll() returns (events: seq<NodeEvent>, ghost order: seq<Key>)
      modifies this
      ensures Enumerates(order, old(ifaces).Keys) && State() == Node(map[], {})
      ensures events == AllUndiscovered(old(ifaces), order)
    {
      var keys := IterationOrder(ifaces.Keys);
      order := keys;
      events := [];
      for i := 0 to |keys|
        invariant ifaces == old(ifaces)
        invariant events + AllUndiscovered(ifaces, keys[i..]) == AllUndiscovered(ifaces, keys)
      {
        assert keys[i] in keys && keys[i..][1..] == keys[i + 1..];
        events := events + [NodeEvent(false, keys[i], ifaces[keys[i]])];
      }
      ifaces, parked := map[], {};
    }
  }

  lemma OnlyEndpoint(s: set<Gid>, gid: Gid)
    requires gid !in s
    ensures |s + {gid}| == 1 <==> s == {}
  {
  }
}

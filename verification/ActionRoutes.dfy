/**
 * An action route, server or client side, has five sub-routes. Adding, removing and pruning keep them
 * in step with the route's own users.
 */
module ActionRoutes {
  import opened Wrappers
  import opened Text
  import opened Names
  import opened NodeInfo
  import opened Routes

  /** The sub-routes, by the last part of their names. */
  datatype Part = SendGoal | CancelGoal | GetResult | FeedbackPart | StatusPart

  function PartSuffix(p: Part): string {
    match p
    case SendGoal => "_action/send_goal"
    case CancelGoal => "_action/cancel_goal"
    case GetResult => "_action/get_result"
    case FeedbackPart => "_action/feedback"
    case StatusPart => "_action/status"
  }

  /** The users of a route: nodes, and "<zenoh_id>:<key>" entries. */
  datatype Users = Users(local: set<string>, remote: set<string>)

  const NOBODY := Users({}, {})

  predicate Idle(u: Users) {
    u.local == {} && u.remote == {}
  }

  function Entry(zid: string, ke: string): string {
    zid + ":" + ke
  }

  function AddRemote(u: Users, zid: string, ke: string): Users {
    u.(remote := u.remote + {Entry(zid, ke)})
  }

  function RemoveRemote(u: Users, zid: string, ke: string): Users {
    u.(remote := u.remote - {Entry(zid, ke)})
  }

  function AddLocal(u: Users, node: string): Users {
    u.(local := u.local + {node})
  }

  function RemoveLocal(u: Users, node: string): Users {
    u.(local := u.local - {node})
  }

  /** The users left once those of a bridge are pruned. */
  function PruneUsers(u: Users, prefix: string): Users {
    u.(remote := set x | x in u.remote && !StartsWith(x, prefix))
  }

  /** The key of a sub-route. */
  function PartKey(ke: string, p: Part): string {
    ke + "/" + PartSuffix(p)
  }

  datatype Action = Action(own: Users, parts: Part -> Users)

  const NEW_ACTION := Action(NOBODY, p => NOBODY)

  datatype Op =
    | RemoteAdded(zid: string, ke: string)
    | RemoteRemoved(zid: string, ke: string)
    | BridgePruned(prefix: string)
    | NodeAdded(node: string)
    | NodeRemoved(node: string)

  /** What happens to one route, for the sub-route `p` with its own key. */
  function UsersAfter(u: Users, op: Op, p: Option<Part>): Users {
    match op
    case RemoteAdded(zid, ke) => AddRemote(u, zid, if p.Some? then PartKey(ke, p.value) else ke)
    case RemoteRemoved(zid, ke) => RemoveRemote(u, zid, if p.Some? then PartKey(ke, p.value) else ke)
    case BridgePruned(prefix) => PruneUsers(u, prefix)
    case NodeAdded(node) => AddLocal(u, node)
    case NodeRemoved(node) => RemoveLocal(u, node)
  }

  function Next(a: Action, op: Op): Action {
    Action(UsersAfter(a.own, op, None), p => UsersAfter(a.parts(p), op, Some(p)))
  }

  /** `is_unused`, which asks the sub-routes. */
  predicate IsUnused(a: Action) {
    Idle(a.parts(SendGoal)) && Idle(a.parts(CancelGoal)) && Idle(a.parts(GetResult)) && Idle(a.parts(StatusPart))
    && Idle(a.parts(FeedbackPart))
  }

  /** The sub-route has the route's own users, under its own key. */
  ghost predicate InStep(own: Users, u: Users, p: Part) {
    u.local == own.local
    && (forall x :: x in own.remote ==> x + "/" + PartSuffix(p) in u.remote)
    && forall y :: y in u.remote ==> exists x | x in own.remote :: y == x + "/" + PartSuffix(p)
  }

  ghost predicate AllInStep(a: Action) {
    forall p: Part :: InStep(a.own, a.parts(p), p)
  }

  /** Zenoh ids have no colon, so prefixes are "<zenoh_id>:" with entries starting likewise. */
  predicate ProperOp(op: Op) {
    match op
    case BridgePruned(prefix) => exists n | n == |prefix| - 1 :: n >= 0 && prefix[n..] == ":" && NoColon(prefix[..n])
    case RemoteAdded(zid, _) => NoColon(zid)
    case RemoteRemoved(zid, _) => NoColon(zid)
    case _ => true
  }

  /** Entries are "<zenoh_id>:...". */
  ghost predicate Prefixed(u: Users) {
    forall x | x in u.remote :: ':' in x
  }

  lemma EntryOfPart(zid: string, ke: string, p: Part)
    ensures Entry(zid, PartKey(ke, p)) == Entry(zid, ke) + "/" + PartSuffix(p)
  {
  }

  lemma SuffixCancels(x: string, y: string, s: string)
    requires x + s == y + s
    ensures x == y
  {
    assert |x| == |y|;
    assert (x + s)[..|x|] == x && (y + s)[..|y|] == y;
  }

  lemma NoColonAt(s: string)
    requires NoColon(s)
    ensures forall i | 0 <= i < |s| :: s[i] != ':'
  {
  }

  /** An entry and its extension are pruned together, for the prefix ends in the entry's own colon. */
  lemma PrunedTogether(x: string, tail: string, prefix: string)
    requires ':' in x && prefix != "" && prefix[|prefix| - 1] == ':' && NoColon(prefix[..|prefix| - 1])
    ensures StartsWith(x + tail, prefix) <==> StartsWith(x, prefix)
  {
    var i :| 0 <= i < |x| && x[i] == ':';
    var n := |prefix| - 1;
    NoColonAt(prefix[..n]);
    if StartsWith(x + tail, prefix) {
      assert (x + tail)[..|prefix|] == prefix;
      assert forall j | 0 <= j < n :: prefix[..n][j] == (x + tail)[j];
      assert forall j | 0 <= j < n :: (x + tail)[j] != ':';
      assert (x + tail)[i] == ':' && n <= i;
      assert x[..|prefix|] == (x + tail)[..|prefix|];
    }
    if StartsWith(x, prefix) {
      assert (x + tail)[..|prefix|] == x[..|prefix|];
    }
  }

  lemma InStepKept(own: Users, u: Users, op: Op, p: Part)
    requires InStep(own, u, p) && Prefixed(own) && ProperOp(op)
    ensures InStep(UsersAfter(own, op, None), UsersAfter(u, op, Some(p)), p) && Prefixed(UsersAfter(own, op, None))
  {
    hide PartSuffix;
    var s := "/" + PartSuffix(p);
    assert forall x: string :: x + "/" + PartSuffix(p) == x + s;
    match op
    case RemoteAdded(zid, ke) =>
      EntryOfPart(zid, ke, p);
      assert Entry(zid, ke)[|zid|] == ':';
    case RemoteRemoved(zid, ke) =>
      EntryOfPart(zid, ke, p);
      forall x | x + s == Entry(zid, ke) + s ensures x == Entry(zid, ke) {
        SuffixCancels(x, Entry(zid, ke), s);
      }
    case BridgePruned(prefix) =>
      forall x | x in own.remote ensures StartsWith(x + s, prefix) <==> StartsWith(x, prefix) {
        PrunedTogether(x, s, prefix);
      }
    case _ =>
  }

  function Run(a: Action, ops: seq<Op>): Action
    decreases ops
  {
    if ops == [] then a else Run(Next(a, ops[0]), ops[1..])
  }

  lemma {:induction false} RunInStep(a: Action, ops: seq<Op>)
    requires AllInStep(a) && Prefixed(a.own) && forall op | op in ops :: ProperOp(op)
    ensures AllInStep(Run(a, ops)) && Prefixed(Run(a, ops).own)
    decreases ops
  {
    hide InStep, Prefixed, UsersAfter, ProperOp;
    if ops != [] {
      assert ops[0] in ops;
      forall p: Part ensures InStep(Next(a, ops[0]).own, Next(a, ops[0]).parts(p), p) {
        InStepKept(a.own, a.parts(p), ops[0], p);
      }
      InStepKept(a.own, a.parts(SendGoal), ops[0], SendGoal);
      RunInStep(Next(a, ops[0]), ops[1..]);
    }
  }

  /**
   * After any run the five sub-routes serve the same nodes and bridges as the action route, so the
   * action is unused exactly if it has no users of its own.
   */
  lemma UnusedTogether(ops: seq<Op>)
    requires forall op | op in ops :: ProperOp(op)
    ensures var a := Run(NEW_ACTION, ops);
            AllInStep(a) && (IsUnused(a) <==> Idle(a.own)) && forall p: Part :: Idle(a.parts(p)) <==> Idle(a.own)
  {
    hide PartSuffix;
    RunInStep(NEW_ACTION, ops);
    var a := Run(NEW_ACTION, ops);
    forall p: Part ensures Idle(a.parts(p)) <==> Idle(a.own) {
      assert InStep(a.own, a.parts(p), p);
      if x :| x in a.own.remote {
        assert x + "/" + PartSuffix(p) in a.parts(p).remote;
      }
    }
  }

  // ---- The route object -------------------------------------------------------------------

  class RouteAction {
    var own: Users
    var sendGoal: Users
    var cancelGoal: Users
    var getResult: Users
    var feedback: Users
    var status: Users

    ghost predicate Is(a: Action)
      reads this
    {
      own == a.own && sendGoal == a.parts(SendGoal) && cancelGoal == a.parts(CancelGoal)
      && getResult == a.parts(GetResult)
      && feedback == a.parts(FeedbackPart) && status == a.parts(StatusPart)
    }

    constructor ()
      ensures Is(NEW_ACTION)
    {
      own, sendGoal, cancelGoal, getResult, feedback, status := NOBODY, NOBODY, NOBODY, NOBODY, NOBODY, NOBODY;
    }

    method AddRemoteRoute(zid: string, ke: string, ghost a: Action)
      requires Is(a)
      modifies this
      ensures Is(Next(a, RemoteAdded(zid, ke)))
    {
      sendGoal := AddRemote(sendGoal, zid, PartKey(ke, SendGoal));
      cancelGoal := AddRemote(cancelGoal, zid, PartKey(ke, CancelGoal));
      getResult := AddRemote(getResult, zid, PartKey(ke, GetResult));
      feedback := AddRemote(feedback, zid, PartKey(ke, FeedbackPart));
      status := AddRemote(status, zid, PartKey(ke, StatusPart));
      own := AddRemote(own, zid, ke);
    }

    method RemoveRemoteRoute(zid: string, ke: string, ghost a: Action)
      requires Is(a)
      modifies this
      ensures Is(Next(a, RemoteRemoved(zid, ke)))
    {
      sendGoal := RemoveRemote(sendGoal, zid, PartKey(ke, SendGoal));
      cancelGoal := RemoveRemote(cancelGoal, zid, PartKey(ke, CancelGoal));
      getResult := RemoveRemote(getResult, zid, PartKey(ke, GetResult));
      feedback := RemoveRemote(feedback, zid, PartKey(ke, FeedbackPart));
      status := RemoveRemote(status, zid, PartKey(ke, StatusPart));
      own := RemoveRemote(own, zid, ke);
    }

    /** Every sub-route is pruned, whichever of them lose an entry. */
    method PruneRemoteRoutes(prefix: string, ghost a: Action) returns (pruned: bool)
      requires Is(a)
      modifies this
      ensures Is(Next(a, BridgePruned(prefix)))
      ensures pruned <==> own != a.own || sendGoal != a.parts(SendGoal) || cancelGoal != a.parts(CancelGoal)
                          || getResult != a.parts(GetResult) || feedback != a.parts(FeedbackPart)
                          || status != a.parts(StatusPart)
    {
      var was := (own, sendGoal, cancelGoal, getResult, feedback, status);
      sendGoal := PruneUsers(sendGoal, prefix);
      cancelGoal := PruneUsers(cancelGoal, prefix);
      getResult := PruneUsers(getResult, prefix);
      feedback := PruneUsers(feedback, prefix);
      status := PruneUsers(status, prefix);
      own := PruneUsers(own, prefix);
      pruned := was != (own, sendGoal, cancelGoal, getResult, feedback, status);
    }

    method AddLocalNode(node: string, ghost a: Action)
      requires Is(a)
      modifies this
      ensures Is(Next(a, NodeAdded(node)))
    {
      sendGoal, cancelGoal, getResult := AddLocal(sendGoal, node), AddLocal(cancelGoal, node),
          AddLocal(getResult, node);
      feedback, status, own := AddLocal(feedback, node), AddLocal(status, node), AddLocal(own, node);
    }

    method RemoveLocalNode(node: string, ghost a: Action)
      requires Is(a)
      modifies this
      ensures Is(Next(a, NodeRemoved(node)))
    {
      sendGoal, cancelGoal, getResult := RemoveLocal(sendGoal, node), RemoveLocal(cancelGoal, node),
          RemoveLocal(getResult, node);
      feedback, status, own := RemoveLocal(feedback, node), RemoveLocal(status, node), RemoveLocal(own, node);
    }
  }
}

/**
 * A topic route from zenoh to DDS: one DDS Writer, and sometimes a second, VOLATILE one, stand in for
 * all announced remote publishers.
 */
module RouteSubscriber {
  import opened Wrappers
  import opened Text
  import opened Names
  import opened Qos
  import opened QosOrder
  import opened Sorting
  import opened Dds
  import Routes

  /** `remotes` are the announced QoS by announcement, `writer` and `volatile` the QoS of the DDS Writers. */
  datatype Sub = Sub(remotes: map<string, Qos>, locals: set<string>, writer: Option<Qos>, volatile: Option<Qos>,
                     subscribed: bool, announced: bool)

  const NEW_ROUTE := Sub(map[], {}, None, None, false, false)

  /** Results of the fallible calls: DDS Writers created, zenoh subscriber and liveliness token declared. */
  datatype Outcome = Outcome(volatile: Creation, main: Creation, recovered: bool, declared: bool, token: bool)

  predicate IsTl(writer: Option<Qos>) {
    writer.Some? && IsTransientLocal(writer.value)
  }

  /** What a remote publisher key starts with, up to the first ':'. */
  function BridgeOf(key: string): string {
    if key == "" || key[0] == ':' then "" else [key[0]] + BridgeOf(key[1..])
  }

  function ListOf(keys: seq<string>, remotes: map<string, Qos>): seq<Remote>
    requires forall k | k in keys :: k in remotes
  {
    if keys == [] then [] else [Remote(BridgeOf(keys[0]), remotes[keys[0]])] + ListOf(keys[1..], remotes)
  }

  /** The announcements, in the order of their keys. */
  ghost function RemoteList(remotes: map<string, Qos>): seq<Remote> {
    ListOf(Sorted(remotes.Keys), remotes)
  }

  /** The Writers the announcements ask for. */
  ghost function Desired(remotes: map<string, Qos>): (Qos, Option<Qos>) {
    WritersQos(RemoteList(remotes))
  }

  /** A VOLATILE Writer for publishers that announce nothing. */
  function Fallback(announce: Qos): Qos {
    WriterQos([DEFAULT_QOS.(userData := announce.userData, history := announce.history)])
  }

  // ---- The methods of the route -----------------------------------------------------------

  /** `install_writer` and the re-declaration of the zenoh subscriber that may follow. */
  function Install(s: Sub, qos: Qos, again: bool, o: Outcome): (Sub, bool) {
    if !Works(o.main) then (s, false)
    else
      var s' := s.(writer := Some(qos));
      if s.subscribed && again then (s'.(subscribed := o.declared), o.declared) else (s', true)
  }

  /** The Writers become `main` and `volatile`, unless they are as good as that already. */
  function Adapt(s: Sub, main: Qos, volatile: Option<Qos>, o: Outcome): (Sub, bool) {
    if !SameOption(s.volatile, volatile, false) && volatile.Some? && !Works(o.volatile) then (s, false)
    else
      var s1 := if SameOption(s.volatile, volatile, false) then s else s.(volatile := volatile);
      if s1.writer.Some? && SameRouteQos(s1.writer.value, main, false) then (s1, true)
      else Install(s1, main, IsTl(s1.writer) || IsTransientLocal(main), o)
  }

  /** `update_writer`, with whether it succeeds. */
  ghost function Update(s: Sub, announce: Qos, o: Outcome): (Sub, bool) {
    if s.remotes == map[] then
      var s1 := s.(volatile := None);
      if IsTl(s1.writer) then Install(s1, Fallback(announce), true, o) else (s1, true)
    else if s.locals != {} && s.announced && !s.subscribed then
      if !o.recovered then (s, false)
      else Adapt(s.(subscribed := true), Desired(s.remotes).0, Desired(s.remotes).1, o)
    else Adapt(s, Desired(s.remotes).0, Desired(s.remotes).1, o)
  }

  /** `announce_route`, whose errors are only logged. */
  function Announce(s: Sub, announce: Qos, o: Outcome): Sub {
    if s.writer.None? && !Works(o.main) then s
    else
      var s1 := if s.writer.None? then s.(writer := Some(Fallback(announce))) else s;
      if !o.declared then s1
      else if !o.token then s1.(subscribed := true)
      else s1.(subscribed := true, announced := true)
  }

  function Retire(s: Sub): Sub {
    s.(subscribed := false, announced := false)
  }

  function AddNode(s: Sub, announce: Qos, node: string, o: Outcome): Sub {
    var s1 := s.(locals := s.locals + {node});
    if |s1.locals| == 1 then Announce(s1, announce, o) else s1
  }

  function RemoveNode(s: Sub, node: string): Sub {
    var s1 := s.(locals := s.locals - {node});
    if s1.locals == {} then Retire(s1) else s1
  }

  function MatchedReaders(s: Sub, announce: Qos, matched: bool, o: Outcome): Sub {
    if matched then
      if Routes.MATCHED_READERS_KEY in s.locals then s else AddNode(s, announce, Routes.MATCHED_READERS_KEY, o)
    else if Routes.MATCHED_READERS_KEY in s.locals then RemoveNode(s, Routes.MATCHED_READERS_KEY)
    else s
  }

  function WithoutBridge(remotes: map<string, Qos>, zid: string): map<string, Qos> {
    map k | k in remotes && !Routes.OfBridge(k, zid) :: remotes[k]
  }

  datatype Op =
    | Announced(key: string, qos: Qos, o: Outcome)
    | Retired(key: string, o: Outcome)
    | BridgeLeft(zid: string, o: Outcome)
    | NodeAdded(node: string, o: Outcome)
    | NodeRemoved(node: string)
    | Matched(matched: bool, o: Outcome)

  /** Announcements, retirements and prunes update the Writers, with whether that succeeds. */
  ghost function Step(s: Sub, announce: Qos, op: Op): (Sub, bool) {
    match op
    case Announced(key, qos, o) => Update(s.(remotes := s.remotes[key := qos]), announce, o)
    case Retired(key, o) => Update(s.(remotes := s.remotes - {key}), announce, o)
    case BridgeLeft(zid, o) => Update(s.(remotes := WithoutBridge(s.remotes, zid)), announce, o)
    case NodeAdded(node, o) => (AddNode(s, announce, node, o), true)
    case NodeRemoved(node) => (RemoveNode(s, node), true)
    case Matched(matched, o) => (MatchedReaders(s, announce, matched, o), true)
  }

  // ---- The Writers follow the live announcements ------------------------------------------

  /**
   * The Writers are those the live announcements ask for; without any, there is no TRANSIENT_LOCAL and
   * no second one.
   */
  ghost predicate Synced(s: Sub) {
    if s.remotes == map[] then s.volatile.None? && !IsTl(s.writer)
    else
      var (main, volatile) := Desired(s.remotes);
      s.writer.Some? && SameRouteQos(s.writer.value, main, false) && SameOption(s.volatile, volatile, false)
  }

  lemma FallbackVolatile(announce: Qos)
    ensures !IsTransientLocal(Fallback(announce))
  {
    hide RouteHistory;
  }

  /** A successful update leaves the Writers as asked for, whatever failed before. */
  lemma UpdateSyncs(s: Sub, announce: Qos, o: Outcome)
    ensures Update(s, announce, o).1 ==> Synced(Update(s, announce, o).0)
    ensures Update(s, announce, o).0.remotes == s.remotes
  {
    hide Desired, WriterQos, IsTransientLocal, HistoryOf;
    FallbackVolatile(announce);
  }

  /**
   * After a successful update the route is subscribed iff it was before, or it is announced for local
   * nodes while remote publishers are there, whatever re-declaration failed before.
   */
  lemma UpdateSubscribes(s: Sub, announce: Qos, o: Outcome)
    requires Update(s, announce, o).1
    ensures Update(s, announce, o).0.subscribed
            <==> s.subscribed || (s.remotes != map[] && s.locals != {} && s.announced)
  {
    hide Desired, WriterQos, IsTransientLocal, SameRouteQos;
  }

  /** Writer, zenoh subscriber and token can all be had. */
  predicate CanAnnounce(s: Sub, o: Outcome) {
    (s.writer.Some? || Works(o.main)) && o.declared && o.token
  }

  /**
   * An announcement that failed is not tried again while other local nodes are there: only a node that is alone on
   * the route announces it.
   */
  lemma SilentUntilAlone(s: Sub, announce: Qos, op: Op)
    requires !s.announced
    ensures Step(s, announce, op).0.announced <==>
              match op
              case NodeAdded(node, o) => s.locals <= {node} && CanAnnounce(s, o)
              case Matched(matched, o) => matched && s.locals == {} && CanAnnounce(s, o)
              case _ => false
  {
    hide Update, Fallback;
    match op
    case Announced(key, qos, o) => UpdateKeepsToken(s.(remotes := s.remotes[key := qos]), announce, o);
    case Retired(key, o) => UpdateKeepsToken(s.(remotes := s.remotes - {key}), announce, o);
    case BridgeLeft(zid, o) => UpdateKeepsToken(s.(remotes := WithoutBridge(s.remotes, zid)), announce, o);
    case NodeAdded(node, _) => OneAlone(s.locals, node);
    case Matched(_, _) => OneAlone(s.locals, Routes.MATCHED_READERS_KEY);
    case _ =>
  }

  lemma UpdateKeepsToken(s: Sub, announce: Qos, o: Outcome)
    ensures Update(s, announce, o).0.announced == s.announced
  {
    hide Desired, Fallback, IsTransientLocal, SameRouteQos, SameOption;
  }

  lemma OneAlone(nodes: set<string>, node: string)
    ensures |nodes + {node}| == 1 <==> nodes <= {node}
  {
    if nodes <= {node} {
      assert nodes + {node} == {node};
    } else {
      var other :| other in nodes && other != node;
      assert nodes + {node} == {node, other} + (nodes - {node, other});
    }
  }

  /** So a route stays unannounced though every call after its first token succeeds. */
  lemma AnnouncementForgotten(announce: Qos, node: string, other: string, key: string, qos: Qos, o: Outcome)
    requires node != other && CanAnnounce(NEW_ROUTE, o) && Works(o.volatile) && o.recovered
    ensures var s1 := Step(NEW_ROUTE, announce, NodeAdded(node, o.(token := false))).0;
            var s2 := Step(s1, announce, NodeAdded(other, o)).0;
            var (s3, ok) := Step(s2, announce, Announced(key, qos, o));
            ok && s3.locals == {node, other} && !s3.announced
  {
    hide Desired, Fallback, IsTransientLocal, SameRouteQos;
    OneAlone({}, node);
    OneAlone({node}, other);
  }

  /** At most a Writer was brought where there was none. */
  ghost predicate Kept(s: Sub, s': Sub, announce: Qos) {
    s'.remotes == s.remotes && s'.volatile == s.volatile
    && (s'.writer == s.writer || (s.writer.None? && s'.writer == Some(Fallback(announce))))
  }

  lemma AnnounceKeeps(s: Sub, locals: set<string>, announce: Qos, o: Outcome)
    ensures Kept(s, Announce(s.(locals := locals), announce, o), announce) && Kept(s, s.(locals := locals), announce)
  {
    hide Fallback;
  }

  lemma RetireKeeps(s: Sub, announce: Qos)
    ensures forall locals :: Kept(s, Retire(s.(locals := locals)), announce) && Kept(s, s.(locals := locals), announce)
    ensures Kept(s, s, announce)
  {
    hide Fallback;
  }

  lemma LocalStepKeeps(s: Sub, announce: Qos, op: Op)
    requires op.NodeAdded? || op.NodeRemoved? || op.Matched?
    ensures Kept(s, Step(s, announce, op).0, announce)
  {
    hide Update, Announce, Kept;
    match op
    case NodeAdded(node, o) => AnnounceKeeps(s, s.locals + {node}, announce, o);
    case NodeRemoved(_) => RetireKeeps(s, announce);
    case Matched(_, o) =>
      AnnounceKeeps(s, s.locals + {Routes.MATCHED_READERS_KEY}, announce, o);
      RetireKeeps(s, announce);
  }

  /** Local nodes come and go without touching the Writers of announced publishers. */
  lemma LocalStepSyncs(s: Sub, announce: Qos, op: Op)
    requires Synced(s) && (op.NodeAdded? || op.NodeRemoved? || op.Matched?)
    ensures Synced(Step(s, announce, op).0) && Step(s, announce, op).0.remotes == s.remotes
  {
    hide Desired, IsTransientLocal, SameRouteQos, SameOption, Step, Fallback;
    LocalStepKeeps(s, announce, op);
    FallbackVolatile(announce);
  }

  ghost function Run(s: Sub, announce: Qos, ops: seq<Op>): (Sub, bool)
    decreases ops
  {
    if ops == [] then (s, true)
    else
      var (s1, ok1) := Step(s, announce, ops[0]);
      var (s2, ok2) := Run(s1, announce, ops[1..]);
      (s2, ok1 && ok2)
  }

  function Live(remotes: map<string, Qos>, ops: seq<Op>): map<string, Qos>
    decreases ops
  {
    if ops == [] then remotes
    else
      Live(match ops[0]
           case Announced(key, qos, _) => remotes[key := qos]
           case Retired(key, _) => remotes - {key}
           case BridgeLeft(zid, _) => WithoutBridge(remotes, zid)
           case _ => remotes, ops[1..])
  }

  /**
   * After any run whose updates succeed, the Writers are those recomputed from the live announcements:
   * re-announcements, retirements and prunes in whatever order leave no trace.
   */
  lemma {:induction false} RunSynced(s: Sub, announce: Qos, ops: seq<Op>)
    requires Synced(s) && Run(s, announce, ops).1
    ensures var s' := Run(s, announce, ops).0; Synced(s') && s'.remotes == Live(s.remotes, ops)
    decreases ops
  {
    hide Synced, Update, AddNode, RemoveNode, MatchedReaders;
    if ops != [] {
      var op := ops[0];
      match op {
        case Announced(key, qos, o) => UpdateSyncs(s.(remotes := s.remotes[key := qos]), announce, o);
        case Retired(key, o) => UpdateSyncs(s.(remotes := s.remotes - {key}), announce, o);
        case BridgeLeft(zid, o) => UpdateSyncs(s.(remotes := WithoutBridge(s.remotes, zid)), announce, o);
        case _ => LocalStepSyncs(s, announce, op);
      }
      RunSynced(Step(s, announce, op).0, announce, ops[1..]);
    }
  }

  lemma {:induction false} ListHas(keys: seq<string>, remotes: map<string, Qos>)
    requires forall k | k in keys :: k in remotes
    ensures forall r :: r in ListOf(keys, remotes) <==> exists k | k in keys :: r == Remote(BridgeOf(k), remotes[k])
  {
    if keys != [] {
      assert keys == [keys[0]] + keys[1..];
      ListHas(keys[1..], remotes);
    }
  }

  lemma RemoteListHas(remotes: map<string, Qos>)
    ensures forall r :: r in RemoteList(remotes) <==> exists k | k in remotes :: r == Remote(BridgeOf(k), remotes[k])
  {
    ListHas(Sorted(remotes.Keys), remotes);
  }

  /** Some live announcement of the bridge has this durability. */
  predicate Announces(remotes: map<string, Qos>, bridge: string, tl: bool) {
    exists k | k in remotes :: BridgeOf(k) == bridge && IsTransientLocal(remotes[k]) == tl
  }

  /** The Writers of a synced route have the durabilities the live announcements call for. */
  lemma SyncedDurability(s: Sub)
    requires Synced(s)
    ensures IsTl(s.writer) <==> exists k | k in s.remotes :: IsTransientLocal(s.remotes[k])
    ensures s.volatile.Some? <==>
            exists k | k in s.remotes :: Announces(s.remotes, BridgeOf(k), true)
                && Announces(s.remotes, BridgeOf(k), false)
  {
    hide WritersQos, RemoteList, HistoryOf, IsTransientLocal, Marks, Announces;
    var live, remotes := s.remotes, RemoteList(s.remotes);
    RemoteListHas(live);
    WritersDurability(remotes);
    LiveTl(live);
    forall k | k in live
      ensures Marks(remotes, BridgeOf(k)) <==> Announces(live, BridgeOf(k), true) && Announces(live, BridgeOf(k), false)
      ensures Remote(BridgeOf(k), live[k]) in remotes
    {
      MarksLive(live, BridgeOf(k));
    }
    assert (exists r | r in remotes :: Marks(remotes, r.bridge))
        <==> exists k | k in live :: Marks(remotes, BridgeOf(k));
  }

  /**
   * The Writer is TRANSIENT_LOCAL iff some live announcement is, and there is a second, VOLATILE Writer
   * iff some bridge announces both durabilities.
   */
  lemma WritersOfLive(announce: Qos, ops: seq<Op>)
    requires Run(NEW_ROUTE, announce, ops).1
    ensures var s, live := Run(NEW_ROUTE, announce, ops).0, Live(map[], ops);
            s.remotes == live
            && (IsTl(s.writer) <==> exists k | k in live :: IsTransientLocal(live[k]))
            && (s.volatile.Some? <==> exists k | k in live ::
                        Announces(live, BridgeOf(k), true) && Announces(live, BridgeOf(k), false))
            && (live != map[] ==> s.writer.Some? && SameRouteQos(s.writer.value, Desired(live).0, false))
  {
    hide Desired, SameRouteQos, SameOption, Run, Live, Announces, IsTransientLocal;
    RunSynced(NEW_ROUTE, announce, ops);
    SyncedDurability(Run(NEW_ROUTE, announce, ops).0);
  }

  lemma LiveTl(live: map<string, Qos>)
    ensures (exists r | r in RemoteList(live) :: IsTransientLocal(r.qos))
            <==> exists k | k in live :: IsTransientLocal(live[k])
  {
    hide IsTransientLocal, RemoteList;
    RemoteListHas(live);
    if k :| k in live && IsTransientLocal(live[k]) {
      assert Remote(BridgeOf(k), live[k]) in RemoteList(live);
    }
  }

  lemma MarksLive(live: map<string, Qos>, bridge: string)
    ensures Marks(RemoteList(live), bridge) <==> Announces(live, bridge, true) && Announces(live, bridge, false)
  {
    hide IsTransientLocal, RemoteList;
    RemoteListHas(live);
    forall tl ensures Announces(live, bridge, tl) <==> exists r | r in RemoteList(live) ::
                r.bridge == bridge && IsTransientLocal(r.qos) == tl {
      if k :| k in live && BridgeOf(k) == bridge && IsTransientLocal(live[k]) == tl {
        assert Remote(BridgeOf(k), live[k]) in RemoteList(live);
      }
    }
    assert Announces(live, bridge, true) <==> exists r | r in RemoteList(live) ::
                r.bridge == bridge && IsTransientLocal(r.qos);
    assert Announces(live, bridge, false) <==> exists r | r in RemoteList(live) ::
                r.bridge == bridge && !IsTransientLocal(r.qos);
  }

  /** The key of an announcement names its bridge. */
  lemma {:induction false} BridgeOfKey(zid: string, rest: string)
    requires NoColon(zid)
    ensures BridgeOf(zid + ":" + rest) == zid
  {
    var key := zid + ":" + rest;
    if zid == "" {
      assert key[0] == ':';
    } else {
      assert key[0] == zid[0] && zid[0] in zid && key[1..] == zid[1..] + ":" + rest;
      BridgeOfKey(zid[1..], rest);
    }
  }

  // ---- The route object -------------------------------------------------------------------

  class RouteSubscriber {
    const dds: Dds
    const announceQos: Qos
    var ddsWriter: Handle
    var writerQos: Option<Qos>
    var ddsVolatileWriter: Handle
    var volatileWriterQos: Option<Qos>
    var remoteWriterQos: map<string, Qos>
    var transientLocal: bool
    var zenohSubscriber: bool
    var livelinessToken: bool
    var localNodes: set<string>

    ghost function State(): Sub
      reads this
    {
      Sub(remoteWriterQos, localNodes, writerQos, volatileWriterQos, zenohSubscriber, livelinessToken)
    }

    /** The DDS entities of the route. */
    ghost function Held(): set<Handle>
      reads this
    {
      {ddsWriter, ddsVolatileWriter} - {DDS_ENTITY_NULL}
    }

    ghost predicate Valid()
      reads this, dds
    {
      dds.Valid() && Held() <= dds.live && Held() <= dds.advertised
      && (ddsWriter != DDS_ENTITY_NULL <==> writerQos.Some?)
      && (ddsVolatileWriter != DDS_ENTITY_NULL <==> volatileWriterQos.Some?)
      && (ddsWriter != DDS_ENTITY_NULL ==> ddsWriter != ddsVolatileWriter) && transientLocal == IsTl(writerQos)
    }

    constructor (dds: Dds, announceQos: Qos)
      requires dds.Valid()
      ensures Valid() && State() == NEW_ROUTE && Held() == {} && this.dds == dds && this.announceQos == announceQos
    {
      this.dds, this.announceQos := dds, announceQos;
      ddsWriter, ddsVolatileWriter := DDS_ENTITY_NULL, DDS_ENTITY_NULL;
      writerQos, volatileWriterQos, remoteWriterQos, localNodes := None, None, map[], {};
      transientLocal, zenohSubscriber, livelinessToken := false, false, false;
    }

    method SetVolatileWriter(qos: Option<Qos>, c: Creation) returns (ok: bool)
      requires Valid()
      modifies this`ddsVolatileWriter, this`volatileWriterQos, dds
      ensures Valid() && ok == (SameOption(old(volatileWriterQos), qos, false) || qos.None? || Works(c))
      ensures volatileWriterQos
           == if ok && !SameOption(old(volatileWriterQos), qos, false) then qos else old(volatileWriterQos)
      ensures dds.live - Held() == old(dds.live - Held()) && dds.advertised - Held() == old(dds.advertised - Held())
    {
      hide SameRouteQos;
      if SameOption(volatileWriterQos, qos, false) { return true; }
      var writer := DDS_ENTITY_NULL;
      if qos.Some? {
        var h := dds.CreateAdvertised(c);
        if h.None? { return false; }
        writer := h.value;
      }
      var previous := ddsVolatileWriter;
      ddsVolatileWriter := writer;
      if previous != DDS_ENTITY_NULL {
        dds.DeleteAdvertised(previous);
      }
      volatileWriterQos := qos;
      ok := true;
    }

    /** Replaces the Writer, deleting the old one last. */
    method InstallWriter(qos: Qos, c: Creation) returns (ok: bool)
      requires Valid()
      modifies this`ddsWriter, this`writerQos, this`transientLocal, dds
      ensures Valid() && ok == Works(c) && writerQos == if ok then Some(qos) else old(writerQos)
      ensures dds.live - Held() == old(dds.live - Held()) && dds.advertised - Held() == old(dds.advertised - Held())
    {
      hide IsTransientLocal;
      var h := dds.CreateAdvertised(c);
      if h.None? { return false; }
      var previous := ddsWriter;
      ddsWriter := h.value;
      if previous != DDS_ENTITY_NULL {
        dds.DeleteAdvertised(previous);
      }
      transientLocal, writerQos := IsTransientLocal(qos), Some(qos);
      ok := true;
    }

    /** A new Writer, and the zenoh subscriber declared anew if `again`, to fetch the history into it. */
    method Rebuild(qos: Qos, again: bool, o: Outcome) returns (ok: bool)
      requires Valid()
      modifies this`ddsWriter, this`writerQos, this`transientLocal, this`zenohSubscriber, dds
      ensures Valid() && (State(), ok) == Install(old(State()), qos, again, o)
      ensures dds.live - Held() == old(dds.live - Held()) && dds.advertised - Held() == old(dds.advertised - Held())
    {
      ok := InstallWriter(qos, o.main);
      if ok && zenohSubscriber && again {
        zenohSubscriber, ok := o.declared, o.declared;
      }
    }

    method AdaptWriters(main: Qos, volatile: Option<Qos>, o: Outcome) returns (ok: bool)
      requires Valid()
      modifies this, dds
      ensures Valid() && (State(), ok) == Adapt(old(State()), main, volatile, o)
      ensures dds.live - Held() == old(dds.live - Held()) && dds.advertised - Held() == old(dds.advertised - Held())
    {
      hide SameRouteQos, IsTransientLocal, Install;
      ok := SetVolatileWriter(volatile, o.volatile);
      if !ok { return; }
      if writerQos.Some? && SameRouteQos(writerQos.value, main, false) { return; }
      ok := Rebuild(main, transientLocal || IsTransientLocal(main), o);
    }

    /** The Writers are created or rebuilt for the announced remote publishers. */
    method UpdateWriter(o: Outcome) returns (ok: bool)
      requires Valid()
      modifies this, dds
      ensures Valid() && (State(), ok) == Update(old(State()), announceQos, o)
      ensures dds.live - Held() == old(dds.live - Held()) && dds.advertised - Held() == old(dds.advertised - Held())
    {
      hide WritersQos, SameRouteQos, Fallback, IsTransientLocal, Install, Adapt;
      if remoteWriterQos == map[] {
        ok := SetVolatileWriter(None, o.volatile);
        if transientLocal {
          ok := Rebuild(Fallback(announceQos), true, o);
        }
        return;
      }
      if localNodes != {} && livelinessToken && !zenohSubscriber {
        if !o.recovered { return false; }
        zenohSubscriber := true;
      }
      var keys := SortedKeys(remoteWriterQos.Keys);
      var (desired, desiredVolatile) := WritersQos(ListOf(keys, remoteWriterQos));
      ok := AdaptWriters(desired, desiredVolatile, o);
    }

    method AnnounceRoute(o: Outcome)
      requires Valid()
      modifies this, dds
      ensures Valid() && State() == Announce(old(State()), announceQos, o)
      ensures dds.live - Held() == old(dds.live - Held()) && dds.advertised - Held() == old(dds.advertised - Held())
    {
      hide Fallback;
      if ddsWriter == DDS_ENTITY_NULL {
        var ok := InstallWriter(Fallback(announceQos), o.main);
        if !ok { return; }
      }
      if !o.declared { return; }
      zenohSubscriber := true;
      if !o.token { return; }
      livelinessToken := true;
    }

    method AddRemotePublisher(key: string, qos: Qos, o: Outcome) returns (ok: bool)
      requires Valid()
      modifies this, dds
      ensures Valid() && (State(), ok) == Step(old(State()), announceQos, Announced(key, qos, o))
      ensures dds.live - Held() == old(dds.live - Held()) && dds.advertised - Held() == old(dds.advertised - Held())
    {
      hide Update;
      remoteWriterQos := remoteWriterQos[key := qos];
      ok := UpdateWriter(o);
    }

    /** `remove_remote_publisher` and the update that follows. */
    method RemoveRemotePublisher(key: string, o: Outcome) returns (ok: bool)
      requires Valid()
      modifies this, dds
      ensures Valid() && (State(), ok) == Step(old(State()), announceQos, Retired(key, o))
      ensures dds.live - Held() == old(dds.live - Held()) && dds.advertised - Held() == old(dds.advertised - Held())
    {
      hide Update;
      remoteWriterQos := remoteWriterQos - {key};
      ok := UpdateWriter(o);
    }

    /** `prune_remote_routes_with_prefix` and the update that follows. */
    method PruneBridge(zid: string, o: Outcome) returns (ok: bool)
      requires Valid()
      modifies this, dds
      ensures Valid() && (State(), ok) == Step(old(State()), announceQos, BridgeLeft(zid, o))
      ensures dds.live - Held() == old(dds.live - Held()) && dds.advertised - Held() == old(dds.advertised - Held())
    {
      hide Update;
      remoteWriterQos := map k | k in remoteWriterQos && !Routes.OfBridge(k, zid) :: remoteWriterQos[k];
      ok := UpdateWriter(o);
    }

    method AddLocalNode(node: string, o: Outcome)
      requires Valid()
      modifies this, dds
      ensures Valid() && State() == AddNode(old(State()), announceQos, node, o)
      ensures dds.live - Held() == old(dds.live - Held()) && dds.advertised - Held() == old(dds.advertised - Held())
    {
      hide Announce;
      localNodes := localNodes + {node};
      if |localNodes| == 1 {
        AnnounceRoute(o);
      }
    }

    method RemoveLocalNode(node: string)
      requires Valid()
      modifies this`localNodes, this`zenohSubscriber, this`livelinessToken
      ensures Valid() && State() == RemoveNode(old(State()), node)
    {
      localNodes := localNodes - {node};
      if localNodes == {} {
        zenohSubscriber, livelinessToken := false, false;
      }
    }

    method UpdateMatchedReaders(matched: bool, o: Outcome)
      requires Valid()
      modifies this, dds
      ensures Valid() && State() == MatchedReaders(old(State()), announceQos, matched, o)
      ensures dds.live - Held() == old(dds.live - Held()) && dds.advertised - Held() == old(dds.advertised - Held())
    {
      hide AddNode, RemoveNode;
      if matched {
        if Routes.MATCHED_READERS_KEY !in localNodes {
          AddLocalNode(Routes.MATCHED_READERS_KEY, o);
        }
      } else if Routes.MATCHED_READERS_KEY in localNodes {
        RemoveLocalNode(Routes.MATCHED_READERS_KEY);
      }
    }

    /** Dropping the route deletes its Writers. */
    method Drop()
      requires Valid()
      modifies this, dds
      ensures Valid() && Held() == {} && dds.live == old(dds.live - Held())
              && dds.advertised == old(dds.advertised - Held())
    {
      if ddsWriter != DDS_ENTITY_NULL {
        dds.DeleteAdvertised(ddsWriter);
      }
      if ddsVolatileWriter != DDS_ENTITY_NULL {
        dds.DeleteAdvertised(ddsVolatileWriter);
      }
      ddsWriter, writerQos, transientLocal := DDS_ENTITY_NULL, None, false;
      ddsVolatileWriter, volatileWriterQos := DDS_ENTITY_NULL, None;
    }
  }
}

/**
 * From the local Writers of one bridge to the DDS Writers of another: derived QoS, printed and parsed as
 * liveliness tokens, turned into Writers again.
 */
module AcrossBridges {
  import opened Wrappers
  import opened Names
  import opened Qos
  import opened QosMatching
  import opened QosOrder
  import opened Liveliness
  import RouteSubscriber

  /** What another bridge makes of an announced QoS; before Iron the user data stays behind. */
  function Arrived(iron: bool, keyless: bool, q: Qos): Option<Qos> {
    match DecodeQos(EncodeQos(iron, keyless, q))
    case Some((_, arrived)) => Some(arrived)
    case None => None
  }

  lemma ArrivedIs(iron: bool, keyless: bool, q: Qos)
    requires iron ==> EncodableUserData(q)
    ensures Arrived(iron, keyless, q)
         == Some(if iron then Significant(q) else Significant(q).(userData := None))
  {
    hide EncodeQos, DecodeQos, EncodableUserData, Significant;
    if iron {
      QosRoundTrip(keyless, q);
    } else {
      QosRoundTripBeforeIron(keyless, q);
    }
  }

  /** Writers derived from announcements that agree on durability and history agree on them. */
  lemma SameWriter(bridge: string, q: Qos, p: Qos)
    requires q.durability == p.durability && q.history == p.history
    ensures var (w, v) := (WritersQos([Remote(bridge, q)]).0, WritersQos([Remote(bridge, p)]).0);
            w.history == v.history && ServiceHistory(w) == ServiceHistory(v) && w.durability == v.durability
  {
    hide WriterQos;
    OneAnnouncement(bridge, q);
    OneAnnouncement(bridge, p);
    SameHistory(q, p);
  }

  lemma SameHistory(q: Qos, p: Qos)
    requires q.durability == p.durability && q.history == p.history
    ensures var (w, v) := (WriterQos([q]), WriterQos([p]));
            w.history == v.history && ServiceHistory(w) == ServiceHistory(v) && w.durability == v.durability
  {
    assert [q][1..] == [] && [p][1..] == [] && [q][0] == q && [p][0] == p;
    assert HistoryOf(q) == HistoryOf(p) && IsTransientLocal(q) == IsTransientLocal(p);
    assert TransientLocals([q]) == (if IsTransientLocal(q) then [q] else []) + TransientLocals([q][1..]);
    assert TransientLocals([p]) == (if IsTransientLocal(p) then [p] else []) + TransientLocals([p][1..]);
    assert DepthSum([q]) == DepthSum([p]);
    assert RouteHistory([q], 1) == RouteHistory([p], 1);
  }

  /**
   * The depth a Reader caches is the depth the Writer of the other bridge keeps and fetches, the token in
   * between included, with the multiplier applied once.
   */
  lemma DepthAcross(writers: seq<Qos>, fallback: Qos, multiplier: nat, iron: bool, bridge: string)
    requires TransientLocals(writers) != [] && forall q | q in TransientLocals(writers) :: HistoryOf(q).kind.KeepLast?
    requires iron ==> EncodableUserData(AnnouncedQoses(writers, multiplier).0)
    ensures var depth := BridgedDepth(TransientLocals(writers), multiplier);
            var arrived := Arrived(iron, true, AnnouncedQoses(writers, multiplier).0);
            1 <= depth <= MAX_TL_DEPTH
            && CacheSize(ReadersQos(writers, fallback, multiplier).0, true, 1) == Some(depth) && arrived.Some?
            && var writer := WritersQos([Remote(bridge, arrived.value)]).0;
               IsTransientLocal(writer) && MaxSamples(writer) == Some(depth)
               && ServiceHistory(writer) == Some(History(KeepLast, depth))
  {
    hide BridgedDepth, ReadersQos, AnnouncedQoses, WritersQos, CacheSize, HistoryOf, EncodableUserData, Arrived;
    OneDepth(writers, fallback, multiplier, bridge);
    var announced := AnnouncedQoses(writers, multiplier).0;
    ArrivedIs(iron, true, announced);
    SameWriter(bridge, announced, Arrived(iron, true, announced).value);
    WritersDurability([Remote(bridge, announced)]);
    assert Remote(bridge, announced) in [Remote(bridge, announced)];
    AnnouncedDurable(writers, multiplier);
  }

  lemma AnnouncedDurable(writers: seq<Qos>, multiplier: nat)
    requires writers != []
    ensures var (main, volatile) := AnnouncedQoses(writers, multiplier);
            (IsTransientLocal(main) <==> TransientLocals(writers) != [])
            && (volatile.Some? <==> Mixed(writers))
            && (volatile.Some? ==> !IsTransientLocal(volatile.value) && IsTransientLocal(main))
  {
    hide RouteHistory;
    WhereHas(writers, IsTransientLocal);
    WhereHas(writers, (q: Qos) => !IsTransientLocal(q));
    assert TransientLocals(writers) != [] ==> TransientLocals(writers)[0] in TransientLocals(writers);
    assert Volatiles(writers) != [] ==> Volatiles(writers)[0] in Volatiles(writers);
  }

  /** The announcements of one bridge for one topic, as another one keeps them. */
  function Heard(zid: string, ke: string, keyless: bool, main: Qos, volatile: Option<Qos>): map<string, Qos> {
    var first := map[RemotePublisherKey(zid, ke, keyless, main) := Significant(main)];
    if volatile.None? then first
    else first[RemotePublisherKey(zid, ke, keyless, volatile.value) := Significant(volatile.value)]
  }

  /**
   * The other bridge has a TRANSIENT_LOCAL Writer iff some local Writer is, and a second, VOLATILE one iff
   * both durabilities are there.
   */
  lemma MixedAcross(writers: seq<Qos>, multiplier: nat, zid: string, ke: string, keyless: bool)
    requires writers != [] && NoColon(zid) && NoColon(ke)
    requires var (main, volatile) := AnnouncedQoses(writers, multiplier);
             EncodableUserData(main) && (volatile.Some? ==> EncodableUserData(volatile.value))
    ensures var (main, volatile) := AnnouncedQoses(writers, multiplier);
            var (writer, second) := RouteSubscriber.Desired(Heard(zid, ke, keyless, main, volatile));
            (IsTransientLocal(writer) <==> TransientLocals(writers) != []) && (second.Some? <==> Mixed(writers))
  {
    hide AnnouncedQoses, RouteSubscriber.Desired, EncodableUserData, Mixed, RemotePublisherKey,
        RouteSubscriber.BridgeOf;
    var (main, volatile) := AnnouncedQoses(writers, multiplier);
    var heard := Heard(zid, ke, keyless, main, volatile);
    AnnouncedDurable(writers, multiplier);
    HeardAnnounces(zid, ke, keyless, main, volatile);
    var (writer, second) := RouteSubscriber.Desired(heard);
    var s := RouteSubscriber.Sub(heard, {}, Some(writer), second, false, false);
    assert RouteSubscriber.Synced(s);
    RouteSubscriber.SyncedDurability(s);
    assert RemotePublisherKey(zid, ke, keyless, main) in heard;
  }

  /** Which durabilities are announced, and all by the one bridge. */
  lemma HeardAnnounces(zid: string, ke: string, keyless: bool, main: Qos, volatile: Option<Qos>)
    requires NoColon(zid) && NoColon(ke) && EncodableUserData(main)
    requires volatile.Some? ==> EncodableUserData(volatile.value) && !IsTransientLocal(volatile.value)
                                && IsTransientLocal(main)
    ensures var heard := Heard(zid, ke, keyless, main, volatile);
            (forall k | k in heard :: RouteSubscriber.BridgeOf(k) == zid)
            && (RouteSubscriber.Announces(heard, zid, true) <==> IsTransientLocal(main))
            && (RouteSubscriber.Announces(heard, zid, false) <==> !IsTransientLocal(main) || volatile.Some?)
            && ((exists k | k in heard :: IsTransientLocal(heard[k])) <==> IsTransientLocal(main))
  {
    hide RemotePublisherKey, RouteSubscriber.BridgeOf, EncodableUserData;
    var heard, k := Heard(zid, ke, keyless, main, volatile), RemotePublisherKey(zid, ke, keyless, main);
    KeyOfBridge(zid, ke, keyless, main);
    assert IsTransientLocal(Significant(main)) == IsTransientLocal(main);
    if volatile.Some? {
      var v := volatile.value;
      var j := RemotePublisherKey(zid, ke, keyless, v);
      KeyOfBridge(zid, ke, keyless, v);
      PublisherKeyDistinguishes(zid, ke, keyless, main, zid, ke, keyless, v);
      assert heard[k] == Significant(main) && heard[j] == Significant(v) && heard.Keys == {k, j};
    } else {
      assert heard[k] == Significant(main) && heard.Keys == {k};
    }
  }

  lemma KeyOfBridge(zid: string, ke: string, keyless: bool, q: Qos)
    requires NoColon(zid)
    ensures RouteSubscriber.BridgeOf(RemotePublisherKey(zid, ke, keyless, q)) == zid
  {
    var rest := ke + ":" + EncodeQos(true, keyless, q);
    assert RemotePublisherKey(zid, ke, keyless, q) == zid + ":" + rest;
    RouteSubscriber.BridgeOfKey(zid, rest);
  }

  /** Tokens carry nothing but reliability, durability, history and user data. */
  predicate CarriedByToken(q: Qos) {
    q.(userData := None) == Significant(q).(userData := None)
  }

  lemma ArrivedCarried(iron: bool, keyless: bool, q: Qos)
    requires iron ==> EncodableUserData(q)
    ensures Arrived(iron, keyless, q).Some? && CarriedByToken(Arrived(iron, keyless, q).value)
  {
    hide Arrived, EncodableUserData;
    ArrivedIs(iron, keyless, q);
  }

  /** What the Reader asks for beyond reliability and durability is what any Writer offers that says nothing. */
  predicate AsksNoMore(r: Qos) {
    DeadlineMatches(DEFAULT_QOS, r) && LatencyBudgetMatches(DEFAULT_QOS, r) && LivelinessMatches(DEFAULT_QOS, r)
    && DestinationOrderMatches(DEFAULT_QOS, r) && PresentationMatches(DEFAULT_QOS, r)
  }

  /**
   * In all policies of the match: the Writer made for announcements that arrived serves a local Reader asking for
   * at most TRANSIENT_LOCAL iff some announced Writer is durable enough and the Reader asks for no more.
   */
  lemma ArrivedOffer(remotes: seq<Qos>, r: Qos)
    requires forall q | q in remotes :: CarriedByToken(q)
    requires DurabilityRank(OrElse(r.durability, Volatile)) <= 1
    ensures Compatible(WriterQos(remotes), r)
       <==> AsksNoMore(r) && (!IsTransientLocal(r) || exists q | q in remotes :: DurabilityMatches(q, r))
  {
    hide RouteHistory, ReliabilityMatches, DurabilityMatches;
    RemoteOfferKept(remotes, r);
    var w, first := WriterQos(remotes), FirstOr(remotes, DEFAULT_QOS);
    assert remotes != [] ==> CarriedByToken(remotes[0]);
    assert w.deadline == first.deadline == None && w.latencyBudget == None && w.liveliness == None;
    assert w.destinationOrder == None && w.presentation == None;
  }
}

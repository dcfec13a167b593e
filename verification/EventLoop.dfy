/** The main loop as the bridge runs it, proved to follow `Retry`. */
module EventLoop {
  import opened Wrappers
  import opened Text
  import opened NodeInfo
  import opened Names
  import opened Routes
  import opened Retry
  import opened RoutesMgr

  class EventLoop {
    const config: Config
    const routesMgr: RoutesMgr
    var retryQueue: Queue<LocalEvent>
    var announcementRetryQueue: Queue<Notice>
    var pendingPrunes: seq<string>
    ghost var abandoned: set<InterfaceKey>

    ghost function State(): Loop
      reads this, routesMgr
    {
      Loop(routesMgr.State(), retryQueue, announcementRetryQueue, pendingPrunes, abandoned)
    }

    ghost predicate Valid()
      reads this, routesMgr
    {
      Sane(config, State()) && routesMgr.ns == config.ns
    }

    constructor (config: Config)
      requires ValidNamespace(config.ns)
      ensures Valid() && this.config == config && fresh(routesMgr) && State() == Retry.INITIAL
    {
      this.config := config;
      routesMgr := new RoutesMgr(config.ns);
      retryQueue, announcementRetryQueue, pendingPrunes, abandoned := [], [], [], {};
    }

    method OnDiscoveryEvent(e: LocalEvent, o: Outcome)
      requires Valid() && ProperEvent(e)
      modifies this, routesMgr
      ensures Valid() && State() == Step(config, old(State()), Heard(e, o))
    {
      hide OnDiscovery, KeyOfEvent, AbsoluteNames;
      StepSane(config, State(), Heard(e, o));
      if !IsAllowed(config, e) { return; }
      retryQueue := Retain(retryQueue, AboutOthers(e));
      abandoned := abandoned - {KeyOfEvent(e)};
      NamesProper(routesMgr.State());
      var ok := routesMgr.OnRosDiscoveryEvent(e, o);
      if !ok {
        retryQueue := retryQueue + [(e, 1)];
      }
    }

    method OnAnnouncementEvent(n: Notice, o: Outcome)
      requires Valid() && ProperNotice(config.ns, n)
      modifies this, routesMgr
      ensures Valid() && State() == Step(config, old(State()), HeardNotice(n, o))
    {
      hide OnAnnouncement, NoticeId, AbsoluteNames;
      StepSane(config, State(), HeardNotice(n, o));
      if !IsAnnouncementAllowed(config, n) { return; }
      if NoticeId(n).Some? {
        announcementRetryQueue := Retain(announcementRetryQueue, NoticesOfOthers(n));
      }
      NamesProper(routesMgr.State());
      var ok := routesMgr.OnRosAnnouncementEvent(n.announced, n.a, o);
      if !ok && NoticeId(n).Some? {
        announcementRetryQueue := announcementRetryQueue + [(n, 1)];
      }
    }

    method OnMatchedReaderEvent(name: string, matched: bool)
      requires Valid()
      modifies this, routesMgr
      ensures Valid() && State() == Step(config, old(State()), HeardMatched(name, matched))
    {
      hide Routes.OnMatchedReader, AbsoluteNames;
      StepSane(config, State(), HeardMatched(name, matched));
      NamesProper(routesMgr.State());
      routesMgr.OnMatchedReaderEvent(name, matched);
    }

    method OnTransportLost(zid: string)
      requires Valid() && NoColon(zid)
      modifies this
      ensures Valid() && State() == Step(config, old(State()), TransportLost(zid))
    {
      if zid !in pendingPrunes {
        pendingPrunes := pendingPrunes + [zid];
      }
    }

    /** The prunes waiting since before the tick. */
    method PruneLost(reconnected: set<string>)
      requires Valid()
      modifies this, routesMgr
      ensures Valid() && retryQueue == old(retryQueue) && pendingPrunes == [] && abandoned == old(abandoned)
      ensures PruneAll(config.ns, old(routesMgr.State()), old(announcementRetryQueue), old(pendingPrunes), reconnected)
           == (routesMgr.State(), announcementRetryQueue)
    {
      hide OnBridgeLeft, ProperNotice, NoticeId, KeyOf;
      var prunes := pendingPrunes;
      pendingPrunes := [];
      ghost var result := PruneAll(config.ns, routesMgr.State(), announcementRetryQueue, prunes, reconnected);
      for i := 0 to |prunes|
        invariant Valid() && retryQueue == old(retryQueue) && pendingPrunes == [] && abandoned == old(abandoned)
        invariant PruneAll(config.ns, routesMgr.State(), announcementRetryQueue, prunes[i..], reconnected) == result
      {
        assert prunes[i..][0] == prunes[i] && prunes[i..][1..] == prunes[i + 1..];
        if prunes[i] !in reconnected {
          PruneSane(config, routesMgr.State(), announcementRetryQueue, [prunes[i]], {});
          RetainHas(announcementRetryQueue, Unrelated(prunes[i]));
          NamesProper(routesMgr.State());
          LeftAbsolute(config.ns, routesMgr.State(), prunes[i]);
          routesMgr.OnRemoteBridgeLeft(prunes[i]);
          announcementRetryQueue := Retain(announcementRetryQueue, Unrelated(prunes[i]));
        }
      }
      assert prunes[|prunes|..] == [];
    }

    method RetryAnnouncements(outcomes: seq<Outcome>)
      requires Valid() && |outcomes| == |announcementRetryQueue|
      modifies this, routesMgr
      ensures Valid() && retryQueue == old(retryQueue) && pendingPrunes == old(pendingPrunes)
              && abandoned == old(abandoned)
      ensures RetryNotices(config.ns, old(routesMgr.State()), old(announcementRetryQueue), outcomes)
           == (routesMgr.State(), announcementRetryQueue)
    {
      hide OnAnnouncement, ProperNotice, AbsoluteNames, ProperNames, ProperQueue, RetryNotices;
      var pending := announcementRetryQueue;
      announcementRetryQueue := [];
      ghost var result := RetryNotices(config.ns, routesMgr.State(), pending, outcomes);
      NoticesSane(config.ns, routesMgr.State(), pending, outcomes);
      for i := 0 to |pending|
        invariant AbsoluteNames(routesMgr.State()) && retryQueue == old(retryQueue)
                  && pendingPrunes == old(pendingPrunes)
        invariant abandoned == old(abandoned) && ProperNotices(config.ns, pending[i..])
        invariant RetryNotices(config.ns, routesMgr.State(), pending[i..], outcomes[i..]).0 == result.0
        invariant announcementRetryQueue + RetryNotices(config.ns, routesMgr.State(), pending[i..], outcomes[i..]).1
                  == result.1
      {
        var (n, attempts) := pending[i];
        assert pending[i..] == [pending[i]] + pending[i + 1..] && outcomes[i..] == [outcomes[i]] + outcomes[i + 1..];
        assert pending[i] in pending[i..];
        NamesProper(routesMgr.State());
        NoticeSane(config, routesMgr.State(), n, outcomes[i]);
        NoticesNext(config.ns, routesMgr.State(), pending[i..], outcomes[i..]);
        var ok := routesMgr.OnRosAnnouncementEvent(n.announced, n.a, outcomes[i]);
        if !ok && attempts < MAX_EVENT_RETRIES {
          announcementRetryQueue := announcementRetryQueue + [(n, attempts + 1)];
        }
      }
      NothingRetried(config.ns, routesMgr.State());
      assert pending[|pending|..] == [] && outcomes[|pending|..] == []
          && announcementRetryQueue + [] == announcementRetryQueue;
    }

    method RetryDiscoveries(outcomes: seq<Outcome>)
      requires Valid() && |outcomes| == |retryQueue|
      modifies this, routesMgr
      ensures Valid() && announcementRetryQueue == old(announcementRetryQueue) && pendingPrunes == old(pendingPrunes)
      ensures var (s, queue, more) := RetryEvents(config.ns, old(routesMgr.State()), old(retryQueue), outcomes);
              routesMgr.State() == s && retryQueue == queue && abandoned == old(abandoned) + more
    {
      hide OnDiscovery, AbsoluteNames, ProperNames, ProperNotices, KeyOfEvent, RetryEvents, ProperEvent;
      var pending := retryQueue;
      retryQueue := [];
      ghost var result := RetryEvents(config.ns, routesMgr.State(), pending, outcomes);
      EventsSane(config.ns, routesMgr.State(), pending, outcomes);
      for i := 0 to |pending|
        invariant AbsoluteNames(routesMgr.State()) && announcementRetryQueue == old(announcementRetryQueue)
                  && pendingPrunes == old(pendingPrunes)
        invariant ProperQueue(pending[i..])
        invariant RetryEvents(config.ns, routesMgr.State(), pending[i..], outcomes[i..]).0 == result.0
        invariant retryQueue + RetryEvents(config.ns, routesMgr.State(), pending[i..], outcomes[i..]).1 == result.1
        invariant abandoned + RetryEvents(config.ns, routesMgr.State(), pending[i..], outcomes[i..]).2
                  == old(abandoned) + result.2
      {
        var (e, attempts) := pending[i];
        assert pending[i..] == [pending[i]] + pending[i + 1..] && outcomes[i..] == [outcomes[i]] + outcomes[i + 1..];
        assert pending[i] in pending[i..];
        NamesProper(routesMgr.State());
        HeardSane(config, routesMgr.State(), e, outcomes[i]);
        EventsNext(config.ns, routesMgr.State(), pending[i..], outcomes[i..]);
        var ok := routesMgr.OnRosDiscoveryEvent(e, outcomes[i]);
        if !ok {
          if attempts < MAX_EVENT_RETRIES {
            retryQueue := retryQueue + [(e, attempts + 1)];
          } else {
            abandoned := abandoned + {KeyOfEvent(e)};
          }
        }
      }
      NothingRetried(config.ns, routesMgr.State());
      assert pending[|pending|..] == [] && outcomes[|pending|..] == [] && retryQueue + [] == retryQueue
          && abandoned + {} == abandoned;
    }

    /** The retry timer: prunes, then announcements, then discovery events. */
    method OnTick(reconnected: set<string>, forNotices: seq<Outcome>, forEvents: seq<Outcome>)
      requires Valid() && Possible(config, State(), Tick(reconnected, forNotices, forEvents))
      modifies this, routesMgr
      ensures Valid() && State() == Step(config, old(State()), Tick(reconnected, forNotices, forEvents))
    {
      hide PruneAll, RetryNotices, RetryEvents, AbsoluteNames, ProperQueue, ProperNotices;
      PruneLost(reconnected);
      RetryAnnouncements(forNotices);
      RetryDiscoveries(forEvents);
    }
  }

  lemma NamesProper(s: Mgr)
    requires AbsoluteNames(s)
    ensures ProperNames(s.routes)
  {
  }
}

/** The route manager as the bridge runs it: maps updated in place, proved to follow `Routes`. */
module RoutesMgr {
  import opened Wrappers
  import opened Text
  import opened Iteration
  import opened NodeInfo
  import opened Names
  import opened Routes

  class RoutesMgr {
    const ns: string
    var routes: map<Key, Route>
    var admin: set<AdminKey>

    ghost function State(): Mgr
      reads this
    {
      Mgr(routes, admin)
    }

    ghost predicate Valid()
      reads this
    {
      ValidNamespace(ns) && ProperNames(routes)
    }

    constructor (ns: string)
      requires ValidNamespace(ns)
      ensures Valid() && this.ns == ns && State() == NO_ROUTES
    {
      this.ns := ns;
      routes, admin := map[], {};
    }

    /** `get_or_create_route_*`. */
    method GetOrCreate(k: Key, o: Outcome) returns (ok: bool)
      requires Valid() && k.name != ""
      modifies this
      ensures Valid() && ok == Obtained(old(routes), k, o)
      ensures State() == if ok then Put(ns, old(State()), k, RouteAt(old(routes), k)) else old(State())
    {
      ok := true;
      if k !in routes {
        if !k.kind.MsgSub? && !o.created {
          return false;
        }
        admin := admin + {AdminOf(ns, k)};
        routes := routes[k := Route({}, {})];
      } else {
        assert routes == routes[k := routes[k]];
      }
    }

    method OnRosDiscoveryEvent(e: LocalEvent, o: Outcome) returns (ok: bool)
      requires Valid() && ValidLocal(e)
      modifies this
      ensures Valid() && (State(), ok) == OnDiscovery(ns, old(State()), e, o)
    {
      match e
      case Discovered(node, k) =>
        if IsTopic(k.kind) && !o.found {
          return false;
        }
        ok := GetOrCreate(k, o);
        if ok {
          var r := routes[k];
          routes := routes[k := r.(local := r.local + {node})];
          ok := k.kind.MsgPub? ==> o.updated;
          assert routes == old(routes)[k := routes[k]];
        }
      case Undiscovered(node, k) =>
        ok := true;
        if k in routes {
          routes := routes[k := routes[k].(local := routes[k].local - {node})];
          if Unused(routes[k]) {
            admin := admin - {AdminOf(ns, k)};
            routes := routes - {k};
            assert routes == old(routes) - {k};
          } else {
            ok := k.kind.MsgPub? ==> o.updated;
          }
        }
      case LocalWritersChanged(name) =>
        ok := Key(MsgPub, name) in routes ==> o.updated;
    }

    method OnRosAnnouncementEvent(announced: bool, a: Announcement, o: Outcome) returns (ok: bool)
      requires Valid() && ValidRemote(ns, a)
      modifies this
      ensures Valid() && (State(), ok) == OnAnnouncement(ns, old(State()), announced, a, o)
    {
      hide NameOf, RemoteKey;
      var k := TargetKey(ns, a);
      if announced {
        ok := GetOrCreate(k, o);
        if ok {
          var r := routes[k];
          routes := routes[k := r.(remote := r.remote + {RemoteKey(a)})];
          ok := a.kind.MsgPub? ==> o.updated;
          assert routes == old(routes)[k := routes[k]];
        }
      } else {
        ok := true;
        if k in routes {
          routes := routes[k := routes[k].(remote := routes[k].remote - {RemoteKey(a)})];
          if Unused(routes[k]) {
            admin := admin - {AdminKey(k.kind, a.ke)};
            routes := routes - {k};
            assert routes == old(routes) - {k};
          } else {
            ok := a.kind.MsgPub? ==> o.updated;
          }
        }
      }
    }

    method OnMatchedReaderEvent(name: string, matched: bool)
      requires Valid()
      modifies this
      ensures Valid() && State() == OnMatchedReader(old(State()), name, matched)
    {
      var k := Key(MsgSub, name);
      if k in routes {
        var r := routes[k];
        if matched {
          routes := routes[k := r.(local := r.local + {MATCHED_READERS_KEY})];
        } else {
          routes := routes[k := r.(local := r.local - {MATCHED_READERS_KEY})];
        }
      }
    }

    method OnRemoteBridgeLeft(zid: string)
      requires Valid()
      modifies this
      ensures Valid() && State() == OnBridgeLeft(ns, old(State()), zid)
    {
      hide PrunedAmong, Pruned, Dropped, OnBridgeLeft, KeyOf;
      ghost var before := State();
      var keys := IterationOrder(routes.Keys);
      assert Elements(keys[..0]) == {};
      AmongNone(ns, before, zid);
      for i := 0 to |keys|
        invariant Valid() && State() == PrunedAmong(ns, before, zid, Elements(keys[..i]))
      {
        var k := keys[i];
        assert keys[..i + 1] == keys[..i] + [k] && k in keys && k !in keys[..i];
        assert Elements(keys[..i + 1]) == Elements(keys[..i]) + {k};
        AmongMore(ns, before, zid, Elements(keys[..i]), k);
        var r := Pruned(routes[k], zid);
        if r != routes[k] && Unused(r) {
          admin := admin - {AdminOf(ns, k)};
          routes := routes - {k};
        } else {
          routes := routes[k := r];
        }
      }
      assert keys[..|keys|] == keys && Elements(keys) == before.routes.Keys;
      AmongAll(ns, before, zid);
    }
  }

  /** The state once only the routes `ks` lost the entries of the bridge. */
  function PrunedAmong(ns: string, s: Mgr, zid: string, ks: set<Key>): Mgr
    requires ValidNamespace(ns) && ProperNames(s.routes)
  {
    Mgr(map k | k in s.routes && !(k in ks && Dropped(s.routes[k], zid)) ::
          if k in ks then Pruned(s.routes[k], zid) else s.routes[k],
        s.admin - set k | k in s.routes && k in ks && Dropped(s.routes[k], zid) :: AdminOf(ns, k))
  }

  lemma AmongNone(ns: string, s: Mgr, zid: string)
    requires ValidNamespace(ns) && ProperNames(s.routes)
    ensures PrunedAmong(ns, s, zid, {}) == s
  {
  }

  lemma AmongMore(ns: string, s: Mgr, zid: string, ks: set<Key>, k: Key)
    requires ValidNamespace(ns) && ProperNames(s.routes) && k in s.routes && k !in ks
    ensures var now := PrunedAmong(ns, s, zid, ks);
            k in now.routes && now.routes[k] == s.routes[k] && ProperNames(now.routes)
            && PrunedAmong(ns, s, zid, ks + {k})
               == if Dropped(s.routes[k], zid) then Mgr(now.routes - {k}, now.admin - {AdminOf(ns, k)})
                  else Mgr(now.routes[k := Pruned(s.routes[k], zid)], now.admin)
    ensures Dropped(s.routes[k], zid) <==> Pruned(s.routes[k], zid) != s.routes[k] && Unused(Pruned(s.routes[k], zid))
  {
  }

  lemma AmongAll(ns: string, s: Mgr, zid: string)
    requires ValidNamespace(ns) && ProperNames(s.routes)
    ensures PrunedAmong(ns, s, zid, s.routes.Keys) == OnBridgeLeft(ns, s, zid)
  {
  }
}

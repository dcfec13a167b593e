/**
 * The DDS entities a bridge has: which ones are alive, and which GIDs `ros_discovery_info` advertises.
 * A GID is identified with the entity that has it.
 */
module Dds {
  import opened Wrappers

  type Handle = nat

  /** The null entity. */
  const DDS_ENTITY_NULL: Handle := 0

  /** Whether creating an entity succeeds, and then whether its GUID can be read back. */
  datatype Creation = Creation(created: bool, identified: bool)

  predicate Works(c: Creation) {
    c.created && c.identified
  }

  class Dds {
    var issued: nat
    var live: set<Handle>
    var advertised: set<Handle>

    ghost predicate Valid()
      reads this
    {
      (forall h | h in live :: 0 < h <= issued) && forall h | h in advertised :: 0 < h <= issued
    }

    constructor ()
      ensures Valid() && live == {} && advertised == {}
    {
      issued, live, advertised := 0, {}, {};
    }

    method Create(created: bool) returns (h: Option<Handle>)
      requires Valid()
      modifies this
      ensures Valid() && advertised == old(advertised) && issued >= old(issued)
      ensures if created then h.Some? && h.value > old(issued) && live == old(live) + {h.value}
              else h.None? && live == old(live)
    {
      if !created { return None; }
      issued := issued + 1;
      live := live + {issued};
      h := Some(issued);
    }

    method Delete(h: Handle)
      requires Valid()
      modifies `live
      ensures Valid() && live == old(live) - {h}
    {
      live := live - {h};
    }

    method Advertise(h: Handle)
      requires Valid() && 0 < h <= issued
      modifies `advertised
      ensures Valid() && advertised == old(advertised) + {h}
    {
      advertised := advertised + {h};
    }

    method Withdraw(h: Handle)
      requires Valid()
      modifies `advertised
      ensures Valid() && advertised == old(advertised) - {h}
    {
      advertised := advertised - {h};
    }

    /**
     * An entity is kept only once its GUID is known and advertised; one whose GUID cannot be read is
     * deleted again.
     */
    method CreateAdvertised(c: Creation) returns (h: Option<Handle>)
      requires Valid()
      modifies this
      ensures Valid() && issued >= old(issued)
      ensures if Works(c) then h.Some? && h.value > old(issued) && live == old(live) + {h.value}
              && advertised == old(advertised) + {h.value}
              else h.None? && live == old(live) && advertised == old(advertised)
    {
      h := Create(c.created);
      if h.None? { return; }
      if !c.identified {
        Delete(h.value);
        assert live == old(live);
        return None;
      }
      Advertise(h.value);
    }

    /** The GUID of a kept entity can be read when it goes. */
    method DeleteAdvertised(h: Handle)
      requires Valid()
      modifies `live, `advertised
      ensures Valid() && live == old(live) - {h} && advertised == old(advertised) - {h}
    {
      Withdraw(h);
      Delete(h);
    }
  }

  // ---- All routes of a bridge -------------------------------------------------------------

  /** Live entities and advertised GIDs are those held by routes, each by one. */
  ghost predicate NothingLeaks<R(!new)>(live: set<Handle>, advertised: set<Handle>, held: imap<R, set<Handle>>) {
    (forall h :: h in live <==> exists r | r in held :: h in held[r]) && advertised == live
    && forall r, q | r in held && q in held && r != q :: held[r] !! held[q]
  }

  /**
   * A step of one route that leaves the entities of the others alone, and holds only live and
   * advertised ones itself, leaks nothing.
   */
  lemma StepLeaksNothing<R(!new)>(live: set<Handle>, advertised: set<Handle>, held: imap<R, set<Handle>>, r: R,
                                  mine: set<Handle>, live': set<Handle>, advertised': set<Handle>)
    requires NothingLeaks(live, advertised, held)
    requires var before := if r in held then held[r] else {};
             live' - mine == live - before && advertised' - mine == advertised - before
    requires mine <= live' && mine <= advertised'
    ensures NothingLeaks(live', advertised', held[r := mine])
  {
    var before := if r in held then held[r] else {};
    var held' := held[r := mine];
    assert advertised' == (advertised' - mine) + mine && live' == (live' - mine) + mine;
    forall h ensures h in live' <==> exists q | q in held' :: h in held'[q] {
      if h in live' && h !in mine {
        assert h in live - before;
        var q :| q in held && h in held[q];
        assert q in held' && h in held'[q];
      }
      if q :| q in held' && h in held'[q] {
        if q != r {
          assert h in live && h !in before;
          assert h in live' - mine;
        }
      }
      if h in mine {
        assert r in held' && h in held'[r];
      }
    }
    forall q | q in held && q != r ensures held[q] !! mine {
      forall h | h in held[q] ensures h !in mine {
        assert h in live && h !in before;
        assert h in live' - mine;
      }
    }
  }
}

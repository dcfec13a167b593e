/**
 * The DDS entities of service routes: created all or none, advertised while they are kept, and deleted
 * with the route.
 */
module RouteEntities {
  import opened Wrappers
  import opened Dds

  /** A service client's request Reader and reply Writer, there while a remote server is. */
  class RouteServiceCli {
    const dds: Dds
    var repWriter: Handle
    var reqReader: Handle

    ghost function Held(): set<Handle>
      reads this
    {
      {repWriter, reqReader} - {DDS_ENTITY_NULL}
    }

    /** Both entities are there, or neither. */
    ghost predicate Valid()
      reads this, dds
    {
      dds.Valid() && Held() <= dds.live && Held() <= dds.advertised
      && (repWriter == DDS_ENTITY_NULL <==> reqReader == DDS_ENTITY_NULL)
      && (repWriter != DDS_ENTITY_NULL ==> repWriter != reqReader)
    }

    constructor (dds: Dds)
      requires dds.Valid()
      ensures Valid() && Held() == {} && this.dds == dds
    {
      this.dds := dds;
      repWriter, reqReader := DDS_ENTITY_NULL, DDS_ENTITY_NULL;
    }

    /**
     * `activate`: an active route is left as it is; otherwise both entities come, or, at whichever step
     * it fails, none does and nothing is left behind.
     */
    method Activate(named: bool, writer: Creation, reader: Creation) returns (ok: bool)
      requires Valid()
      modifies this, dds
      ensures Valid() && ok == (old(Held()) != {} || (named && Works(writer) && Works(reader)))
      ensures Held() != {} <==> ok
      ensures old(Held()) != {} ==> Held() == old(Held())
      ensures dds.live - Held() == old(dds.live - Held()) && dds.advertised - Held() == old(dds.advertised - Held())
    {
      if repWriter != DDS_ENTITY_NULL && reqReader != DDS_ENTITY_NULL {
        assert repWriter in Held();
        return true;
      }
      if !named { return false; }
      var w := dds.Create(writer.created);
      if w.None? { return false; }
      if !writer.identified {
        dds.Delete(w.value);
        return false;
      }
      var r := dds.Create(reader.created);
      if r.None? {
        dds.Delete(w.value);
        return false;
      }
      if !reader.identified {
        dds.Delete(r.value);
        dds.Delete(w.value);
        return false;
      }
      // nothing is overwritten here: both were null
      assert repWriter == DDS_ENTITY_NULL && reqReader == DDS_ENTITY_NULL;
      dds.Advertise(w.value);
      repWriter := w.value;
      dds.Advertise(r.value);
      reqReader := r.value;
      ok := true;
    }

    method Deactivate()
      requires Valid()
      modifies this, dds
      ensures Valid() && Held() == {}
      ensures dds.live == old(dds.live - Held()) && dds.advertised == old(dds.advertised - Held())
    {
      var reader := reqReader;
      reqReader := DDS_ENTITY_NULL;
      if reader != DDS_ENTITY_NULL {
        dds.DeleteAdvertised(reader);
      }
      var writer := repWriter;
      repWriter := DDS_ENTITY_NULL;
      if writer != DDS_ENTITY_NULL {
        dds.DeleteAdvertised(writer);
      }
    }
  }

  /** A service server's request Writer and reply Reader, there as long as the route. */
  class RouteServiceSrv {
    const dds: Dds
    const reqWriter: Handle
    const repReader: Handle

    ghost function Held(): set<Handle> {
      {reqWriter, repReader}
    }

    ghost predicate Valid()
      reads dds
    {
      dds.Valid() && Held() <= dds.live && Held() <= dds.advertised && reqWriter != repReader
    }

    constructor (dds: Dds, writer: Handle, reader: Handle)
      requires dds.Valid() && writer in dds.live * dds.advertised && reader in dds.live * dds.advertised
               && writer != reader
      ensures Valid() && this.dds == dds && reqWriter == writer && repReader == reader
    {
      this.dds, reqWriter, repReader := dds, writer, reader;
    }

    /** `create`: GIDs are advertised only once every step succeeded. */
    static method Create(dds: Dds, named: bool, writer: Creation, instance: bool, reader: Creation)
        returns (route: RouteServiceSrv?)
      requires dds.Valid()
      modifies dds
      ensures dds.Valid() && (route != null <==> named && Works(writer) && instance && Works(reader))
      ensures route == null ==> dds.live == old(dds.live) && dds.advertised == old(dds.advertised)
      ensures route != null ==> fresh(route) && route.dds == dds && route.Valid()
                                && dds.live - route.Held() == old(dds.live)
                                && dds.advertised - route.Held() == old(dds.advertised)
    {
      route := null;
      if !named { return; }
      var w := dds.Create(writer.created);
      if w.None? { return; }
      if !writer.identified || !instance {
        dds.Delete(w.value);
        return;
      }
      var r := dds.Create(reader.created);
      if r.None? {
        dds.Delete(w.value);
        return;
      }
      if !reader.identified {
        dds.Delete(r.value);
        dds.Delete(w.value);
        return;
      }
      dds.Advertise(w.value);
      dds.Advertise(r.value);
      route := new RouteServiceSrv(dds, w.value, r.value);
    }

    method Drop()
      requires Valid()
      modifies dds
      ensures dds.Valid() && dds.live == old(dds.live) - Held() && dds.advertised == old(dds.advertised) - Held()
    {
      dds.Withdraw(reqWriter);
      dds.Withdraw(repReader);
      dds.Delete(reqWriter);
      dds.Delete(repReader);
    }
  }
}

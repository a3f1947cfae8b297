/** The remote side of gogogandidns: the Gandi zone, version and record
    calls, modelled as one store object. A zone has versions, each a list of
    records, and one live version; editing happens on a new version cloned
    from an existing one. Every call may fail for reasons the store does not
    reveal (the network, the service), which the bodies model by an
    unconstrained choice; a call on a zone or version that does not exist
    always fails. */
module GandiStore {
  import opened Errors

  /** `record.RecordInfo`. */
  datatype Record = Record(id: int, name: string, rtype: string, value: string, ttl: int)

  /** `record.RecordAdd`: what a new record is made from. */
  datatype RecordAdd = RecordAdd(zone: int, version: int, name: string, rtype: string, value: string, ttl: int)

  /** `zone.ZoneInfo`: the zone and its live version. */
  datatype ZoneInfo = ZoneInfo(id: int, version: int)

  /** A zone: its live version, the records of each of its versions, and the
      number its next new version gets. */
  datatype Zone = Zone(live: int, versions: map<int, seq<Record>>, nextVersion: int)

  predicate UniqueIds(rs: seq<Record>) {
    forall i, j :: 0 <= i < j < |rs| ==> rs[i].id != rs[j].id
  }

  predicate IdsBelow(rs: seq<Record>, bound: int) {
    forall i :: 0 <= i < |rs| ==> rs[i].id < bound
  }

  /** Versions are numbered from 1 and below `nextVersion`; the live one
      exists; within a version record ids are unique and below the store's
      next record id. */
  predicate ZoneOk(z: Zone, nextId: int) {
    && z.live in z.versions
    && (forall v :: v in z.versions ==> 1 <= v < z.nextVersion)
    && (forall v :: v in z.versions ==> UniqueIds(z.versions[v]) && IdsBelow(z.versions[v], nextId))
  }

  /** The zone after `version.New(zone, from)`: a new version holding a copy of `from`'s records. */
  function CloneVersion(z: Zone, from: int): Zone
    requires from in z.versions
  {
    z.(versions := z.versions[z.nextVersion := z.versions[from]], nextVersion := z.nextVersion + 1)
  }

  /** The zone with version `v`'s records replaced. */
  function WithRecords(z: Zone, v: int, rs: seq<Record>): Zone {
    z.(versions := z.versions[v := rs])
  }

  /** The records without the one(s) carrying `id`. */
  function WithoutId(rs: seq<Record>, id: int): (r: seq<Record>)
    decreases |rs|
  {
    if rs == [] then []
    else if rs[0].id == id then WithoutId(rs[1..], id)
    else [rs[0]] + WithoutId(rs[1..], id)
  }

  lemma {:induction false} WithoutIdKeepsOthers(rs: seq<Record>, id: int)
    ensures forall r :: r in WithoutId(rs, id) <==> r in rs && r.id != id
    ensures UniqueIds(rs) ==> UniqueIds(WithoutId(rs, id))
    decreases |rs|
  {
    if rs != [] {
      WithoutIdKeepsOthers(rs[1..], id);
      var t := WithoutId(rs[1..], id);
      if rs[0].id != id && UniqueIds(rs) {
        assert forall k :: 0 <= k < |t| ==> t[k] in rs[1..];
        assert forall k :: 0 <= k < |t| ==> t[k].id != rs[0].id;
        assert UniqueIds(rs[1..]);
      }
      if rs[0].id == id && UniqueIds(rs) {
        assert UniqueIds(rs[1..]);
      }
    }
  }

  lemma IdsBelowGrows(rs: seq<Record>, a: int, b: int)
    requires IdsBelow(rs, a) && a <= b
    ensures IdsBelow(rs, b)
  {
  }

  class ZoneStore {
    var zones: map<int, Zone>
    var nextRecordId: int

    ghost predicate Valid()
      reads this
    {
      forall z :: z in zones ==> ZoneOk(zones[z], nextRecordId)
    }

    predicate HasVersion(z: int, v: int)
      reads this
    {
      z in zones && v in zones[z].versions
    }

    constructor (zones: map<int, Zone>, nextRecordId: int)
      requires forall z :: z in zones ==> ZoneOk(zones[z], nextRecordId)
      ensures Valid() && this.zones == zones && this.nextRecordId == nextRecordId
    {
      this.zones := zones;
      this.nextRecordId := nextRecordId;
    }

    /** `zone.Info(zone)`. */
    method Info(zId: int) returns (r: Result<ZoneInfo, Error>)
      ensures zId !in zones ==> r.Err?
      ensures r.Ok? ==> zId in zones && r.value == ZoneInfo(zId, zones[zId].live)
    {
      var m: string :| true;
      if zId !in zones {
        return Err(External(m));
      }
      if * {
        return Err(External(m));
      }
      return Ok(ZoneInfo(zId, zones[zId].live));
    }

    /** `version.New(zone, from)`: the number of the new version. */
    method NewVersion(zId: int, from: int) returns (r: Result<int, Error>)
      requires Valid()
      modifies this
      ensures Valid() && nextRecordId == old(nextRecordId)
      ensures !old(HasVersion(zId, from)) ==> r.Err?
      ensures r.Err? ==> zones == old(zones)
      ensures r.Ok? ==> && old(HasVersion(zId, from))
                        && r.value == old(zones)[zId].nextVersion
                        && zones == old(zones)[zId := CloneVersion(old(zones)[zId], from)]
    {
      var m: string :| true;
      if !HasVersion(zId, from) {
        return Err(External(m));
      }
      if * {
        return Err(External(m));
      }
      var z := zones[zId];
      var z' := CloneVersion(z, from);
      assert ZoneOk(z', nextRecordId);
      zones := zones[zId := z'];
      return Ok(z.nextVersion);
    }

    /** `record.List(zone, version)`. */
    method List(zId: int, v: int) returns (r: Result<seq<Record>, Error>)
      ensures !HasVersion(zId, v) ==> r.Err?
      ensures r.Ok? ==> HasVersion(zId, v) && r.value == zones[zId].versions[v]
    {
      var m: string :| true;
      if !HasVersion(zId, v) {
        return Err(External(m));
      }
      if * {
        return Err(External(m));
      }
      return Ok(zones[zId].versions[v]);
    }

    /** `record.Delete(zone, version, id)`: `ok` is false when nothing was deleted. */
    method Delete(zId: int, v: int, id: int) returns (ok: bool, err: Option<Error>)
      requires Valid()
      modifies this
      ensures Valid() && nextRecordId == old(nextRecordId)
      ensures !old(HasVersion(zId, v)) ==> err.Some?
      ensures err.Some? || !ok ==> zones == old(zones)
      ensures err.None? && ok ==>
                && old(HasVersion(zId, v))
                && zones == old(zones)[zId := WithRecords(old(zones)[zId], v, WithoutId(old(zones)[zId].versions[v], id))]
    {
      var m: string :| true;
      if !HasVersion(zId, v) {
        return false, Some(External(m));
      }
      if * {
        return false, Some(External(m));
      }
      var rs := zones[zId].versions[v];
      if forall k :: 0 <= k < |rs| ==> rs[k].id != id {
        return false, None;
      }
      if * {
        return false, None;
      }
      WithoutIdKeepsOthers(rs, id);
      var z' := WithRecords(zones[zId], v, WithoutId(rs, id));
      assert ZoneOk(z', nextRecordId);
      zones := zones[zId := z'];
      return true, None;
    }

    /** `record.Add(args)`: the record created, with a fresh id. */
    method Add(args: RecordAdd) returns (r: Result<Record, Error>)
      requires Valid()
      modifies this
      ensures Valid()
      ensures !old(HasVersion(args.zone, args.version)) ==> r.Err?
      ensures r.Err? ==> zones == old(zones) && nextRecordId == old(nextRecordId)
      ensures r.Ok? ==>
                && old(HasVersion(args.zone, args.version))
                && r.value == Record(old(nextRecordId), args.name, args.rtype, args.value, args.ttl)
                && nextRecordId == old(nextRecordId) + 1
                && zones == old(zones)[args.zone := WithRecords(old(zones)[args.zone], args.version,
                                                                old(zones)[args.zone].versions[args.version] + [r.value])]
    {
      var m: string :| true;
      if !HasVersion(args.zone, args.version) {
        return Err(External(m));
      }
      if * {
        return Err(External(m));
      }
      var rec := Record(nextRecordId, args.name, args.rtype, args.value, args.ttl);
      var z := zones[args.zone];
      var z' := WithRecords(z, args.version, z.versions[args.version] + [rec]);
      forall zk | zk in zones
        ensures ZoneOk(zones[zk], nextRecordId + 1)
      {
        forall v | v in zones[zk].versions
          ensures IdsBelow(zones[zk].versions[v], nextRecordId + 1)
        {
          IdsBelowGrows(zones[zk].versions[v], nextRecordId, nextRecordId + 1);
        }
      }
      assert ZoneOk(z', nextRecordId + 1);
      zones := zones[args.zone := z'];
      nextRecordId := nextRecordId + 1;
      return Ok(rec);
    }

    /** `version.Set(zone, version)`: make the version live; `ok` false when it was not. */
    method SetLive(zId: int, v: int) returns (ok: bool, err: Option<Error>)
      requires Valid()
      modifies this
      ensures Valid() && nextRecordId == old(nextRecordId)
      ensures !old(HasVersion(zId, v)) ==> err.Some?
      ensures err.Some? || !ok ==> zones == old(zones)
      ensures err.None? && ok ==> old(HasVersion(zId, v)) && zones == old(zones)[zId := old(zones)[zId].(live := v)]
    {
      var m: string :| true;
      if !HasVersion(zId, v) {
        return false, Some(External(m));
      }
      if * {
        return false, Some(External(m));
      }
      if * {
        return false, None;
      }
      zones := zones[zId := zones[zId].(live := v)];
      return true, None;
    }
  }
}

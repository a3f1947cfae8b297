/** The Gandi updater (gogogandidns/gogogandidns.go): flag checks, reading
    the API key, cloning the live zone version, replacing the records of one
    name and type by a single new record, and publishing the new version. */
module GandiDns {
  import opened Errors
  import opened Constants
  import opened IfaceAddress
  import opened GandiStore

  /** The TTL every record this tool creates gets. */
  const RecordTtl: int := 300

  /** The command-line flags; an unset `-zone` is 0, an unset `-family` is "ip4". */
  datatype Flags = Flags(apiFile: string, useOte: bool, iface: string, family: string, zone: int, record: string)

  /** The flag checks of `main`, in the order they run; on success the family. */
  function CheckFlags(f: Flags): (r: Result<AddressFamily, Error>)
    ensures r.Ok? <==> && f.apiFile != "" && f.iface != "" && FamilyFromString(f.family).1.None?
                       && f.zone != 0 && f.record != ""
    ensures r.Ok? ==> r.value == FamilyFromString(f.family).0 && r.value in DnsTypeByFamily
  {
    if f.apiFile == "" then Err(MissingFlag("api_file"))
    else if f.iface == "" then Err(MissingFlag("iface"))
    else if FamilyFromString(f.family).1.Some? then Err(InvalidFamilyFlag(FamilyFromString(f.family).1.value))
    else if f.zone == 0 then Err(MissingFlag("zone"))
    else if f.record == "" then Err(MissingFlag("record"))
    else Ok(FamilyFromString(f.family).0)
  }

  /** When several flags are wrong, the first check in source order reports. */
  lemma FlagChecksInOrder(f: Flags)
    ensures f.apiFile == "" ==> CheckFlags(f) == Err(MissingFlag("api_file"))
    ensures f.apiFile != "" && f.iface == "" ==> CheckFlags(f) == Err(MissingFlag("iface"))
    ensures f.apiFile != "" && f.iface != "" && FamilyFromString(f.family).1.Some? ==>
              CheckFlags(f) == Err(InvalidFamilyFlag(FamilyParse(f.family)))
    ensures f.apiFile != "" && f.iface != "" && FamilyFromString(f.family).1.None? && f.zone == 0 ==>
              CheckFlags(f) == Err(MissingFlag("zone"))
    ensures f.apiFile != "" && f.iface != "" && FamilyFromString(f.family).1.None? && f.zone != 0 && f.record == "" ==>
              CheckFlags(f) == Err(MissingFlag("record"))
  {
  }

  // strings.Trim(s, cutset)

  function TrimLeft(s: string, cutset: set<char>): string
    decreases |s|
  {
    if s != [] && s[0] in cutset then TrimLeft(s[1..], cutset) else s
  }

  function TrimRight(s: string, cutset: set<char>): string
    decreases |s|
  {
    if s != [] && s[|s| - 1] in cutset then TrimRight(s[..|s| - 1], cutset) else s
  }

  function Trim(s: string, cutset: set<char>): string {
    TrimRight(TrimLeft(s, cutset), cutset)
  }

  /** The cutset `getApiKey` trims: newline and space only. */
  const KeyCutset: set<char> := {'\n', ' '}

  predicate AllIn(s: string, cutset: set<char>) {
    forall i :: 0 <= i < |s| ==> s[i] in cutset
  }

  /** `r` is `s[i..j]`, everything cut lies in the cutset, and `r` neither
      starts nor ends with a cutset character. */
  predicate TrimmedAt(r: string, s: string, cutset: set<char>, i: int, j: int) {
    && 0 <= i <= j <= |s| && r == s[i..j]
    && AllIn(s[..i], cutset) && AllIn(s[j..], cutset)
    && (r != [] ==> r[0] !in cutset && r[|r| - 1] !in cutset)
  }

  predicate IsTrimOf(r: string, s: string, cutset: set<char>) {
    exists i, j | 0 <= i <= j <= |s| :: TrimmedAt(r, s, cutset, i, j)
  }

  lemma {:induction false} TrimLeftDrops(s: string, cutset: set<char>)
    ensures var t := TrimLeft(s, cutset);
            && |t| <= |s| && t == s[|s| - |t|..] && AllIn(s[..|s| - |t|], cutset)
            && (t != [] ==> t[0] !in cutset)
    decreases |s|
  {
    if s != [] && s[0] in cutset {
      TrimLeftDrops(s[1..], cutset);
      var t := TrimLeft(s, cutset);
      assert s[..|s| - |t|] == [s[0]] + s[1..][..|s| - 1 - |t|];
    }
  }

  lemma {:induction false} TrimRightDrops(s: string, cutset: set<char>)
    ensures var t := TrimRight(s, cutset);
            && |t| <= |s| && t == s[..|t|] && AllIn(s[|t|..], cutset)
            && (t != [] ==> t[|t| - 1] !in cutset)
    decreases |s|
  {
    if s != [] && s[|s| - 1] in cutset {
      var p := s[..|s| - 1];
      TrimRightDrops(p, cutset);
      var t := TrimRight(s, cutset);
      assert s[|t|..] == p[|t|..] + [s[|s| - 1]];
    }
  }

  /** Trim removes only leading and trailing cutset characters, and all of them. */
  lemma TrimIsTrimOf(s: string, cutset: set<char>)
    ensures IsTrimOf(Trim(s, cutset), s, cutset)
  {
    TrimLeftDrops(s, cutset);
    var l := TrimLeft(s, cutset);
    TrimRightDrops(l, cutset);
    var r := Trim(s, cutset);
    var i := |s| - |l|;
    var j := i + |r|;
    assert r == s[i..j];
    assert s[j..] == l[|r|..];
    if r != [] {
      assert r[0] == l[0];
    }
    assert TrimmedAt(r, s, cutset, i, j);
  }

  /** A cut `(i, j)` keeps every character outside the cutset, and a
      non-empty trim starts and ends on one. */
  lemma CutBounds(r: string, s: string, cutset: set<char>, i: int, j: int)
    requires TrimmedAt(r, s, cutset, i, j)
    ensures forall k :: 0 <= k < |s| && s[k] !in cutset ==> i <= k < j
    ensures r != [] ==> s[i] !in cutset && s[j - 1] !in cutset
  {
    if r != [] {
      assert r[0] == s[i] && r[|r| - 1] == s[j - 1];
    }
  }

  /** There is only one way to trim: any `r` that is a trim of `s` is `Trim(s)`. */
  lemma TrimIsUnique(r: string, s: string, cutset: set<char>)
    requires IsTrimOf(r, s, cutset)
    ensures r == Trim(s, cutset)
  {
    var i, j :| 0 <= i <= j <= |s| && TrimmedAt(r, s, cutset, i, j);
    var t := Trim(s, cutset);
    TrimIsTrimOf(s, cutset);
    var i', j' :| 0 <= i' <= j' <= |s| && TrimmedAt(t, s, cutset, i', j');
    CutBounds(r, s, cutset, i, j);
    CutBounds(t, s, cutset, i', j');
  }

  /** Tabs and carriage returns are kept. */
  lemma KeyTrimKeepsTabsAndCarriageReturns()
    ensures Trim(" \tkey\r\n", KeyCutset) == "\tkey\r"
    ensures Trim("\n\n key \n", KeyCutset) == "key"
  {
    assert TrimLeft(" \tkey\r\n", KeyCutset) == "\tkey\r\n";
    assert TrimRight("\tkey\r\n", KeyCutset) == TrimRight("\tkey\r", KeyCutset);
    assert TrimLeft("\n\n key \n", KeyCutset) == TrimLeft("\n key \n", KeyCutset) == TrimLeft(" key \n", KeyCutset) == "key \n";
    assert TrimRight("key \n", KeyCutset) == TrimRight("key ", KeyCutset) == TrimRight("key", KeyCutset);
  }

  /** `getApiKey(path)`: `contents` is what reading the file gave. */
  function GetApiKey(path: string, contents: Result<string, Error>): (r: Result<string, Error>)
    // A read failure is wrapped in an error whose text names the path ...
    ensures contents.Err? ==> r == Err(ApiKeyRead(path, contents.error)) && Mentions(Message(r.error), path)
    // ... and a read key is the file's text trimmed of newlines and spaces at both ends.
    ensures contents.Ok? ==> r.Ok? && IsTrimOf(r.value, contents.value, KeyCutset)
  {
    match contents
    case Err(e) =>
      ApiKeyErrorMentionsPath(path, e);
      Err(ApiKeyRead(path, e))
    case Ok(text) =>
      TrimIsTrimOf(text, KeyCutset);
      Ok(Trim(text, KeyCutset))
  }

  /** Newlines and spaces around a key do not change it: a file holding the
      key padded with them yields exactly the key. */
  lemma ApiKeyIgnoresBlankPadding(path: string, before: string, key: string, after: string)
    requires AllIn(before, KeyCutset) && AllIn(after, KeyCutset)
    requires key != [] ==> key[0] !in KeyCutset && key[|key| - 1] !in KeyCutset
    ensures GetApiKey(path, Ok(before + key + after)) == Ok(key)
  {
    var s := before + key + after;
    assert s[..|before|] == before;
    assert s[|before|..|before| + |key|] == key;
    assert s[|before| + |key|..] == after;
    assert TrimmedAt(key, s, KeyCutset, |before|, |before| + |key|);
    TrimIsUnique(key, s, KeyCutset);
  }

  /** `cloneLatestZone`: a failure of either call is swallowed and reported
      as version 0 with no error. */
  method CloneLatestZone(store: ZoneStore, zId: int) returns (v: int, err: Option<Error>)
    requires store.Valid()
    modifies store
    ensures store.Valid() && store.nextRecordId == old(store.nextRecordId)
    ensures err == None
    ensures v == 0 ==> store.zones == old(store.zones)
    ensures v != 0 ==> && zId in old(store.zones)
                       && v == old(store.zones)[zId].nextVersion
                       && store.zones == old(store.zones)[zId := CloneVersion(old(store.zones)[zId], old(store.zones)[zId].live)]
    ensures zId !in old(store.zones) ==> v == 0
    ensures SameLive(old(store.zones), store.zones)
  {
    var info := store.Info(zId);
    if info.Err? {
      return 0, None;
    }
    var created := store.NewVersion(zId, info.value.version);
    if created.Err? {
      return 0, None;
    }
    assert ZoneOk(old(store.zones)[zId], old(store.nextRecordId));
    return created.value, None;
  }

  /** The records of a version that the replacement deletes. */
  predicate Matches(r: Record, name: string, rtype: string) {
    r.name == name && r.rtype == rtype
  }

  /** What is left of a list once every record of the name and type is deleted. */
  function Keep(rs: seq<Record>, name: string, rtype: string): seq<Record>
    decreases |rs|
  {
    if rs == [] then []
    else if Matches(rs[0], name, rtype) then Keep(rs[1..], name, rtype)
    else [rs[0]] + Keep(rs[1..], name, rtype)
  }

  /** No record of the name and type survives; every other record does. */
  lemma {:induction false} KeepIsExactlyTheOthers(rs: seq<Record>, name: string, rtype: string)
    ensures forall r :: r in Keep(rs, name, rtype) <==> r in rs && !Matches(r, name, rtype)
    ensures |Keep(rs, name, rtype)| <= |rs|
    decreases |rs|
  {
    if rs != [] {
      KeepIsExactlyTheOthers(rs[1..], name, rtype);
    }
  }

  /** The others keep their order: a list with no matching record is kept whole. */
  lemma {:induction false} KeepWithoutMatches(rs: seq<Record>, name: string, rtype: string)
    requires forall k :: 0 <= k < |rs| ==> !Matches(rs[k], name, rtype)
    ensures Keep(rs, name, rtype) == rs
    decreases |rs|
  {
    if rs != [] {
      KeepWithoutMatches(rs[1..], name, rtype);
    }
  }

  lemma {:induction false} KeepAppend(a: seq<Record>, b: seq<Record>, name: string, rtype: string)
    ensures Keep(a + b, name, rtype) == Keep(a, name, rtype) + Keep(b, name, rtype)
    decreases |a|
  {
    if a != [] {
      assert (a + b)[0] == a[0];
      assert (a + b)[1..] == a[1..] + b;
      KeepAppend(a[1..], b, name, rtype);
    } else {
      assert a + b == b;
    }
  }

  lemma {:induction false} WithoutAbsentId(rs: seq<Record>, id: int)
    requires forall k :: 0 <= k < |rs| ==> rs[k].id != id
    ensures WithoutId(rs, id) == rs
    decreases |rs|
  {
    if rs != [] {
      WithoutAbsentId(rs[1..], id);
    }
  }

  lemma {:induction false} WithoutIdAppend(a: seq<Record>, b: seq<Record>, id: int)
    ensures WithoutId(a + b, id) == WithoutId(a, id) + WithoutId(b, id)
    decreases |a|
  {
    if a != [] {
      assert (a + b)[0] == a[0];
      assert (a + b)[1..] == a[1..] + b;
      WithoutIdAppend(a[1..], b, id);
    } else {
      assert a + b == b;
    }
  }

  /** None of the records kept from before position `i` carries the id of
      the record at `i`, since ids within a version are unique. */
  lemma KeptIdsDiffer(listed: seq<Record>, i: nat, name: string, rtype: string)
    requires UniqueIds(listed) && i < |listed|
    ensures forall k :: 0 <= k < |Keep(listed[..i], name, rtype)| ==> Keep(listed[..i], name, rtype)[k].id != listed[i].id
  {
    var kept := Keep(listed[..i], name, rtype);
    KeepIsExactlyTheOthers(listed[..i], name, rtype);
    forall k | 0 <= k < |kept| ensures kept[k].id != listed[i].id {
      assert kept[k] in listed[..i];
      var m :| 0 <= m < i && listed[..i][m] == kept[k];
      assert listed[m] == kept[k];
    }
  }

  /** Deleting the id at position `i` from the listed records onwards removes
      just that record. */
  lemma DeleteHead(listed: seq<Record>, i: nat)
    requires UniqueIds(listed) && i < |listed|
    ensures WithoutId(listed[i..], listed[i].id) == listed[i + 1..]
  {
    var rest := listed[i + 1..];
    assert listed[i..] == [listed[i]] + rest;
    assert ([listed[i]] + rest)[1..] == rest;
    forall k | 0 <= k < |rest| ensures rest[k].id != listed[i].id {
      assert rest[k] == listed[i + 1 + k];
    }
    WithoutAbsentId(rest, listed[i].id);
  }

  /** Deleting the `i`-th listed record, a matching one, from a version that
      holds the kept part of the first `i` listed records followed by the
      rest, advances that shape by one. */
  lemma DeleteStep(listed: seq<Record>, i: nat, name: string, rtype: string)
    requires UniqueIds(listed) && i < |listed| && Matches(listed[i], name, rtype)
    ensures WithoutId(Keep(listed[..i], name, rtype) + listed[i..], listed[i].id)
            == Keep(listed[..i + 1], name, rtype) + listed[i + 1..]
  {
    var kept := Keep(listed[..i], name, rtype);
    KeptIdsDiffer(listed, i, name, rtype);
    WithoutAbsentId(kept, listed[i].id);
    WithoutIdAppend(kept, listed[i..], listed[i].id);
    DeleteHead(listed, i);
    assert listed[..i + 1] == listed[..i] + [listed[i]];
    KeepAppend(listed[..i], [listed[i]], name, rtype);
    assert Keep([listed[i]], name, rtype) == [];
  }

  /** Skipping the `i`-th listed record, a non-matching one, keeps that shape. */
  lemma SkipStep(listed: seq<Record>, i: nat, name: string, rtype: string)
    requires i < |listed| && !Matches(listed[i], name, rtype)
    ensures Keep(listed[..i], name, rtype) + listed[i..] == Keep(listed[..i + 1], name, rtype) + listed[i + 1..]
  {
    assert listed[..i + 1] == listed[..i] + [listed[i]];
    KeepAppend(listed[..i], [listed[i]], name, rtype);
    assert Keep([listed[i]], name, rtype) == [listed[i]];
    assert listed[i..] == [listed[i]] + listed[i + 1..];
  }

  /** Every zone that existed still exists and has the same live version. */
  predicate SameLive(before: map<int, Zone>, after: map<int, Zone>) {
    forall z :: z in before ==> z in after && after[z].live == before[z].live
  }

  /** Only version `v` of zone `zId` may differ: no zone appears or goes,
      every zone keeps its live version number, every other zone is as it
      was, and so is every other version of `zId`. */
  predicate OnlyVersionTouched(before: map<int, Zone>, after: map<int, Zone>, zId: int, v: int) {
    && SameLive(before, after) && after.Keys == before.Keys
    && (forall z :: z in before && z != zId ==> after[z] == before[z])
    && (zId in before ==>
          forall u :: u in before[zId].versions && u != v ==>
            u in after[zId].versions && after[zId].versions[u] == before[zId].versions[u])
  }

  /** Every version that existed is as it was, and every zone keeps its live
      version number: at most versions nobody has published were added. */
  predicate OldVersionsKept(before: map<int, Zone>, after: map<int, Zone>) {
    && SameLive(before, after) && after.Keys == before.Keys
    && forall z, u :: z in before && u in before[z].versions ==>
         u in after[z].versions && after[z].versions[u] == before[z].versions[u]
  }

  /** When old versions are kept, every live version still holds the same records. */
  lemma OldVersionsKeepLiveRecords(before: map<int, Zone>, after: map<int, Zone>, z: int)
    requires OldVersionsKept(before, after)
    requires z in before && before[z].live in before[z].versions
    ensures z in after && after[z].live in after[z].versions
    ensures after[z].versions[after[z].live] == before[z].versions[before[z].live]
  {
  }

  /** The version after the delete loop stopped before position `k`. */
  function PartlyDeleted(z: Zone, v: int, listed: seq<Record>, k: nat, name: string, rtype: string): Zone
    requires k <= |listed|
  {
    WithRecords(z, v, Keep(listed[..k], name, rtype) + listed[k..])
  }

  /** The delete loop of `main` over the listed records of the new version:
      on success the version holds exactly the listed records that do not
      match; on an error it is left part way, with the matching records
      before some position deleted. */
  method DeleteMatching(store: ZoneStore, zId: int, v: int, listed: seq<Record>, name: string, rtype: string)
    returns (err: Option<Error>)
    requires store.Valid() && store.HasVersion(zId, v) && store.zones[zId].versions[v] == listed
    modifies store
    ensures store.Valid() && store.nextRecordId == old(store.nextRecordId)
    ensures SameLive(old(store.zones), store.zones)
    ensures err.None? ==> store.zones == old(store.zones)[zId := WithRecords(old(store.zones)[zId], v, Keep(listed, name, rtype))]
    ensures err.Some? ==> exists k | 0 <= k <= |listed| ::
              store.zones == old(store.zones)[zId := PartlyDeleted(old(store.zones)[zId], v, listed, k, name, rtype)]
  {
    ghost var z0 := old(store.zones)[zId];
    assert UniqueIds(listed) by {
      assert ZoneOk(z0, store.nextRecordId);
    }
    assert listed[..0] == [] && listed[0..] == listed;
    assert Keep(listed[..0], name, rtype) + listed[0..] == listed;
    assert z0.versions[v := listed] == z0.versions;
    assert PartlyDeleted(z0, v, listed, 0, name, rtype) == z0;
    for i := 0 to |listed|
      invariant store.Valid() && store.nextRecordId == old(store.nextRecordId)
      invariant store.zones == old(store.zones)[zId := PartlyDeleted(z0, v, listed, i, name, rtype)]
    {
      if listed[i].name == name && listed[i].rtype == rtype {
        ghost var before := store.zones;
        var ok, e := store.Delete(zId, v, listed[i].id);
        if e.Some? {
          return e;
        }
        if !ok {
          return Some(DeleteRefused);
        }
        DeleteStep(listed, i, name, rtype);
        assert before[zId].versions[v] == Keep(listed[..i], name, rtype) + listed[i..];
        assert WithRecords(before[zId], v, Keep(listed[..i + 1], name, rtype) + listed[i + 1..])
               == PartlyDeleted(z0, v, listed, i + 1, name, rtype);
        assert store.zones == before[zId := PartlyDeleted(z0, v, listed, i + 1, name, rtype)];
      } else {
        SkipStep(listed, i, name, rtype);
      }
    }
    assert listed[..|listed|] == listed && listed[|listed|..] == [];
    assert Keep(listed[..|listed|], name, rtype) + listed[|listed|..] == Keep(listed, name, rtype);
    err := None;
  }

  /** Version `v` of the zone once the records of the name and type are
      replaced by one record of the value, and made live. */
  function Replaced(z: Zone, v: int, name: string, rtype: string, value: string, id: int): Zone
    requires v in z.versions
  {
    z.(live := v, versions := z.versions[v := Keep(z.versions[v], name, rtype) + [Record(id, name, rtype, value, RecordTtl)]])
  }

  /** The zone once the whole update is published: a clone of the live
      version, with the replacement made in it, is live. */
  function Published(z: Zone, name: string, rtype: string, value: string, id: int): Zone
    requires z.live in z.versions
  {
    Replaced(CloneVersion(z, z.live), z.nextVersion, name, rtype, value, id)
  }

  /** The published version is new, holds every record of the old live
      version except those of the name and type, in order, then the new
      record; no other version changes. */
  lemma PublishedReplacesRecords(z: Zone, name: string, rtype: string, value: string, id: int)
    requires ZoneOk(z, id)
    ensures var p := Published(z, name, rtype, value, id);
            var rs := p.versions[p.live];
            && p.live == z.nextVersion && p.live !in z.versions
            && p.nextVersion == z.nextVersion + 1
            && (forall u :: u in z.versions ==> u in p.versions && p.versions[u] == z.versions[u])
            && p.versions.Keys == z.versions.Keys + {p.live}
            && rs[|rs| - 1] == Record(id, name, rtype, value, RecordTtl)
            && rs[..|rs| - 1] == Keep(z.versions[z.live], name, rtype)
            && (forall k :: 0 <= k < |rs| - 1 ==> !Matches(rs[k], name, rtype))
            && (forall r :: r in rs[..|rs| - 1] <==> r in z.versions[z.live] && !Matches(r, name, rtype))
  {
    var p := Published(z, name, rtype, value, id);
    var rs := p.versions[p.live];
    var kept := Keep(z.versions[z.live], name, rtype);
    KeepIsExactlyTheOthers(z.versions[z.live], name, rtype);
    assert rs == kept + [Record(id, name, rtype, value, RecordTtl)];
    assert rs[..|rs| - 1] == kept;
    forall k | 0 <= k < |rs| - 1 ensures !Matches(rs[k], name, rtype) {
      assert rs[k] == kept[k] && kept[k] in kept;
    }
  }

  /** List, delete, add and set live, on version `v` of zone `zId`. */
  method ReplaceAndPublish(store: ZoneStore, zId: int, v: int, name: string, rtype: string, address: string)
    returns (err: Option<Error>)
    requires store.Valid()
    modifies store
    ensures store.Valid()
    ensures !old(store.HasVersion(zId, v)) ==> err.Some?
    ensures err.None? ==>
              && old(store.HasVersion(zId, v))
              && store.zones == old(store.zones)[zId := Replaced(old(store.zones)[zId], v, name, rtype, address, old(store.nextRecordId))]
    ensures err.Some? ==> OnlyVersionTouched(old(store.zones), store.zones, zId, v)
  {
    var listed := store.List(zId, v);
    if listed.Err? {
      return Some(listed.error);
    }
    ghost var z0 := store.zones[zId];
    err := DeleteMatching(store, zId, v, listed.value, name, rtype);
    if err.Some? {
      return;
    }
    var added := store.Add(RecordAdd(zId, v, name, rtype, address, RecordTtl));
    if added.Err? {
      return Some(added.error);
    }
    ghost var afterAdd := store.zones;
    assert afterAdd[zId].versions == z0.versions[v := Keep(listed.value, name, rtype) + [added.value]];
    var ok, e := store.SetLive(zId, v);
    if e.Some? {
      return e;
    }
    if !ok {
      return Some(SetLiveRefused);
    }
    assert store.zones[zId] == Replaced(z0, v, name, rtype, address, old(store.nextRecordId));
    err := None;
  }

  /** `main` from `cloneLatestZone` on: clone the live version of the zone,
      replace the records of the name and type in the clone, make it live. */
  method Publish(store: ZoneStore, zId: int, name: string, rtype: string, address: string)
    returns (err: Option<Error>)
    requires store.Valid()
    modifies store
    ensures store.Valid()
    ensures zId !in old(store.zones) ==> err.Some?
    ensures err.None? ==>
              && zId in old(store.zones)
              && store.zones == old(store.zones)[zId := Published(old(store.zones)[zId], name, rtype, address, old(store.nextRecordId))]
    // Failure: every version that existed, the live ones among them, is as it was.
    ensures err.Some? ==> OldVersionsKept(old(store.zones), store.zones)
  {
    var newVersion, cerr := CloneLatestZone(store, zId);
    if cerr.Some? {
      return cerr;
    }
    // Version 0 never exists, so after a swallowed failure the listing fails.
    assert newVersion == 0 ==> !store.HasVersion(zId, newVersion) by {
      if zId in store.zones {
        assert ZoneOk(store.zones[zId], store.nextRecordId);
      }
    }
    err := ReplaceAndPublish(store, zId, newVersion, name, rtype, address);
  }

  /** `main` after flag parsing. `apiFile` is what reading the `-api_file`
      file gave, `lookup` the system's interfaces and `store` the Gandi
      account the client talks to. */
  method Run(flags: Flags, apiFile: Result<string, Error>, lookup: InterfaceLookup, store: ZoneStore)
    returns (err: Option<Error>)
    requires store.Valid()
    modifies store
    ensures store.Valid()
    // Every flag check runs before the key is read or any call is made.
    ensures CheckFlags(flags).Err? ==>
              err == Some(CheckFlags(flags).error) && unchanged(store)
    ensures CheckFlags(flags).Ok? && GetApiKey(flags.apiFile, apiFile).Err? ==>
              err == Some(GetApiKey(flags.apiFile, apiFile).error) && unchanged(store)
    ensures CheckFlags(flags).Ok? && GetApiKey(flags.apiFile, apiFile).Ok?
            && Resolve(flags.iface, CheckFlags(flags).value, lookup).1.Some? ==>
              err == Resolve(flags.iface, CheckFlags(flags).value, lookup).1 && unchanged(store)
    // Success: the zone's new live version is the old live one with every
    // record of the name and type replaced by one record of the address.
    ensures err.None? ==>
              && CheckFlags(flags).Ok?
              && flags.zone in old(store.zones)
              && store.zones == old(store.zones)[flags.zone := Published(old(store.zones)[flags.zone], flags.record,
                                                                           DnsTypeByFamily[CheckFlags(flags).value],
                                                                           Resolve(flags.iface, CheckFlags(flags).value, lookup).0,
                                                                           old(store.nextRecordId))]
    // Failure: every version that existed, the live ones among them, is as it was.
    ensures err.Some? ==> OldVersionsKept(old(store.zones), store.zones)
  {
    var checked := CheckFlags(flags);
    if checked.Err? {
      return Some(checked.error);
    }
    var family := checked.value;
    var api := GetApiKey(flags.apiFile, apiFile);
    if api.Err? {
      return Some(api.error);
    }
    var address, rerr := GetInterfaceIP(flags.iface, family, lookup);
    if rerr.Some? {
      return rerr;
    }
    var recordType := DnsTypeByFamily[family];
    err := Publish(store, flags.zone, flags.record, recordType, address);
  }
}

/** Grayscale firmware rollout: which devices a push selects and what it records. */
module Ota {
  import opened Common
  import opened Devices

  datatype FirmwareVersion = FirmwareVersion(
    version: string, productId: string, downloadUrl: string, checksum: string, forceUpgrade: bool)

  datatype OtaRecord = OtaRecord(
    tenantId: string, deviceId: string, currentVersion: string, targetVersion: string, downloadUrl: string,
    checksum: string, progress: int, stage: string, forceUpgrade: bool)

  type Records = map<string, OtaRecord>

  function FirmwareIndex(fws: seq<FirmwareVersion>, version: string): (i: nat)
    ensures i <= |fws|
    ensures i < |fws| ==> fws[i].version == version
    ensures forall j :: 0 <= j < i ==> fws[j].version != version
  {
    if fws == [] then 0 else if fws[0].version == version then 0 else 1 + FirmwareIndex(fws[1..], version)
  }

  function Pending(tenant: string, device: string, fw: FirmwareVersion): OtaRecord {
    OtaRecord(tenant, device, "", fw.version, fw.downloadUrl, fw.checksum, 0, "pending", fw.forceUpgrade)
  }

  // ---------------------------------------------------------------- what a push should do

  predicate Eligible(dev: Device, product: string, version: string) {
    && dev.productId == product
    && dev.activated
    && dev.network != OFFLINE
    && dev.work != FAULT
    && dev.firmwareVersion != version
  }

  /** Candidates with the tenant to record: from the registry, or else from the finished records. */
  function FromRegistry(devices: map<string, Device>, product: string, version: string): map<string, string> {
    map d | d in devices && Eligible(devices[d], product, version) :: devices[d].tenantId
  }

  function FromRecords(records: Records, version: string): map<string, string> {
    map d | d in records && records[d].targetVersion != version && records[d].stage == "done" :: records[d].tenantId
  }

  /** The candidates whose hash bucket is below the percentage. */
  function Picked(candidates: map<string, string>, hash: string -> nat, percent: int): map<string, string> {
    map d | d in candidates && hash(d) % 100 < percent :: candidates[d]
  }

  /** A pending record for every chosen device, every other record untouched. */
  function Rollout(records: Records, chosen: map<string, string>, fw: FirmwareVersion): Records {
    records + map d | d in chosen :: Pending(chosen[d], d, fw)
  }

  // ---------------------------------------------------------------- the push loop

  datatype Target = Target(tenant: string, device: string)

  function PushEach(records: Records, targets: seq<Target>, hash: string -> nat, percent: int,
                    fw: FirmwareVersion): Records {
    if targets == [] then records
    else
      var t := targets[|targets| - 1];
      var before := PushEach(records, targets[..|targets| - 1], hash, percent, fw);
      if hash(t.device) % 100 < percent then before[t.device := Pending(t.tenant, t.device, fw)] else before
  }

  /** The list names each candidate once, in some order. */
  ghost predicate ListsTargets(targets: seq<Target>, candidates: map<string, string>) {
    && (forall i, j :: 0 <= i < j < |targets| ==> targets[i].device != targets[j].device)
    && (forall i :: 0 <= i < |targets| ==>
          targets[i].device in candidates && candidates[targets[i].device] == targets[i].tenant)
    && (forall d :: d in candidates ==> exists i :: 0 <= i < |targets| && targets[i].device == d)
  }

  lemma {:induction false} PushEachIsRollout(records: Records, targets: seq<Target>, candidates: map<string, string>,
                                             hash: string -> nat, percent: int, fw: FirmwareVersion)
    requires ListsTargets(targets, candidates)
    ensures PushEach(records, targets, hash, percent, fw) == Rollout(records, Picked(candidates, hash, percent), fw)
  {
    if targets == [] {
      assert Rollout(records, Picked(map[], hash, percent), fw) == records;
      assert candidates == map[];
    } else {
      var n := |targets| - 1;
      var t, rest := targets[n], targets[..n];
      DropLastTarget(targets, candidates);
      PushEachIsRollout(records, rest, candidates - {t.device}, hash, percent, fw);
      RolloutLast(records, candidates, t, hash, percent, fw);
      PushLast(records, targets, hash, percent, fw);
    }
  }

  lemma DropLastTarget(targets: seq<Target>, candidates: map<string, string>)
    requires targets != [] && ListsTargets(targets, candidates)
    ensures ListsTargets(targets[..|targets| - 1], candidates - {targets[|targets| - 1].device})
  {
    var n := |targets| - 1;
    var rest, fewer := targets[..n], candidates - {targets[n].device};
    forall d | d in fewer
      ensures exists i :: 0 <= i < |rest| && rest[i].device == d
    {
      var i :| 0 <= i < |targets| && targets[i].device == d;
      assert rest[i].device == d;
    }
  }

  lemma AppendTarget(targets: seq<Target>, candidates: map<string, string>, t: Target)
    requires ListsTargets(targets, candidates) && t.device !in candidates
    ensures ListsTargets(targets + [t], candidates[t.device := t.tenant])
  {
    var targets' := targets + [t];
    forall d | d in candidates || d == t.device
      ensures exists i :: 0 <= i < |targets'| && targets'[i].device == d
    {
      if d == t.device {
        assert targets'[|targets|].device == d;
      } else {
        var i :| 0 <= i < |targets| && targets[i].device == d;
        assert targets'[i].device == d;
      }
    }
  }

  lemma RolloutOneMore(records: Records, chosen: map<string, string>, t: Target, fw: FirmwareVersion)
    ensures Rollout(records, chosen[t.device := t.tenant], fw) ==
            Rollout(records, chosen, fw)[t.device := Pending(t.tenant, t.device, fw)]
  {
  }

  lemma PickLast(candidates: map<string, string>, t: Target, hash: string -> nat, percent: int)
    requires t.device in candidates && candidates[t.device] == t.tenant
    ensures Picked(candidates, hash, percent) ==
      if hash(t.device) % 100 < percent then Picked(candidates - {t.device}, hash, percent)[t.device := t.tenant]
      else Picked(candidates - {t.device}, hash, percent)
  {
  }

  lemma {:induction false} PushLast(records: Records, targets: seq<Target>, hash: string -> nat, percent: int,
                                    fw: FirmwareVersion)
    requires targets != []
    ensures var t, before := targets[|targets| - 1], PushEach(records, targets[..|targets| - 1], hash, percent, fw);
      PushEach(records, targets, hash, percent, fw) ==
      if hash(t.device) % 100 < percent then before[t.device := Pending(t.tenant, t.device, fw)] else before
  {
  }

  lemma RolloutLast(records: Records, candidates: map<string, string>, t: Target,
                    hash: string -> nat, percent: int, fw: FirmwareVersion)
    requires t.device in candidates && candidates[t.device] == t.tenant
    ensures var before := Rollout(records, Picked(candidates - {t.device}, hash, percent), fw);
      Rollout(records, Picked(candidates, hash, percent), fw) ==
      if hash(t.device) % 100 < percent then before[t.device := Pending(t.tenant, t.device, fw)] else before
  {
    PickLast(candidates, t, hash, percent);
    RolloutOneMore(records, Picked(candidates - {t.device}, hash, percent), t, fw);
  }

  // ---------------------------------------------------------------- registry listings

  /** list_all_devices: each device of the registry once, in some order. */
  ghost predicate ListsDevices(devs: seq<Device>, ts: Tenants) {
    && (forall i, j :: 0 <= i < j < |devs| ==>
          devs[i].tenantId != devs[j].tenantId || devs[i].deviceId != devs[j].deviceId)
    && (forall i :: 0 <= i < |devs| ==>
          Holds(ts, devs[i].tenantId, devs[i].deviceId) && ts[devs[i].tenantId][devs[i].deviceId] == devs[i])
    && (forall t, d :: Holds(ts, t, d) ==>
          exists i :: 0 <= i < |devs| && devs[i].tenantId == t && devs[i].deviceId == d)
  }

  function Candidates(devs: seq<Device>, product: string, version: string): seq<Target> {
    if devs == [] then []
    else
      var rest, dev := Candidates(devs[..|devs| - 1], product, version), devs[|devs| - 1];
      if Eligible(dev, product, version) then rest + [Target(dev.tenantId, dev.deviceId)] else rest
  }

  ghost predicate ListsFlat(devs: seq<Device>, m: map<string, Device>) {
    && (forall i, j :: 0 <= i < j < |devs| ==> devs[i].deviceId != devs[j].deviceId)
    && (forall i :: 0 <= i < |devs| ==> devs[i].deviceId in m && m[devs[i].deviceId] == devs[i])
    && (forall d :: d in m ==> exists i :: 0 <= i < |devs| && devs[i].deviceId == d)
  }

  /** Device ids are unique in a well-formed registry, so a listing of it is one of the flat map. */
  lemma ListingIsFlat(devs: seq<Device>, ts: Tenants)
    requires Inv(ts) && ListsDevices(devs, ts)
    ensures ListsFlat(devs, Flat(ts))
  {
    forall i | 0 <= i < |devs|
      ensures devs[i].deviceId in Flat(ts) && Flat(ts)[devs[i].deviceId] == devs[i]
    {
      FlatLookup(ts, devs[i].deviceId);
    }
    forall d | d in Flat(ts)
      ensures exists i :: 0 <= i < |devs| && devs[i].deviceId == d
    {
      FlatLookup(ts, d);
      assert Holds(ts, Owner(ts, d), d);
    }
  }

  lemma {:induction false} CandidatesListEligible(devs: seq<Device>, m: map<string, Device>, product: string,
                                                  version: string)
    requires ListsFlat(devs, m)
    ensures ListsTargets(Candidates(devs, product, version), FromRegistry(m, product, version))
  {
    if devs == [] {
      assert m == map[];
    } else {
      var n := |devs| - 1;
      var dev, rest := devs[n], devs[..n];
      var fewer := m - {dev.deviceId};
      forall d | d in fewer
        ensures exists i :: 0 <= i < |rest| && rest[i].deviceId == d
      {
        var i :| 0 <= i < |devs| && devs[i].deviceId == d;
        assert rest[i].deviceId == d;
      }
      CandidatesListEligible(rest, fewer, product, version);
      AddCandidate(Candidates(rest, product, version), FromRegistry(fewer, product, version), dev, m, product, version);
    }
  }

  lemma AddCandidate(targets: seq<Target>, candidates: map<string, string>, dev: Device, m: map<string, Device>,
                     product: string, version: string)
    requires dev.deviceId in m && m[dev.deviceId] == dev
    requires candidates == FromRegistry(m - {dev.deviceId}, product, version) && ListsTargets(targets, candidates)
    ensures var t := Target(dev.tenantId, dev.deviceId);
      ListsTargets(if Eligible(dev, product, version) then targets + [t] else targets,
                   FromRegistry(m, product, version))
  {
    var all := FromRegistry(m, product, version);
    if Eligible(dev, product, version) {
      AppendTarget(targets, candidates, Target(dev.tenantId, dev.deviceId));
      assert all == candidates[dev.deviceId := dev.tenantId];
    } else {
      assert all == candidates;
    }
  }

  /**
    For every well-formed registry, in whatever order it lists its devices, the push records
    exactly the eligible devices in the chosen buckets as pending and leaves the rest alone.
   */
  lemma GrayscaleIsExact(records: Records, ts: Tenants, devs: seq<Device>, product: string,
                         hash: string -> nat, percent: int, fw: FirmwareVersion)
    requires Inv(ts) && ListsDevices(devs, ts)
    ensures PushEach(records, Candidates(devs, product, fw.version), hash, percent, fw)
         == Rollout(records, Picked(FromRegistry(Flat(ts), product, fw.version), hash, percent), fw)
  {
    ListingIsFlat(devs, ts);
    CandidatesListEligible(devs, Flat(ts), product, fw.version);
    PushEachIsRollout(records, Candidates(devs, product, fw.version), FromRegistry(Flat(ts), product, fw.version),
                      hash, percent, fw);
  }

  // ---------------------------------------------------------------- laws of pushes

  function At(records: Records, d: string): Option<OtaRecord> {
    if d in records then Some(records[d]) else None
  }

  /** The tenant of the last target that names the device. */
  function LastTarget(targets: seq<Target>, d: string): Option<string> {
    if targets == [] then None
    else
      var t := targets[|targets| - 1];
      if t.device == d then Some(t.tenant) else LastTarget(targets[..|targets| - 1], d)
  }

  /** What a push leaves for one device, also when a device is named twice: the last mention counts. */
  lemma {:induction false} PushEachAt(records: Records, targets: seq<Target>, hash: string -> nat, percent: int,
                                      fw: FirmwareVersion, d: string)
    ensures var tenant := LastTarget(targets, d);
      At(PushEach(records, targets, hash, percent, fw), d) ==
      if tenant.Some? && hash(d) % 100 < percent then Some(Pending(tenant.value, d, fw)) else At(records, d)
  {
    if targets != [] {
      PushEachAt(records, targets[..|targets| - 1], hash, percent, fw, d);
      PushLast(records, targets, hash, percent, fw);
    }
  }

  ghost predicate SomeEligible(devs: seq<Device>, product: string, version: string, t: string, d: string) {
    exists i :: 0 <= i < |devs| && Eligible(devs[i], product, version) && devs[i].tenantId == t && devs[i].deviceId == d
  }

  lemma SomeEligibleLast(devs: seq<Device>, product: string, version: string, t: string, d: string)
    requires devs != []
    ensures var dev := devs[|devs| - 1];
      SomeEligible(devs, product, version, t, d) <==>
      (Eligible(dev, product, version) && dev.tenantId == t && dev.deviceId == d)
      || SomeEligible(devs[..|devs| - 1], product, version, t, d)
  {
    var n := |devs| - 1;
    if i :| 0 <= i < n && Eligible(devs[i], product, version) && devs[i].tenantId == t && devs[i].deviceId == d {
      assert devs[..n][i] == devs[i];
    }
    var rest := devs[..n];
    if i :| 0 <= i < n && Eligible(rest[i], product, version) && rest[i].tenantId == t && rest[i].deviceId == d {
      assert devs[i] == rest[i];
    }
  }

  lemma LastTargetSplits(devs: seq<Device>, product: string, version: string, d: string)
    requires devs != []
    ensures var dev := devs[|devs| - 1];
      LastTarget(Candidates(devs, product, version), d) ==
      if Eligible(dev, product, version) && dev.deviceId == d then Some(dev.tenantId)
      else LastTarget(Candidates(devs[..|devs| - 1], product, version), d)
  {
    var dev, rest := devs[|devs| - 1], Candidates(devs[..|devs| - 1], product, version);
    assert (rest + [Target(dev.tenantId, dev.deviceId)])[..|rest|] == rest;
  }

  /** A device is a target exactly when an eligible listed device has its id, and under such a device's tenant. */
  lemma {:induction false} TargetsAreEligible(devs: seq<Device>, product: string, version: string, d: string)
    ensures var tenant := LastTarget(Candidates(devs, product, version), d);
      && (tenant.Some? ==> SomeEligible(devs, product, version, tenant.value, d))
      && (tenant.None? ==> forall t :: !SomeEligible(devs, product, version, t, d))
  {
    if devs != [] {
      var dev, rest := devs[|devs| - 1], devs[..|devs| - 1];
      TargetsAreEligible(rest, product, version, d);
      LastTargetSplits(devs, product, version, d);
      forall t
        ensures SomeEligible(devs, product, version, t, d) <==>
                (Eligible(dev, product, version) && dev.tenantId == t && dev.deviceId == d)
                || SomeEligible(rest, product, version, t, d)
      {
        SomeEligibleLast(devs, product, version, t, d);
      }
    }
  }

  lemma EligibleInBoth(ts: Tenants, devs: seq<Device>, devs': seq<Device>, product: string, version: string,
                       t: string, d: string)
    requires ListsDevices(devs, ts) && ListsDevices(devs', ts) && SomeEligible(devs, product, version, t, d)
    ensures SomeEligible(devs', product, version, t, d)
  {
    assert Holds(ts, t, d);
    var i :| 0 <= i < |devs'| && devs'[i].tenantId == t && devs'[i].deviceId == d;
    assert devs'[i] == ts[t][d];
  }

  lemma SameTargets(ts: Tenants, devs: seq<Device>, devs': seq<Device>, product: string, version: string, d: string)
    requires ListsDevices(devs, ts) && ListsDevices(devs', ts)
    requires LastTarget(Candidates(devs, product, version), d).Some?
    ensures LastTarget(Candidates(devs', product, version), d).Some?
  {
    TargetsAreEligible(devs, product, version, d);
    TargetsAreEligible(devs', product, version, d);
    EligibleInBoth(ts, devs, devs', product, version, LastTarget(Candidates(devs, product, version), d).value, d);
  }

  lemma TargetsNest(records: Records, all: map<string, string>, hash: string -> nat, p: int, q: int,
                    fw: FirmwareVersion, d: string)
    requires p <= q
    ensures var less, more := Rollout(records, Picked(all, hash, p), fw), Rollout(records, Picked(all, hash, q), fw);
      At(less, d) == At(records, d) || At(less, d) == At(more, d)
  {
    RolloutAt(records, Picked(all, hash, p), fw, d);
    RolloutAt(records, Picked(all, hash, q), fw, d);
  }

  /**
    Selections are nested: with a larger percentage, whatever a device of the registry got at the
    smaller one it gets again, in whatever orders the two pushes list the devices.
   */
  lemma PushesNest(records: Records, ts: Tenants, devs: seq<Device>, devs': seq<Device>, product: string,
                   hash: string -> nat, p: int, q: int, fw: FirmwareVersion)
    requires Inv(ts) && ListsDevices(devs, ts) && ListsDevices(devs', ts) && p <= q
    ensures var less := PushEach(records, Candidates(devs, product, fw.version), hash, p, fw);
      var more := PushEach(records, Candidates(devs', product, fw.version), hash, q, fw);
      forall d :: At(less, d) == At(records, d) || At(less, d) == At(more, d)
  {
    GrayscaleIsExact(records, ts, devs, product, hash, p, fw);
    GrayscaleIsExact(records, ts, devs', product, hash, q, fw);
    forall d {
      TargetsNest(records, FromRegistry(Flat(ts), product, fw.version), hash, p, q, fw, d);
    }
  }

  lemma SameEverywhere(r: Records, s: Records)
    requires forall d :: At(r, d) == At(s, d)
    ensures r == s
  {
    assert forall d :: At(r, d).Some? <==> d in r;
    assert forall d :: At(s, d).Some? <==> d in s;
  }

  /**
    Going to q per cent by way of p is going there at once; with p == q, an immediate repeat
    changes nothing. This needs no unique ids: the last target of a device decides both times.
   */
  lemma PushesWiden(records: Records, ts: Tenants, devs: seq<Device>, devs': seq<Device>, product: string,
                    hash: string -> nat, p: int, q: int, fw: FirmwareVersion)
    requires ListsDevices(devs, ts) && ListsDevices(devs', ts) && p <= q
    ensures PushEach(PushEach(records, Candidates(devs, product, fw.version), hash, p, fw),
                     Candidates(devs', product, fw.version), hash, q, fw)
         == PushEach(records, Candidates(devs', product, fw.version), hash, q, fw)
  {
    var first, second := Candidates(devs, product, fw.version), Candidates(devs', product, fw.version);
    var once := PushEach(records, first, hash, p, fw);
    forall d
      ensures At(PushEach(once, second, hash, q, fw), d) == At(PushEach(records, second, hash, q, fw), d)
    {
      PushEachAt(records, first, hash, p, fw, d);
      PushEachAt(once, second, hash, q, fw, d);
      PushEachAt(records, second, hash, q, fw, d);
      if LastTarget(first, d).Some? {
        SameTargets(ts, devs, devs', product, fw.version, d);
      }
    }
    SameEverywhere(PushEach(once, second, hash, q, fw), PushEach(records, second, hash, q, fw));
  }

  /**
    The id of an eligible listed device gets a pending record under the tenant of such a device,
    any other id nothing.
   */
  ghost predicate TakesListedAt(before: Records, devs: seq<Device>, product: string, fw: FirmwareVersion,
                                after: Records, d: string) {
    if exists t :: SomeEligible(devs, product, fw.version, t, d)
    then exists t :: SomeEligible(devs, product, fw.version, t, d) && At(after, d) == Some(Pending(t, d, fw))
    else At(after, d) == At(before, d)
  }

  ghost predicate TakesListed(before: Records, devs: seq<Device>, product: string, fw: FirmwareVersion,
                              after: Records) {
    forall d :: TakesListedAt(before, devs, product, fw, after, d)
  }

  lemma FullPushTakesListed(records: Records, devs: seq<Device>, product: string, hash: string -> nat,
                            fw: FirmwareVersion)
    ensures TakesListed(records, devs, product, fw,
                        PushEach(records, Candidates(devs, product, fw.version), hash, 100, fw))
  {
    var after := PushEach(records, Candidates(devs, product, fw.version), hash, 100, fw);
    forall d
      ensures TakesListedAt(records, devs, product, fw, after, d)
    {
      PushEachAt(records, Candidates(devs, product, fw.version), hash, 100, fw, d);
      TargetsAreEligible(devs, product, fw.version, d);
    }
  }

  /** Exactly the eligible devices of the registry get a pending record for the firmware. */
  ghost predicate TakesEveryone(before: Records, ts: Tenants, product: string, fw: FirmwareVersion, after: Records) {
    forall d :: At(after, d) ==
      if d in Flat(ts) && Eligible(Flat(ts)[d], product, fw.version)
      then Some(Pending(Flat(ts)[d].tenantId, d, fw)) else At(before, d)
  }

  lemma FullPick(candidates: map<string, string>, hash: string -> nat)
    ensures Picked(candidates, hash, 100) == candidates
  {
  }

  lemma RolloutAt(records: Records, candidates: map<string, string>, fw: FirmwareVersion, d: string)
    ensures At(Rollout(records, candidates, fw), d) ==
      if d in candidates then Some(Pending(candidates[d], d, fw)) else At(records, d)
  {
  }

  /** At 100 per cent every eligible device has its record, and no other record changes. */
  lemma FullPushTakesEveryone(records: Records, ts: Tenants, devs: seq<Device>, product: string,
                              hash: string -> nat, fw: FirmwareVersion)
    requires Inv(ts) && ListsDevices(devs, ts)
    ensures TakesEveryone(records, ts, product, fw,
                          PushEach(records, Candidates(devs, product, fw.version), hash, 100, fw))
  {
    var all := FromRegistry(Flat(ts), product, fw.version);
    var after := PushEach(records, Candidates(devs, product, fw.version), hash, 100, fw);
    GrayscaleIsExact(records, ts, devs, product, hash, 100, fw);
    FullPick(all, hash);
    forall d
      ensures At(after, d) == if d in Flat(ts) && Eligible(Flat(ts)[d], product, fw.version)
                              then Some(Pending(Flat(ts)[d].tenantId, d, fw)) else At(records, d)
    {
      RolloutAt(records, all, fw, d);
    }
  }

  /** The record a push leaves: pending, at the start, for that firmware. */
  predicate PendingFor(r: OtaRecord, tenant: string, d: string, fw: FirmwareVersion) {
    && r.tenantId == tenant && r.deviceId == d && r.currentVersion == "" && r.targetVersion == fw.version
    && r.downloadUrl == fw.downloadUrl && r.checksum == fw.checksum && r.forceUpgrade == fw.forceUpgrade
    && r.progress == 0 && r.stage == "pending"
  }

  /** Of this product, activated, online, not at fault and not yet on the version. */
  predicate Due(dev: Device, product: string, version: string) {
    && dev.productId == product && dev.activated && dev.network == ONLINE
    && (dev.work == IDLE || dev.work == BREWING || dev.work == UPGRADING || dev.work == MAINTENANCE)
    && dev.firmwareVersion != version
  }

  /**
    push_grayscale with a registry, device by device: a device that is due and whose bucket is
    below the percentage has a pending record, and every other id keeps what it had.
   */
  lemma GrayscaleOnFields(records: Records, ts: Tenants, devs: seq<Device>, product: string,
                          hash: string -> nat, percent: int, fw: FirmwareVersion, d: string)
    requires Inv(ts) && ListsDevices(devs, ts)
    ensures var after := PushEach(records, Candidates(devs, product, fw.version), hash, percent, fw);
      if d in Flat(ts) && Due(Flat(ts)[d], product, fw.version) && hash(d) % 100 < percent
      then d in after && PendingFor(after[d], Flat(ts)[d].tenantId, d, fw)
      else At(after, d) == At(records, d)
  {
    var m := Flat(ts);
    GrayscaleIsExact(records, ts, devs, product, hash, percent, fw);
    RolloutAt(records, Picked(FromRegistry(m, product, fw.version), hash, percent), fw, d);
    PickedAt(m, product, fw.version, hash, percent, d);
    PendingOnFields(if d in m then m[d].tenantId else "", d, fw);
  }

  lemma PickedAt(m: map<string, Device>, product: string, version: string, hash: string -> nat, percent: int, d: string)
    ensures var picked := Picked(FromRegistry(m, product, version), hash, percent);
      && (d in picked <==> d in m && Due(m[d], product, version) && hash(d) % 100 < percent)
      && (d in picked ==> picked[d] == m[d].tenantId)
  {
  }

  lemma PendingOnFields(tenant: string, d: string, fw: FirmwareVersion)
    ensures PendingFor(Pending(tenant, d, fw), tenant, d, fw)
  {
  }

  /** Without a registry: the finished records of other versions are due. */
  lemma FallbackOnFields(records: Records, hash: string -> nat, percent: int, fw: FirmwareVersion, d: string)
    ensures var after := Rollout(records, Picked(FromRecords(records, fw.version), hash, percent), fw);
      if d in records && records[d].stage == "done" && records[d].targetVersion != fw.version && hash(d) % 100 < percent
      then d in after && PendingFor(after[d], records[d].tenantId, d, fw)
      else At(after, d) == At(records, d)
  {
    RolloutAt(records, Picked(FromRecords(records, fw.version), hash, percent), fw, d);
  }

  /** The candidates that a push at p per cent leaves. */
  function Unpicked(candidates: map<string, string>, hash: string -> nat, p: int): map<string, string> {
    map d | d in candidates && hash(d) % 100 >= p :: candidates[d]
  }

  predicate Finished(r: Option<OtaRecord>, version: string) {
    r.Some? && r.value.targetVersion != version && r.value.stage == "done"
  }

  lemma FinishedAt(records: Records, version: string, d: string)
    ensures d in FromRecords(records, version) <==> Finished(At(records, d), version)
    ensures d in FromRecords(records, version) ==> FromRecords(records, version)[d] == records[d].tenantId
  {
  }

  lemma PushedAreUnfinished(records: Records, hash: string -> nat, p: int, fw: FirmwareVersion)
    ensures var all := FromRecords(records, fw.version);
      FromRecords(Rollout(records, Picked(all, hash, p), fw), fw.version) == Unpicked(all, hash, p)
  {
    var all := FromRecords(records, fw.version);
    var once := Rollout(records, Picked(all, hash, p), fw);
    var left, expected := FromRecords(once, fw.version), Unpicked(all, hash, p);
    forall d
      ensures d in left <==> d in expected
      ensures d in left ==> left[d] == expected[d]
    {
      RolloutAt(records, Picked(all, hash, p), fw, d);
      FinishedAt(records, fw.version, d);
      FinishedAt(once, fw.version, d);
    }
  }

  lemma RolloutRest(records: Records, all: map<string, string>, hash: string -> nat, p: int, q: int,
                    fw: FirmwareVersion)
    requires p <= q
    ensures Rollout(Rollout(records, Picked(all, hash, p), fw), Picked(Unpicked(all, hash, p), hash, q), fw)
         == Rollout(records, Picked(all, hash, q), fw)
  {
    var once, left := Rollout(records, Picked(all, hash, p), fw), Picked(Unpicked(all, hash, p), hash, q);
    var twice, direct := Rollout(once, left, fw), Rollout(records, Picked(all, hash, q), fw);
    forall d
      ensures At(twice, d) == At(direct, d)
    {
      RolloutAt(once, left, fw, d);
      RolloutAt(records, Picked(all, hash, p), fw, d);
      RolloutAt(records, Picked(all, hash, q), fw, d);
    }
    SameEverywhere(twice, direct);
  }

  /** Without a registry too: what was pushed is no longer a finished record, and the rest still is. */
  lemma FallbackWidens(records: Records, hash: string -> nat, p: int, q: int, fw: FirmwareVersion)
    requires p <= q
    ensures var once := Rollout(records, Picked(FromRecords(records, fw.version), hash, p), fw);
      Rollout(once, Picked(FromRecords(once, fw.version), hash, q), fw)
      == Rollout(records, Picked(FromRecords(records, fw.version), hash, q), fw)
  {
    PushedAreUnfinished(records, hash, p, fw);
    RolloutRest(records, FromRecords(records, fw.version), hash, p, q, fw);
  }

  // ---------------------------------------------------------------- the manager

  class OtaManager {
    var firmwares: seq<FirmwareVersion>
    var records: Records
    const hash: string -> nat

    constructor (hash: string -> nat)
      ensures firmwares == [] && records == map[] && this.hash == hash
    {
      firmwares, records := [], map[];
      this.hash := hash;
    }

    method FindFirmware(version: string) returns (i: nat)
      ensures i == FirmwareIndex(firmwares, version)
    {
      i := 0;
      while i < |firmwares| && firmwares[i].version != version
        invariant 0 <= i <= |firmwares| && forall j :: 0 <= j < i ==> firmwares[j].version != version
      {
        i := i + 1;
      }
    }

    method PushToDevice(tenant: string, device: string, version: string) returns (status: StatusCode)
      modifies this`records
      ensures var i := FirmwareIndex(firmwares, version);
        if i == |firmwares| then status == ERROR && records == old(records)
        else status == OK && records == old(records)[device := Pending(tenant, device, firmwares[i])]
    {
      var i := FindFirmware(version);
      if i == |firmwares| {
        return ERROR;
      }
      var fw := firmwares[i];
      records := records[device := OtaRecord(tenant, device, "", version, fw.downloadUrl, fw.checksum, 0, "pending",
                                             fw.forceUpgrade)];
      return OK;
    }

    /** The fallback without a registry: finished records of other versions, in some order. */
    method KnownTargets(version: string) returns (targets: seq<Target>)
      ensures ListsTargets(targets, FromRecords(records, version))
    {
      targets := [];
      var rest := records.Keys;
      ghost var found: map<string, string> := map[];
      while rest != {}
        invariant rest <= records.Keys
        invariant ListsTargets(targets, found)
        invariant found == FromRecords(records, version) - rest
        decreases rest
      {
        var d :| d in rest;
        var rec := records[d];
        if rec.targetVersion != version && rec.stage == "done" {
          AppendTarget(targets, found, Target(rec.tenantId, d));
          targets := targets + [Target(rec.tenantId, d)];
          found := found[d := rec.tenantId];
        }
        rest := rest - {d};
      }
      assert found == FromRecords(records, version);
    }

    method CollectTargets(product: string, version: string, devs: seq<Device>) returns (targets: seq<Target>)
      ensures targets == Candidates(devs, product, version)
    {
      targets := [];
      for i := 0 to |devs|
        invariant targets == Candidates(devs[..i], product, version)
      {
        assert devs[..i + 1][..i] == devs[..i];
        if Eligible(devs[i], product, version) {
          targets := targets + [Target(devs[i].tenantId, devs[i].deviceId)];
        }
      }
      assert devs[..|devs|] == devs;
    }

    method PushTargets(targets: seq<Target>, version: string, percent: int)
      requires FirmwareIndex(firmwares, version) < |firmwares|
      modifies this`records
      ensures records == PushEach(old(records), targets, hash, percent, firmwares[FirmwareIndex(firmwares, version)])
    {
      for i := 0 to |targets|
        invariant records == PushEach(old(records), targets[..i], hash, percent,
                                      firmwares[FirmwareIndex(firmwares, version)])
      {
        assert targets[..i + 1][..i] == targets[..i];
        if hash(targets[i].device) % 100 < percent {
          var _ := PushToDevice(targets[i].tenant, targets[i].device, version);
        }
      }
      assert targets[..|targets|] == targets;
    }

    /** push_grayscale, with the registry's listing when one is wired. */
    method PushGrayscale(product: string, version: string, percent: int, registry: Option<seq<Device>>)
      returns (status: StatusCode)
      modifies this`records
      ensures var k := FirmwareIndex(firmwares, version);
        && (status == OK <==> 1 <= percent <= 100 && k < |firmwares|)
        && (status != OK ==> records == old(records))
        && (status == OK && registry.Some? ==>
              records == PushEach(old(records), Candidates(registry.value, product, version), hash, percent,
                                  firmwares[k]))
        && (status == OK && registry.None? ==>
              records == Rollout(old(records), Picked(FromRecords(old(records), version), hash, percent), firmwares[k]))
    {
      var k := FindFirmware(version);
      if percent < 1 || percent > 100 || k == |firmwares| {
        return ERROR;
      }
      var targets;
      if registry.Some? {
        targets := CollectTargets(product, version, registry.value);
      } else {
        targets := KnownTargets(version);
        PushEachIsRollout(records, targets, FromRecords(records, version), hash, percent, firmwares[k]);
      }
      PushTargets(targets, version, percent);
      return OK;
    }

    method PushAll(product: string, version: string, registry: Option<seq<Device>>, ghost ts: Tenants)
      returns (status: StatusCode)
      requires registry.Some? ==> ListsDevices(registry.value, ts)
      modifies this`records
      ensures var k := FirmwareIndex(firmwares, version);
        && (status == OK <==> k < |firmwares|)
        && (status != OK ==> records == old(records))
        && (status == OK && registry.Some? ==>
              TakesListed(old(records), registry.value, product, firmwares[k], records))
        && (status == OK && registry.Some? && Inv(ts) ==>
              TakesEveryone(old(records), ts, product, firmwares[k], records))
        && (status == OK && registry.None? ==>
              records == Rollout(old(records), FromRecords(old(records), version), firmwares[k]))
    {
      status := PushGrayscale(product, version, 100, registry);
      ghost var k := FirmwareIndex(firmwares, version);
      if status == OK && registry.Some? {
        FullPushTakesListed(old(records), registry.value, product, hash, firmwares[k]);
        if Inv(ts) {
          FullPushTakesEveryone(old(records), ts, registry.value, product, hash, firmwares[k]);
        }
      } else if status == OK {
        FullPick(FromRecords(old(records), version), hash);
      }
    }

    /**
      Two pushes with nothing in between, the second at least as wide: the outcome is that of the
      second alone. Two different listings of one registry, or no registry at all.
     */
    method PushTwice(product: string, version: string, p: int, q: int, registry: Option<(seq<Device>, seq<Device>)>,
                     ghost ts: Tenants) returns (status: StatusCode)
      requires p <= q
      requires registry.Some? ==> ListsDevices(registry.value.0, ts) && ListsDevices(registry.value.1, ts)
      modifies this`records
      ensures var k := FirmwareIndex(firmwares, version);
        && (status == OK <==> 1 <= q <= 100 && k < |firmwares|)
        && (status == OK && registry.Some? ==>
              records == PushEach(old(records), Candidates(registry.value.1, product, version), hash, q, firmwares[k]))
        && (status == OK && registry.None? ==>
              records == Rollout(old(records), Picked(FromRecords(old(records), version), hash, q), firmwares[k]))
    {
      var first := PushGrayscale(product, version, p, if registry.Some? then Some(registry.value.0) else None);
      ghost var once := records;
      status := PushGrayscale(product, version, q, if registry.Some? then Some(registry.value.1) else None);
      ghost var k := FirmwareIndex(firmwares, version);
      if status == OK && first == OK {
        if registry.Some? {
          PushesWiden(old(records), ts, registry.value.0, registry.value.1, product, hash, p, q, firmwares[k]);
        } else {
          FallbackWidens(old(records), hash, p, q, firmwares[k]);
        }
      }
    }
  }
}

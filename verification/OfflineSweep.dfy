/**
  The offline sweep: a snapshot of stale devices under one lock, then one status update per
  device under a lock of its own, with any other registry steps in between.
 */
module OfflineSweep {
  import opened Common
  import opened Devices

  predicate Stale(dev: Device, now: int, timeout: int) {
    now - dev.lastHeartbeatAt > timeout
  }

  ghost predicate StaleAt(ts: Tenants, t: string, d: string, now: int, timeout: int) {
    Holds(ts, t, d) && Stale(ts[t][d], now, timeout)
  }

  /** Every entry is a stale device as ts0 had it. */
  ghost predicate FromSnapshot(devs: seq<Device>, ts0: Tenants, now: int, timeout: int) {
    forall i :: 0 <= i < |devs| ==>
      && StaleAt(ts0, devs[i].tenantId, devs[i].deviceId, now, timeout)
      && ts0[devs[i].tenantId][devs[i].deviceId] == devs[i]
  }

  /** `devs` lists the stale devices, in whatever order the hash maps give. */
  ghost predicate IsSnapshot(ts: Tenants, now: int, timeout: int, devs: seq<Device>) {
    && FromSnapshot(devs, ts, now, timeout)
    && (forall t, d :: StaleAt(ts, t, d, now, timeout) ==> Listed(devs, t, d))
  }

  ghost predicate Listed(devs: seq<Device>, t: string, d: string) {
    exists i :: 0 <= i < |devs| && devs[i].tenantId == t && devs[i].deviceId == d
  }

  /** No (tenant, device) pair is listed twice. */
  ghost predicate ListedOnce(devs: seq<Device>) {
    forall i, j :: 0 <= i < j < |devs| ==> devs[i].tenantId != devs[j].tenantId || devs[i].deviceId != devs[j].deviceId
  }

  function Mark(ts: Tenants, dev: Device): Tenants {
    SetStatus(ts, dev.tenantId, dev.deviceId, OFFLINE, dev.work)
  }

  function MarkAll(ts: Tenants, devs: seq<Device>): Tenants {
    if devs == [] then ts else MarkAll(Mark(ts, devs[0]), devs[1..])
  }

  // ---------------------------------------------------------------- without interruption

  function MarkedIf(dev: Device, b: bool): Device {
    if b then dev.(network := OFFLINE) else dev
  }

  predicate SameWork(ts: Tenants, dev: Device) {
    Holds(ts, dev.tenantId, dev.deviceId) && ts[dev.tenantId][dev.deviceId].work == dev.work
  }

  /** Marking keeps the keys and, where the listed copies are current, changes the network status only. */
  lemma {:induction false} MarkAllEffect(ts: Tenants, devs: seq<Device>, t: string, d: string)
    requires forall i :: 0 <= i < |devs| ==> SameWork(ts, devs[i])
    ensures Holds(MarkAll(ts, devs), t, d) <==> Holds(ts, t, d)
    ensures Holds(ts, t, d) ==> MarkAll(ts, devs)[t][d] == MarkedIf(ts[t][d], Listed(devs, t, d))
    decreases |devs|
  {
    if devs != [] {
      var ts1, rest := Mark(ts, devs[0]), devs[1..];
      assert forall i :: 0 <= i < |rest| ==> rest[i] == devs[i + 1];
      assert Listed(devs, t, d) <==> (devs[0].tenantId == t && devs[0].deviceId == d) || Listed(rest, t, d) by {
        assert forall i :: 0 < i < |devs| ==> devs[i] == rest[i - 1];
      }
      MarkAllEffect(ts1, rest, t, d);
    }
  }

  /** The same devices as before, with the stale ones OFFLINE and every other field kept. */
  ghost predicate Swept(ts: Tenants, now: int, timeout: int, ts': Tenants) {
    && (forall t, d :: Holds(ts', t, d) <==> Holds(ts, t, d))
    && (forall t, d :: Holds(ts, t, d) ==> ts'[t][d] == MarkedIf(ts[t][d], Stale(ts[t][d], now, timeout)))
  }

  /** An uninterrupted sweep sets exactly the stale devices OFFLINE and touches nothing else. */
  lemma SweepIsExact(ts: Tenants, now: int, timeout: int, devs: seq<Device>)
    requires IsSnapshot(ts, now, timeout, devs)
    ensures Swept(ts, now, timeout, MarkAll(ts, devs))
  {
    forall t, d
      ensures Holds(MarkAll(ts, devs), t, d) <==> Holds(ts, t, d)
      ensures Holds(ts, t, d) ==> MarkAll(ts, devs)[t][d] == MarkedIf(ts[t][d], Stale(ts[t][d], now, timeout))
    {
      MarkAllEffect(ts, devs, t, d);
      if i :| 0 <= i < |devs| && devs[i].tenantId == t && devs[i].deviceId == d {
        assert StaleAt(ts, devs[i].tenantId, devs[i].deviceId, now, timeout);
      }
      assert Holds(ts, t, d) && Stale(ts[t][d], now, timeout) ==> StaleAt(ts, t, d, now, timeout);
    }
  }

  // ---------------------------------------------------------------- interleaved

  /** The sweep's next update, or a step of anyone else. */
  datatype Turn = Sweep | Other(op: Op)

  /** One sweep update may mark (t, d) if it was stale at the snapshot, and do nothing else. */
  ghost predicate OnlyMarks(before: Tenants, after: Tenants, ts0: Tenants, now: int, timeout: int) {
    && (forall t, d :: Holds(after, t, d) <==> Holds(before, t, d))
    && (forall t, d :: Holds(before, t, d) ==>
          || after[t][d] == before[t][d]
          || (StaleAt(ts0, t, d, now, timeout)
              && after[t][d] == before[t][d].(network := OFFLINE, work := ts0[t][d].work)))
  }

  /** The registry after a schedule; a finished sweep's turns do nothing. */
  ghost function After(ts: Tenants, pending: seq<Device>, turns: seq<Turn>): Tenants
    decreases |turns|
  {
    if turns == [] then ts
    else match turns[0]
      case Other(op) => After(Step(ts, op), pending, turns[1..])
      case Sweep =>
        if pending == [] then After(ts, [], turns[1..]) else After(Mark(ts, pending[0]), pending[1..], turns[1..])
  }

  /** Along the whole schedule, every sweep update only marks. */
  ghost predicate SafeSchedule(ts: Tenants, pending: seq<Device>, turns: seq<Turn>, ts0: Tenants, now: int,
                               timeout: int)
    decreases |turns|
  {
    if turns == [] then true
    else match turns[0]
      case Other(op) => SafeSchedule(Step(ts, op), pending, turns[1..], ts0, now, timeout)
      case Sweep =>
        if pending == [] then SafeSchedule(ts, [], turns[1..], ts0, now, timeout)
        else
          && OnlyMarks(ts, Mark(ts, pending[0]), ts0, now, timeout)
          && SafeSchedule(Mark(ts, pending[0]), pending[1..], turns[1..], ts0, now, timeout)
  }

  /** In every interleaving, from any state onward, the updates of a snapshot taken at ts0 are safe. */
  lemma {:induction false} EveryInterleavingIsSafe(ts: Tenants, pending: seq<Device>, turns: seq<Turn>,
                                                   ts0: Tenants, now: int, timeout: int)
    requires FromSnapshot(pending, ts0, now, timeout)
    ensures SafeSchedule(ts, pending, turns, ts0, now, timeout)
    decreases |turns|
  {
    if turns != [] {
      match turns[0]
      case Other(op) => EveryInterleavingIsSafe(Step(ts, op), pending, turns[1..], ts0, now, timeout);
      case Sweep =>
        if pending == [] {
          EveryInterleavingIsSafe(ts, [], turns[1..], ts0, now, timeout);
        } else {
          assert FromSnapshot(pending[1..], ts0, now, timeout);
          EveryInterleavingIsSafe(Mark(ts, pending[0]), pending[1..], turns[1..], ts0, now, timeout);
        }
    }
  }

  // ---------------------------------------------------------------- against the other steps alone

  /** The steps of a schedule that are not the sweep's. */
  function Others(turns: seq<Turn>): seq<Op> {
    if turns == [] then []
    else (if turns[0].Other? then [turns[0].op] else []) + Others(turns[1..])
  }

  ghost predicate WasStale(ts0: Tenants, d: string, now: int, timeout: int) {
    exists t :: StaleAt(ts0, t, d, now, timeout)
  }

  /** The same devices with the same fields, but for the two statuses of devices stale at the snapshot. */
  ghost predicate Alike(m: map<string, Device>, n: map<string, Device>, ts0: Tenants, now: int, timeout: int) {
    && m.Keys == n.Keys
    && forall d :: d in m ==> SameBut(m[d], n[d], WasStale(ts0, d, now, timeout))
  }

  /** The two statuses may differ where `loose` says so. */
  predicate SameBut(x: Device, y: Device, loose: bool) {
    x.(network := y.network, work := y.work) == y && (x != y ==> loose)
  }

  lemma PutKeepsAlike(m: map<string, Device>, n: map<string, Device>, d: string, x: Device, y: Device,
                      ts0: Tenants, now: int, timeout: int)
    requires Alike(m, n, ts0, now, timeout) && SameBut(x, y, WasStale(ts0, d, now, timeout))
    ensures Alike(m[d := x], n[d := y], ts0, now, timeout)
  {
  }

  /** Every step keeps all devices but one, and makes the same of the two copies of that one. */
  lemma StepKeepsAlike(m: map<string, Device>, n: map<string, Device>, op: Op, ts0: Tenants, now: int, timeout: int)
    requires Alike(m, n, ts0, now, timeout)
    ensures Alike(FlatStep(m, op), FlatStep(n, op), ts0, now, timeout)
  {
    match op
    case RemoveDevice(_, _) =>
    case RegisterDevice(dev) => PutKeepsAlike(m, n, dev.deviceId, dev, dev, ts0, now, timeout);
    case UpdateStatus(_, d, _, _) => KeptStep(m, n, op, d, ts0, now, timeout);
    case Report(d, _) => KeptStep(m, n, op, d, ts0, now, timeout);
    case MigrateDevice(d, _) => KeptStep(m, n, op, d, ts0, now, timeout);
    case HeartbeatFrom(d, _) => KeptStep(m, n, op, d, ts0, now, timeout);
    case Process(_, d, _, _) => KeptStep(m, n, op, d, ts0, now, timeout);
  }

  lemma KeptStep(m: map<string, Device>, n: map<string, Device>, op: Op, d: string,
                 ts0: Tenants, now: int, timeout: int)
    requires Alike(m, n, ts0, now, timeout) && !op.RemoveDevice? && !op.RegisterDevice? && op.d == d
    ensures Alike(FlatStep(m, op), FlatStep(n, op), ts0, now, timeout)
  {
    var m', n' := FlatStep(m, op), FlatStep(n, op);
    if d in m' {
      assert m' == m[d := m'[d]] && n' == n[d := n'[d]];
      PutKeepsAlike(m, n, d, m'[d], n'[d], ts0, now, timeout);
    } else {
      assert m' == m && n' == n;
    }
  }

  lemma MarkKeepsAlike(m: map<string, Device>, n: map<string, Device>, dev: Device, ts0: Tenants, now: int,
                       timeout: int)
    requires Alike(m, n, ts0, now, timeout) && StaleAt(ts0, dev.tenantId, dev.deviceId, now, timeout)
    ensures Alike(FlatStep(m, UpdateStatus(dev.tenantId, dev.deviceId, OFFLINE, dev.work)), n, ts0, now, timeout)
  {
    var d := dev.deviceId;
    if d in m && m[d].tenantId == dev.tenantId {
      PutKeepsAlike(m, n, d, m[d].(network := OFFLINE, work := dev.work), n[d], ts0, now, timeout);
      assert n[d := n[d]] == n;
    }
  }

  lemma AlikeEnables(ts: Tenants, us: Tenants, op: Op, ts0: Tenants, now: int, timeout: int)
    requires Inv(ts) && Inv(us) && Alike(Flat(ts), Flat(us), ts0, now, timeout) && Enabled(us, op)
    ensures Enabled(ts, op)
  {
    forall t, d | Holds(ts, t, d)
      ensures Holds(us, t, d)
    {
      FlatAt(ts, t, d);
      FlatAt(us, t, d);
    }
  }

  /**
    Whatever runs between a sweep's snapshot and its updates, the registry ends as it would
    have without the sweep, except for the network and work status of devices that were stale at
    the snapshot.
   */
  lemma {:induction false} InterleavedEqualsOthersAlone(
      ts: Tenants, us: Tenants, us': Tenants, pending: seq<Device>, turns: seq<Turn>, ts0: Tenants, now: int,
      timeout: int)
    requires Inv(ts) && Inv(us) && Alike(Flat(ts), Flat(us), ts0, now, timeout)
    requires FromSnapshot(pending, ts0, now, timeout)
    requires IsRun(us, Others(turns), us')
    ensures Inv(After(ts, pending, turns)) && Inv(us')
    ensures Alike(Flat(After(ts, pending, turns)), Flat(us'), ts0, now, timeout)
    decreases |turns|
  {
    if turns != [] {
      var rest := turns[1..];
      match turns[0]
      case Other(op) =>
        assert Others(turns) == [op] + Others(rest);
        assert Others(turns)[0] == op && Others(turns)[1..] == Others(rest);
        AlikeEnables(ts, us, op, ts0, now, timeout);
        StepKeepsInv(ts, op);
        StepKeepsInv(us, op);
        StepRefinesFlat(ts, op);
        StepRefinesFlat(us, op);
        StepKeepsAlike(Flat(ts), Flat(us), op, ts0, now, timeout);
        InterleavedEqualsOthersAlone(Step(ts, op), Step(us, op), us', pending, rest, ts0, now, timeout);
      case Sweep =>
        assert Others(turns) == Others(rest);
        if pending == [] {
          InterleavedEqualsOthersAlone(ts, us, us', [], rest, ts0, now, timeout);
        } else {
          var dev := pending[0];
          assert FromSnapshot(pending[1..], ts0, now, timeout);
          SetStatusKeepsInv(ts, dev.tenantId, dev.deviceId, OFFLINE, dev.work);
          FlatSetStatus(ts, dev.tenantId, dev.deviceId, OFFLINE, dev.work);
          MarkKeepsAlike(Flat(ts), Flat(us), dev, ts0, now, timeout);
          InterleavedEqualsOthersAlone(Mark(ts, dev), us, us', pending[1..], rest, ts0, now, timeout);
        }
    }
  }

  // ---------------------------------------------------------------- when a mark is still right

  /** The heartbeat time that a step gives device d. */
  function Beat(op: Op, d: string): Option<int> {
    match op
    case HeartbeatFrom(e, time) => if e == d then Some(time) else None
    case Process(_, e, _, time) => if e == d then Some(time) else None
    case RegisterDevice(dev) => if dev.deviceId == d then Some(dev.lastHeartbeatAt) else None
    case _ => None
  }

  /** The one given last. */
  function LastBeat(ops: seq<Op>, d: string): Option<int> {
    if ops == [] then None
    else
      var later := LastBeat(ops[1..], d);
      if later.Some? then later else Beat(ops[0], d)
  }

  /** The work status that a step on the devices m gives device d. */
  function WorkSet(m: map<string, Device>, op: Op, d: string): Option<WorkStatus> {
    match op
    case HeartbeatFrom(e, _) => if e == d && d !in m then Some(IDLE) else None
    case Process(_, e, _, _) => if e == d && d !in m then Some(IDLE) else None
    case Report(e, _) => if e == d && d in m then Some(IDLE) else None
    case RegisterDevice(dev) => if dev.deviceId == d then Some(dev.work) else None
    case UpdateStatus(t, e, _, work) => if e == d && d in m && m[d].tenantId == t then Some(work) else None
    case _ => None
  }

  function LastWork(m: map<string, Device>, ops: seq<Op>, d: string): Option<WorkStatus>
    decreases |ops|
  {
    if ops == [] then None
    else
      var later := LastWork(FlatStep(m, ops[0]), ops[1..], d);
      if later.Some? then later else WorkSet(m, ops[0], d)
  }

  /** The network status that a step on the devices m gives device d. */
  function NetworkSet(m: map<string, Device>, op: Op, d: string): Option<NetworkStatus> {
    match op
    case HeartbeatFrom(e, _) => if e == d then Some(ONLINE) else None
    case Process(_, e, _, _) => if e == d then Some(ONLINE) else None
    case Report(e, offline) => if e == d && d in m then Some(if offline then OFFLINE else ONLINE) else None
    case RegisterDevice(dev) => if dev.deviceId == d then Some(dev.network) else None
    case UpdateStatus(t, e, network, _) => if e == d && d in m && m[d].tenantId == t then Some(network) else None
    case _ => None
  }

  function LastNetwork(m: map<string, Device>, ops: seq<Op>, d: string): Option<NetworkStatus>
    decreases |ops|
  {
    if ops == [] then None
    else
      var later := LastNetwork(FlatStep(m, ops[0]), ops[1..], d);
      if later.Some? then later else NetworkSet(m, ops[0], d)
  }

  lemma StepGivesNetwork(m: map<string, Device>, op: Op, d: string)
    requires d in FlatStep(m, op)
    ensures var network := NetworkSet(m, op, d);
      && (network.None? ==> d in m)
      && FlatStep(m, op)[d].network == if network.Some? then network.value else m[d].network
  {
  }

  /** After any run a device carries the last network status given to it, else the one it had. */
  lemma {:induction false} RunGivesNetwork(ts: Tenants, ops: seq<Op>, ts': Tenants, d: string)
    requires Inv(ts) && IsRun(ts, ops, ts') && d in Flat(ts')
    ensures var network := LastNetwork(Flat(ts), ops, d);
      && (network.None? ==> d in Flat(ts))
      && Flat(ts')[d].network == if network.Some? then network.value else Flat(ts)[d].network
    decreases |ops|
  {
    if ops != [] {
      var mid := Step(ts, ops[0]);
      StepKeepsInv(ts, ops[0]);
      StepRefinesFlat(ts, ops[0]);
      RunGivesNetwork(mid, ops[1..], ts', d);
      if d in Flat(mid) {
        StepGivesNetwork(Flat(ts), ops[0], d);
      }
    }
  }

  lemma StepGives(m: map<string, Device>, op: Op, d: string)
    requires d in FlatStep(m, op)
    ensures var dev, beat, work := FlatStep(m, op)[d], Beat(op, d), WorkSet(m, op, d);
      && (beat.None? || work.None? ==> d in m)
      && dev.lastHeartbeatAt == (if beat.Some? then beat.value else m[d].lastHeartbeatAt)
      && dev.work == if work.Some? then work.value else m[d].work
  {
  }

  /** After any run a device carries the last time and work status given to it, else those it had. */
  lemma {:induction false} RunGives(ts: Tenants, ops: seq<Op>, ts': Tenants, d: string)
    requires Inv(ts) && IsRun(ts, ops, ts') && d in Flat(ts')
    ensures var m, dev, beat, work := Flat(ts), Flat(ts')[d], LastBeat(ops, d), LastWork(Flat(ts), ops, d);
      && (beat.None? || work.None? ==> d in m)
      && dev.lastHeartbeatAt == (if beat.Some? then beat.value else m[d].lastHeartbeatAt)
      && dev.work == if work.Some? then work.value else m[d].work
    decreases |ops|
  {
    if ops != [] {
      var mid := Step(ts, ops[0]);
      StepKeepsInv(ts, ops[0]);
      StepRefinesFlat(ts, ops[0]);
      RunGives(mid, ops[1..], ts', d);
      if d in Flat(mid) {
        StepGives(Flat(ts), ops[0], d);
      }
    }
  }

  /**
    A snapshot entry is marked after any run of other steps, the sweep's earlier updates among
    them. The device is then still silent if and only if the last heartbeat or registration of its
    id in the run, if there was one, carries a time stale at the snapshot. The mark loses no work
    status if and only if the last one set in the run, if any, is the snapshot's.
   */
  lemma MarkIsRightIff(ts0: Tenants, dev: Device, ops: seq<Op>, ts: Tenants, now: int, timeout: int)
    requires Inv(ts0) && FromSnapshot([dev], ts0, now, timeout)
    requires IsRun(ts0, ops, ts) && Holds(ts, dev.tenantId, dev.deviceId)
    ensures var t, d := dev.tenantId, dev.deviceId;
      var beat, work := LastBeat(ops, d), LastWork(Flat(ts0), ops, d);
      && (StaleAt(ts, t, d, now, timeout) <==> beat.None? || now - beat.value > timeout)
      && Holds(Mark(ts, dev), t, d)
      && (Mark(ts, dev)[t][d].work == ts[t][d].work <==> work.None? || work.value == dev.work)
  {
    var t, d := dev.tenantId, dev.deviceId;
    assert [dev][0] == dev;
    RunKeepsInv(ts0, ops, ts);
    FlatAt(ts0, t, d);
    FlatAt(ts, t, d);
    RunGives(ts0, ops, ts, d);
  }

  /** The shortest run that breaks it: a heartbeat in between, and the device is OFFLINE all the same. */
  lemma LateHeartbeatIsOverridden(ts: Tenants, dev: Device, now: int, timeout: int)
    requires Inv(ts) && FromSnapshot([dev], ts, now, timeout) && timeout >= 0
    ensures var ts' := Step(ts, HeartbeatFrom(dev.deviceId, now));
      && IsRun(ts, [HeartbeatFrom(dev.deviceId, now)], ts')
      && Holds(ts', dev.tenantId, dev.deviceId)
      && !StaleAt(ts', dev.tenantId, dev.deviceId, now, timeout)
      && Mark(ts', dev)[dev.tenantId][dev.deviceId] == dev.(lastHeartbeatAt := now, network := OFFLINE)
  {
    var op := HeartbeatFrom(dev.deviceId, now);
    assert [dev][0] == dev;
    FindIsOrderIndependent(ts, dev.tenantId, dev.deviceId);
    assert IsRun(Step(ts, op), [op][1..], Step(ts, op));
    MarkIsRightIff(ts, dev, [op], Step(ts, op), now, timeout);
  }

  /** Likewise a status report in between: the snapshot's work status comes back. */
  lemma LateReportIsOverridden(ts: Tenants, dev: Device, offline: bool, now: int, timeout: int)
    requires Inv(ts) && FromSnapshot([dev], ts, now, timeout)
    ensures var ts' := Step(ts, Report(dev.deviceId, offline));
      && Holds(ts', dev.tenantId, dev.deviceId)
      && ts'[dev.tenantId][dev.deviceId].work == IDLE
      && Mark(ts', dev)[dev.tenantId][dev.deviceId] == dev.(network := OFFLINE)
  {
    assert [dev][0] == dev;
    FindIsOrderIndependent(ts, dev.tenantId, dev.deviceId);
  }
}

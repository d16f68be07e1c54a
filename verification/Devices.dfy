/** The two-level device registry (tenant, then device) as a value, and the one-level map it stands for. */
module Devices {
  import opened Common

  datatype NetworkStatus = ONLINE | OFFLINE

  datatype WorkStatus = IDLE | BREWING | FAULT | UPGRADING | MAINTENANCE

  datatype Device = Device(
    tenantId: string,
    deviceId: string,
    productId: string,
    network: NetworkStatus,
    work: WorkStatus,
    firmwareVersion: string,
    macAddress: string,
    model: string,
    hardwareUid: string,
    lastHeartbeatAt: int,
    activatedAt: int,
    activated: bool)

  type Tenants = map<string, map<string, Device>>

  predicate Holds(ts: Tenants, t: string, d: string) {
    t in ts && d in ts[t]
  }

  function DevicesOf(ts: Tenants, t: string): map<string, Device> {
    if t in ts then ts[t] else map[]
  }

  function Put(ts: Tenants, t: string, d: string, dev: Device): Tenants {
    ts[t := DevicesOf(ts, t)[d := dev]]
  }

  // ---------------------------------------------------------------- operations

  function Discovered(t: string, d: string, product: string, now: int): Device {
    Device(t, d, product, ONLINE, IDLE, "", "", "", "", now, 0, true)
  }

  function Heartbeat(ts: Tenants, t: string, d: string, product: string, now: int): Tenants {
    Put(ts, t, d,
        if Holds(ts, t, d) then ts[t][d].(lastHeartbeatAt := now, network := ONLINE)
        else Discovered(t, d, product, now))
  }

  function Register(ts: Tenants, dev: Device): Tenants {
    Put(ts, dev.tenantId, dev.deviceId, dev)
  }

  /** Removing a tenant's last device removes the tenant. */
  function Remove(ts: Tenants, t: string, d: string): Tenants {
    if !Holds(ts, t, d) then ts
    else
      var rest := ts[t] - {d};
      if rest == map[] then ts - {t} else ts[t := rest]
  }

  function SetStatus(ts: Tenants, t: string, d: string, network: NetworkStatus, work: WorkStatus): Tenants {
    if !Holds(ts, t, d) then ts
    else ts[t := ts[t][d := ts[t][d].(network := network, work := work)]]
  }

  /** Moving a device found under tenant `from`; the emptied tenant stays. */
  function Move(ts: Tenants, from: string, d: string, to: string): Tenants
    requires Holds(ts, from, d)
  {
    Put(ts[from := ts[from] - {d}], to, d, ts[from][d].(tenantId := to))
  }

  // ---------------------------------------------------------------- what the calls do, on fields

  /** All keys but one hold what they held. */
  ghost predicate SameElsewhere(ts: Tenants, ts': Tenants, t: string, d: string) {
    forall u, e :: (u != t || e != d) ==>
      (Holds(ts', u, e) <==> Holds(ts, u, e)) && (Holds(ts, u, e) ==> ts'[u][e] == ts[u][e])
  }

  /** A heartbeat brings its device online at its time; a new device is idle, activated and otherwise blank. */
  lemma HeartbeatOnFields(ts: Tenants, t: string, d: string, product: string, now: int)
    ensures var ts' := Heartbeat(ts, t, d, product, now);
      && Holds(ts', t, d) && SameElsewhere(ts, ts', t, d)
      && var dev := ts'[t][d];
      && dev.network == ONLINE && dev.lastHeartbeatAt == now
      && (!Holds(ts, t, d) ==>
            && dev.tenantId == t && dev.deviceId == d && dev.productId == product && dev.work == IDLE
            && dev.activated && dev.activatedAt == 0 && dev.firmwareVersion == "" && dev.macAddress == ""
            && dev.model == "" && dev.hardwareUid == "")
      && (Holds(ts, t, d) ==> dev == ts[t][d].(network := dev.network, lastHeartbeatAt := dev.lastHeartbeatAt))
  {
  }

  lemma RegisterOnFields(ts: Tenants, dev: Device)
    ensures var ts' := Register(ts, dev);
      && Holds(ts', dev.tenantId, dev.deviceId) && ts'[dev.tenantId][dev.deviceId] == dev
      && SameElsewhere(ts, ts', dev.tenantId, dev.deviceId)
  {
  }

  lemma RemoveOnFields(ts: Tenants, t: string, d: string)
    ensures var ts' := Remove(ts, t, d);
      && !Holds(ts', t, d) && SameElsewhere(ts, ts', t, d)
      && (t in ts' ==> t in ts) && (Holds(ts, t, d) ==> (t in ts' <==> exists e :: e != d && Holds(ts, t, e)))
  {
    if Holds(ts, t, d) {
      var rest := ts[t] - {d};
      assert forall e :: e in rest <==> e != d && Holds(ts, t, e);
      assert rest != map[] ==> exists e :: e in rest;
    }
  }

  lemma SetStatusOnFields(ts: Tenants, t: string, d: string, network: NetworkStatus, work: WorkStatus)
    ensures var ts' := SetStatus(ts, t, d, network, work);
      && (Holds(ts', t, d) <==> Holds(ts, t, d)) && SameElsewhere(ts, ts', t, d)
      && (Holds(ts, t, d) ==>
            var dev := ts'[t][d];
            dev.network == network && dev.work == work && dev == ts[t][d].(network := dev.network, work := dev.work))
  {
  }

  // ---------------------------------------------------------------- lookup by device id

  ghost predicate Known(ts: Tenants, d: string) {
    exists t :: Holds(ts, t, d)
  }

  /** Some tenant that has the device: the first one the hash map's order happens to show. */
  ghost function Owner(ts: Tenants, d: string): (t: string)
    requires Known(ts, d)
    ensures Holds(ts, t, d)
  {
    var t :| Holds(ts, t, d); t
  }

  ghost function Find(ts: Tenants, d: string): Option<Device> {
    if Known(ts, d) then Some(ts[Owner(ts, d)][d]) else None
  }

  ghost function ResolveTenant(ts: Tenants, d: string): string {
    if Find(ts, d).Some? then Find(ts, d).value.tenantId else "default"
  }

  ghost function ResolveProduct(ts: Tenants, d: string): string {
    if Find(ts, d).Some? then Find(ts, d).value.productId else ""
  }

  // ---------------------------------------------------------------- steps

  /**
    HeartbeatFrom and Report are routed messages handled without interruption. The router takes
    the lock once to resolve the tenant, once for the product and once to process; with other steps in
    between, a heartbeat is a Process step under the tenant resolved before, and a report an
    UpdateStatus step. The others are calls from the HTTP side and the sweep.
   */
  datatype Op =
    | HeartbeatFrom(d: string, now: int)
    | Process(t: string, d: string, product: string, now: int)
    | Report(d: string, offline: bool)
    | RegisterDevice(dev: Device)
    | RemoveDevice(t: string, d: string)
    | MigrateDevice(d: string, to: string)
    | UpdateStatus(t: string, d: string, network: NetworkStatus, work: WorkStatus)

  ghost function Step(ts: Tenants, op: Op): Tenants {
    match op
    case HeartbeatFrom(d, now) => Heartbeat(ts, ResolveTenant(ts, d), d, ResolveProduct(ts, d), now)
    case Process(t, d, product, now) => Heartbeat(ts, t, d, product, now)
    case Report(d, offline) => SetStatus(ts, ResolveTenant(ts, d), d, if offline then OFFLINE else ONLINE, IDLE)
    case RegisterDevice(dev) => Register(ts, dev)
    case RemoveDevice(t, d) => Remove(ts, t, d)
    case MigrateDevice(d, to) => if Known(ts, d) then Move(ts, Owner(ts, d), d, to) else ts
    case UpdateStatus(t, d, network, work) => SetStatus(ts, t, d, network, work)
  }

  /** No other tenant has the device. */
  ghost predicate OnlyUnder(ts: Tenants, t: string, d: string) {
    forall u :: Holds(ts, u, d) ==> u == t
  }

  /** A device is registered, and a heartbeat processed, under the tenant that has the id, or else the id is new. */
  ghost predicate Enabled(ts: Tenants, op: Op) {
    match op
    case Process(t, d, _, _) => OnlyUnder(ts, t, d)
    case RegisterDevice(dev) => OnlyUnder(ts, dev.tenantId, dev.deviceId)
    case _ => true
  }

  ghost predicate IsRun(ts: Tenants, ops: seq<Op>, ts': Tenants)
    decreases |ops|
  {
    if ops == [] then ts == ts' else Enabled(ts, ops[0]) && IsRun(Step(ts, ops[0]), ops[1..], ts')
  }

  // ---------------------------------------------------------------- invariant

  /** Keys equal the stored fields. */
  ghost predicate Filed(ts: Tenants) {
    forall t, d :: Holds(ts, t, d) ==> ts[t][d].tenantId == t && ts[t][d].deviceId == d
  }

  /** Moreover no device is under two tenants. */
  ghost predicate Inv(ts: Tenants) {
    && Filed(ts)
    && (forall t, u, d :: Holds(ts, t, d) && Holds(ts, u, d) ==> t == u)
  }

  lemma PutKeepsFiled(ts: Tenants, t: string, d: string, dev: Device)
    requires Filed(ts) && dev.tenantId == t && dev.deviceId == d
    ensures Filed(Put(ts, t, d, dev))
  {
  }

  lemma RemoveKeepsFiled(ts: Tenants, t: string, d: string)
    requires Filed(ts)
    ensures Filed(Remove(ts, t, d))
  {
    if Holds(ts, t, d) {
      RemoveIsWithout(ts, t, d);
    }
  }

  lemma MoveKeepsFiled(ts: Tenants, from: string, d: string, to: string)
    requires Filed(ts) && Holds(ts, from, d)
    ensures Filed(Move(ts, from, d, to))
  {
    PutKeepsFiled(ts[from := ts[from] - {d}], to, d, ts[from][d].(tenantId := to));
  }

  lemma SetStatusKeepsFiled(ts: Tenants, t: string, d: string, network: NetworkStatus, work: WorkStatus)
    requires Filed(ts)
    ensures Filed(SetStatus(ts, t, d, network, work))
  {
    if Holds(ts, t, d) {
      PutKeepsFiled(ts, t, d, ts[t][d].(network := network, work := work));
    }
  }

  lemma HeartbeatKeepsFiled(ts: Tenants, t: string, d: string, product: string, now: int)
    requires Filed(ts)
    ensures Filed(Heartbeat(ts, t, d, product, now))
  {
    PutKeepsFiled(ts, t, d, DevicesOf(Heartbeat(ts, t, d, product, now), t)[d]);
  }

  /** Every step keeps devices under their own fields, also where an id stands under two tenants. */
  lemma StepKeepsFiled(ts: Tenants, op: Op)
    requires Filed(ts)
    ensures Filed(Step(ts, op))
  {
    match op
    case HeartbeatFrom(d, now) => HeartbeatKeepsFiled(ts, ResolveTenant(ts, d), d, ResolveProduct(ts, d), now);
    case Process(t, d, product, now) => HeartbeatKeepsFiled(ts, t, d, product, now);
    case Report(d, offline) =>
      SetStatusKeepsFiled(ts, ResolveTenant(ts, d), d, if offline then OFFLINE else ONLINE, IDLE);
    case RegisterDevice(dev) => PutKeepsFiled(ts, dev.tenantId, dev.deviceId, dev);
    case RemoveDevice(t, d) => RemoveKeepsFiled(ts, t, d);
    case MigrateDevice(d, to) => if Known(ts, d) { MoveKeepsFiled(ts, Owner(ts, d), d, to); }
    case UpdateStatus(t, d, network, work) => SetStatusKeepsFiled(ts, t, d, network, work);
  }

  /** The lookup does not depend on the order in which tenants are visited. */
  lemma FindIsOrderIndependent(ts: Tenants, t: string, d: string)
    requires Inv(ts) && Holds(ts, t, d)
    ensures Find(ts, d) == Some(ts[t][d]) && Owner(ts, d) == t && ResolveTenant(ts, d) == t
  {
  }

  lemma PutKeepsInv(ts: Tenants, t: string, d: string, dev: Device)
    requires Inv(ts) && dev.tenantId == t && dev.deviceId == d
    requires OnlyUnder(ts, t, d)
    ensures Inv(Put(ts, t, d, dev))
  {
    var ts' := Put(ts, t, d, dev);
    assert forall u, e :: Holds(ts', u, e) <==> Holds(ts, u, e) || (u == t && e == d);
  }

  /** ts' is ts without the device d of tenant t. */
  ghost predicate Without(ts: Tenants, t: string, d: string, ts': Tenants) {
    && (forall u, e :: Holds(ts', u, e) <==> Holds(ts, u, e) && !(u == t && e == d))
    && (forall u, e :: Holds(ts', u, e) ==> ts'[u][e] == ts[u][e])
  }

  lemma WithoutKeepsInv(ts: Tenants, t: string, d: string, ts': Tenants)
    requires Inv(ts) && Without(ts, t, d, ts')
    ensures Inv(ts')
  {
  }

  lemma RemoveIsWithout(ts: Tenants, t: string, d: string)
    requires Holds(ts, t, d)
    ensures Without(ts, t, d, Remove(ts, t, d))
  {
    var rest := ts[t] - {d};
    assert forall e :: e in ts[t] && e != d ==> e in rest;
  }

  lemma MoveKeepsInv(ts: Tenants, from: string, d: string, to: string)
    requires Inv(ts) && Holds(ts, from, d)
    ensures var ts1 := ts[from := ts[from] - {d}];
      && Inv(ts1) && Without(ts, from, d, ts1)
      && Inv(Move(ts, from, d, to))
  {
    var ts1 := ts[from := ts[from] - {d}];
    assert Without(ts, from, d, ts1);
    WithoutKeepsInv(ts, from, d, ts1);
    PutKeepsInv(ts1, to, d, ts[from][d].(tenantId := to));
  }

  lemma StepKeepsInv(ts: Tenants, op: Op)
    requires Inv(ts) && Enabled(ts, op)
    ensures Inv(Step(ts, op))
  {
    match op
    case HeartbeatFrom(d, now) =>
      var t := ResolveTenant(ts, d);
      PutKeepsInv(ts, t, d, if Holds(ts, t, d) then ts[t][d].(lastHeartbeatAt := now, network := ONLINE)
                            else Discovered(t, d, ResolveProduct(ts, d), now));
    case Process(t, d, product, now) =>
      PutKeepsInv(ts, t, d, if Holds(ts, t, d) then ts[t][d].(lastHeartbeatAt := now, network := ONLINE)
                            else Discovered(t, d, product, now));
    case Report(d, offline) =>
      SetStatusKeepsInv(ts, ResolveTenant(ts, d), d, if offline then OFFLINE else ONLINE, IDLE);
    case RegisterDevice(dev) => PutKeepsInv(ts, dev.tenantId, dev.deviceId, dev);
    case RemoveDevice(t, d) =>
      if Holds(ts, t, d) {
        RemoveIsWithout(ts, t, d);
        WithoutKeepsInv(ts, t, d, Remove(ts, t, d));
      }
    case MigrateDevice(d, to) => if Known(ts, d) { MoveKeepsInv(ts, Owner(ts, d), d, to); }
    case UpdateStatus(t, d, network, work) => SetStatusKeepsInv(ts, t, d, network, work);
  }

  lemma SetStatusKeepsInv(ts: Tenants, t: string, d: string, network: NetworkStatus, work: WorkStatus)
    requires Inv(ts)
    ensures Inv(SetStatus(ts, t, d, network, work))
  {
    if Holds(ts, t, d) {
      PutKeepsInv(ts, t, d, ts[t][d].(network := network, work := work));
    }
  }

  /** A second tenant's copy stays where it was. */
  lemma PutElsewhereBreaks(ts: Tenants, t: string, d: string, dev: Device)
    requires !OnlyUnder(ts, t, d)
    ensures !Inv(Put(ts, t, d, dev))
  {
    var u :| Holds(ts, u, d) && u != t;
    var ts' := Put(ts, t, d, dev);
    assert Holds(ts', t, d) && Holds(ts', u, d);
  }

  /** From a registry with each device in one tenant, a step keeps it so if and only if it is enabled. */
  lemma StepKeepsInvIff(ts: Tenants, op: Op)
    requires Inv(ts)
    ensures Inv(Step(ts, op)) <==> Enabled(ts, op)
  {
    if Enabled(ts, op) {
      StepKeepsInv(ts, op);
    } else if op.Process? {
      PutElsewhereBreaks(ts, op.t, op.d, DevicesOf(Step(ts, op), op.t)[op.d]);
    } else {
      PutElsewhereBreaks(ts, op.dev.tenantId, op.dev.deviceId, op.dev);
    }
  }

  /** Resolving and processing with nothing in between is the routed heartbeat, and is enabled. */
  lemma UninterruptedHeartbeat(ts: Tenants, d: string, now: int)
    requires Inv(ts)
    ensures var op := Process(ResolveTenant(ts, d), d, ResolveProduct(ts, d), now);
      Enabled(ts, op) && Step(ts, op) == Step(ts, HeartbeatFrom(d, now))
  {
  }

  /** A migration between resolving and processing leaves the device under both tenants. */
  lemma InterruptedHeartbeatDuplicates(ts: Tenants, t: string, d: string, to: string, now: int)
    requires Inv(ts) && Holds(ts, t, d) && to != t
    ensures var late := Process(ResolveTenant(ts, d), d, ResolveProduct(ts, d), now);
      var ts' := Step(Step(ts, MigrateDevice(d, to)), late);
      Holds(ts', t, d) && Holds(ts', to, d)
  {
    FindIsOrderIndependent(ts, t, d);
  }

  /** Every run from the empty registry keeps each device in one tenant, filed under its own fields. */
  lemma {:induction false} RunKeepsInv(ts: Tenants, ops: seq<Op>, ts': Tenants)
    requires Inv(ts) && IsRun(ts, ops, ts')
    ensures Inv(ts')
    decreases |ops|
  {
    if ops != [] {
      StepKeepsInv(ts, ops[0]);
      RunKeepsInv(Step(ts, ops[0]), ops[1..], ts');
    }
  }

  /** The registry after any steps, enabled or not. */
  ghost function Final(ts: Tenants, ops: seq<Op>): Tenants
    decreases |ops|
  {
    if ops == [] then ts else Final(Step(ts, ops[0]), ops[1..])
  }

  /** Each device is in one tenant before, between and after the steps. */
  ghost predicate TidyThroughout(ts: Tenants, ops: seq<Op>)
    decreases |ops|
  {
    Inv(ts) && (ops == [] || TidyThroughout(Step(ts, ops[0]), ops[1..]))
  }

  /**
    Whatever the schedule of locked steps, devices stay in one tenant throughout if and only if
    every step is enabled.
   */
  lemma {:induction false} TidyThroughoutIff(ts: Tenants, ops: seq<Op>)
    requires Inv(ts)
    ensures TidyThroughout(ts, ops) <==> IsRun(ts, ops, Final(ts, ops))
    decreases |ops|
  {
    if ops != [] {
      StepKeepsInvIff(ts, ops[0]);
      if Enabled(ts, ops[0]) {
        TidyThroughoutIff(Step(ts, ops[0]), ops[1..]);
      }
    }
  }

  // ---------------------------------------------------------------- refinement of a one-level map

  function DeviceIds(ts: Tenants): set<string> {
    set t, d | t in ts && d in ts[t] :: d
  }

  /** The registry as a map from device id alone. */
  ghost function Flat(ts: Tenants): map<string, Device> {
    map d | d in DeviceIds(ts) && Known(ts, d) :: ts[Owner(ts, d)][d]
  }

  /** The same operations on a map keyed by device id. */
  function FlatStep(m: map<string, Device>, op: Op): map<string, Device> {
    match op
    case HeartbeatFrom(d, now) =>
      m[d := if d in m then m[d].(lastHeartbeatAt := now, network := ONLINE) else Discovered("default", d, "", now)]
    case Process(t, d, product, now) =>
      m[d := if d in m then m[d].(lastHeartbeatAt := now, network := ONLINE) else Discovered(t, d, product, now)]
    case Report(d, offline) =>
      if d in m then m[d := m[d].(network := if offline then OFFLINE else ONLINE, work := IDLE)] else m
    case RegisterDevice(dev) => m[dev.deviceId := dev]
    case RemoveDevice(t, d) => if d in m && m[d].tenantId == t then m - {d} else m
    case MigrateDevice(d, to) => if d in m then m[d := m[d].(tenantId := to)] else m
    case UpdateStatus(t, d, network, work) =>
      if d in m && m[d].tenantId == t then m[d := m[d].(network := network, work := work)] else m
  }

  lemma FlatLookup(ts: Tenants, d: string)
    requires Inv(ts)
    ensures d in Flat(ts) <==> Known(ts, d)
    ensures forall t :: Holds(ts, t, d) ==> Flat(ts)[d] == ts[t][d] && Flat(ts)[d].tenantId == t
  {
    if t :| Holds(ts, t, d) {
      assert d in DeviceIds(ts);
    }
  }

  lemma FlatPut(ts: Tenants, t: string, d: string, dev: Device)
    requires Inv(ts) && Inv(Put(ts, t, d, dev))
    ensures Flat(Put(ts, t, d, dev)) == Flat(ts)[d := dev]
  {
    var ts' := Put(ts, t, d, dev);
    assert Holds(ts', t, d);
    forall e
      ensures e in Flat(ts') <==> e in Flat(ts)[d := dev]
      ensures e in Flat(ts') ==> Flat(ts')[e] == Flat(ts)[d := dev][e]
    {
      FlatLookup(ts, e);
      FlatLookup(ts', e);
      if e != d {
        assert forall u :: Holds(ts', u, e) <==> Holds(ts, u, e);
        assert forall u :: Holds(ts, u, e) ==> ts'[u][e] == ts[u][e];
      }
    }
  }

  lemma FlatDrop(ts: Tenants, ts': Tenants, t: string, d: string)
    requires Inv(ts) && Inv(ts') && Holds(ts, t, d) && Without(ts, t, d, ts')
    ensures Flat(ts') == Flat(ts) - {d}
  {
    forall e
      ensures e in Flat(ts') <==> e in Flat(ts) - {d}
      ensures e in Flat(ts') ==> Flat(ts')[e] == (Flat(ts) - {d})[e]
    {
      FlatLookup(ts, e);
      FlatLookup(ts', e);
      if e == d {
        assert !Known(ts', d);
      } else if Known(ts, e) {
        assert Holds(ts', Owner(ts, e), e);
      }
    }
  }

  lemma FlatMove(ts: Tenants, from: string, d: string, to: string)
    requires Inv(ts) && Holds(ts, from, d)
    ensures Flat(Move(ts, from, d, to)) == Flat(ts)[d := ts[from][d].(tenantId := to)]
  {
    var ts1, dev := ts[from := ts[from] - {d}], ts[from][d].(tenantId := to);
    MoveKeepsInv(ts, from, d, to);
    FlatDrop(ts, ts1, from, d);
    FlatPut(ts1, to, d, dev);
    DropThenPut(Flat(ts), d, dev);
  }

  lemma DropThenPut(m: map<string, Device>, d: string, dev: Device)
    ensures (m - {d})[d := dev] == m[d := dev]
  {
  }

  lemma SetStatusIsPut(ts: Tenants, t: string, d: string, network: NetworkStatus, work: WorkStatus)
    requires Holds(ts, t, d)
    ensures SetStatus(ts, t, d, network, work) == Put(ts, t, d, ts[t][d].(network := network, work := work))
  {
  }

  lemma FlatAt(ts: Tenants, t: string, d: string)
    requires Inv(ts)
    ensures Holds(ts, t, d) <==> d in Flat(ts) && Flat(ts)[d].tenantId == t
    ensures Holds(ts, t, d) ==> Flat(ts)[d] == ts[t][d]
  {
    FlatLookup(ts, d);
  }

  lemma FlatSetStatusHeld(ts: Tenants, t: string, d: string, network: NetworkStatus, work: WorkStatus)
    requires Inv(ts) && Holds(ts, t, d)
    ensures Flat(SetStatus(ts, t, d, network, work)) == Flat(ts)[d := ts[t][d].(network := network, work := work)]
  {
    SetStatusKeepsInv(ts, t, d, network, work);
    SetStatusIsPut(ts, t, d, network, work);
    FlatPut(ts, t, d, ts[t][d].(network := network, work := work));
  }

  lemma FlatStatus(m: map<string, Device>, t: string, d: string, network: NetworkStatus, work: WorkStatus)
    ensures FlatStep(m, UpdateStatus(t, d, network, work)) ==
      if d in m && m[d].tenantId == t then m[d := m[d].(network := network, work := work)] else m
  {
  }

  lemma FlatSetStatus(ts: Tenants, t: string, d: string, network: NetworkStatus, work: WorkStatus)
    requires Inv(ts)
    ensures Flat(SetStatus(ts, t, d, network, work)) == FlatStep(Flat(ts), UpdateStatus(t, d, network, work))
  {
    FlatAt(ts, t, d);
    FlatStatus(Flat(ts), t, d, network, work);
    if Holds(ts, t, d) {
      FlatSetStatusHeld(ts, t, d, network, work);
    } else {
      assert SetStatus(ts, t, d, network, work) == ts;
    }
  }

  lemma FlatHeartbeat(ts: Tenants, d: string, now: int)
    requires Inv(ts)
    ensures Flat(Step(ts, HeartbeatFrom(d, now))) == FlatStep(Flat(ts), HeartbeatFrom(d, now))
  {
    StepKeepsInv(ts, HeartbeatFrom(d, now));
    var t := ResolveTenant(ts, d);
    FlatLookup(ts, d);
    var dev := if Holds(ts, t, d) then ts[t][d].(lastHeartbeatAt := now, network := ONLINE)
               else Discovered(t, d, ResolveProduct(ts, d), now);
    FlatPut(ts, t, d, dev);
  }

  lemma FlatProcess(ts: Tenants, t: string, d: string, product: string, now: int)
    requires Inv(ts) && OnlyUnder(ts, t, d)
    ensures Flat(Heartbeat(ts, t, d, product, now)) == FlatStep(Flat(ts), Process(t, d, product, now))
  {
    StepKeepsInv(ts, Process(t, d, product, now));
    FlatLookup(ts, d);
    var dev := if Holds(ts, t, d) then ts[t][d].(lastHeartbeatAt := now, network := ONLINE)
               else Discovered(t, d, product, now);
    FlatPut(ts, t, d, dev);
  }

  lemma ReportIsUpdate(m: map<string, Device>, t: string, d: string, offline: bool)
    requires d in m ==> m[d].tenantId == t
    ensures FlatStep(m, Report(d, offline)) ==
            FlatStep(m, UpdateStatus(t, d, if offline then OFFLINE else ONLINE, IDLE))
  {
  }

  lemma ResolvedTenant(ts: Tenants, d: string)
    requires Inv(ts)
    ensures d in Flat(ts) ==> Flat(ts)[d].tenantId == ResolveTenant(ts, d)
  {
    FlatLookup(ts, d);
  }

  lemma FlatReport(ts: Tenants, d: string, offline: bool)
    requires Inv(ts)
    ensures Flat(Step(ts, Report(d, offline))) == FlatStep(Flat(ts), Report(d, offline))
  {
    var t := ResolveTenant(ts, d);
    ResolvedTenant(ts, d);
    ReportIsUpdate(Flat(ts), t, d, offline);
    FlatSetStatus(ts, t, d, if offline then OFFLINE else ONLINE, IDLE);
  }

  lemma FlatRemove(ts: Tenants, t: string, d: string)
    requires Inv(ts)
    ensures Flat(Remove(ts, t, d)) == FlatStep(Flat(ts), RemoveDevice(t, d))
  {
    FlatLookup(ts, d);
    if Holds(ts, t, d) {
      RemoveIsWithout(ts, t, d);
      WithoutKeepsInv(ts, t, d, Remove(ts, t, d));
      FlatDrop(ts, Remove(ts, t, d), t, d);
    }
  }

  lemma FlatMigrateFrom(ts: Tenants, t: string, d: string, to: string)
    requires Inv(ts) && Holds(ts, t, d)
    ensures Flat(Move(ts, t, d, to)) == FlatStep(Flat(ts), MigrateDevice(d, to))
  {
    FlatMove(ts, t, d, to);
    FlatAt(ts, t, d);
  }

  lemma FlatMigrate(ts: Tenants, d: string, to: string)
    requires Inv(ts)
    ensures Flat(Step(ts, MigrateDevice(d, to))) == FlatStep(Flat(ts), MigrateDevice(d, to))
  {
    if Known(ts, d) {
      FlatMigrateFrom(ts, Owner(ts, d), d, to);
    } else {
      FlatLookup(ts, d);
    }
  }

  /** Each step on the two-level registry is the same step on the one-level map. */
  lemma StepRefinesFlat(ts: Tenants, op: Op)
    requires Inv(ts) && Enabled(ts, op)
    ensures Flat(Step(ts, op)) == FlatStep(Flat(ts), op)
  {
    match op
    case HeartbeatFrom(d, now) => FlatHeartbeat(ts, d, now);
    case Process(t, d, product, now) => FlatProcess(ts, t, d, product, now);
    case Report(d, offline) => FlatReport(ts, d, offline);
    case RegisterDevice(dev) => StepKeepsInv(ts, op); FlatPut(ts, dev.tenantId, dev.deviceId, dev);
    case RemoveDevice(t, d) => FlatRemove(ts, t, d);
    case MigrateDevice(d, to) => FlatMigrate(ts, d, to);
    case UpdateStatus(t, d, network, work) => FlatSetStatus(ts, t, d, network, work);
  }

  /** Migration loses and gains no device, and changes nothing but that device's tenant. */
  lemma MigrationConserves(ts: Tenants, d: string, to: string)
    requires Inv(ts) && Known(ts, d)
    ensures var m, m' := Flat(ts), Flat(Step(ts, MigrateDevice(d, to)));
      && |m'| == |m| && m'.Keys == m.Keys
      && forall e :: e in m ==> m'[e] == if e == d then m[e].(tenantId := to) else m[e]
  {
    FlatMigrate(ts, d, to);
    FlatLookup(ts, d);
    UpdateKeepsSize(Flat(ts), d, Flat(ts)[d].(tenantId := to));
  }

  lemma UpdateKeepsSize(m: map<string, Device>, d: string, dev: Device)
    requires d in m
    ensures m[d := dev].Keys == m.Keys && |m[d := dev]| == |m|
  {
    assert m[d := dev].Keys == m.Keys;
    assert |m| == |m.Keys| && |m[d := dev]| == |m[d := dev].Keys|;
  }

  // ---------------------------------------------------------------- counting

  type Key = (string, string)

  /** The (tenant, device) pairs of the registry. */
  function Keys(ts: Tenants): set<Key> {
    set t, d | t in ts && d in ts[t] :: (t, d)
  }

  /** Those of tenants not in `rest`. */
  function KeysOutside(ts: Tenants, rest: set<string>): set<Key> {
    set t, d | t in ts && t !in rest && d in ts[t] :: (t, d)
  }

  lemma {:induction false} PairedSize(t: string, ds: set<string>)
    ensures |set d | d in ds :: (t, d)| == |ds|
  {
    if ds != {} {
      var e :| e in ds;
      PairedSize(t, ds - {e});
      assert (set d | d in ds :: (t, d)) == (set d | d in ds - {e} :: (t, d)) + {(t, e)};
    }
  }

  lemma KeysGrow(ts: Tenants, rest: set<string>, t: string)
    requires t in rest && t in ts
    ensures |KeysOutside(ts, rest - {t})| == |KeysOutside(ts, rest)| + |ts[t]|
  {
    var here := set d | d in ts[t].Keys :: (t, d);
    PairedSize(t, ts[t].Keys);
    assert |ts[t].Keys| == |ts[t]|;
    assert KeysOutside(ts, rest - {t}) == KeysOutside(ts, rest) + here;
    assert KeysOutside(ts, rest) !! here;
  }

  function IdsOf(keys: set<Key>): set<string> {
    set k | k in keys :: k.1
  }

  lemma IdIsFlat(ts: Tenants, d: string)
    requires Inv(ts)
    ensures d in Flat(ts) <==> d in IdsOf(Keys(ts))
  {
    FlatLookup(ts, d);
    if t :| Holds(ts, t, d) {
      assert (t, d) in Keys(ts);
    }
    if k :| k in Keys(ts) && k.1 == d {
      assert Holds(ts, k.0, d);
    }
  }

  lemma KeysAreUnique(ts: Tenants, k: Key, l: Key)
    requires Inv(ts) && k in Keys(ts) && l in Keys(ts) && k.1 == l.1
    ensures k == l
  {
    assert Holds(ts, k.0, k.1) && Holds(ts, l.0, l.1);
  }

  /** Pairs of a registry with each device in one tenant are as many as their device ids. */
  lemma {:induction false} IdsOfKeys(ts: Tenants, keys: set<Key>)
    requires Inv(ts) && keys <= Keys(ts)
    ensures |IdsOf(keys)| == |keys|
  {
    if keys != {} {
      var e :| e in keys;
      var rest := keys - {e};
      IdsOfKeys(ts, rest);
      if e.1 in IdsOf(rest) {
        var k :| k in rest && k.1 == e.1;
        KeysAreUnique(ts, k, e);
      }
      assert IdsOf(keys) == IdsOf(rest) + {e.1};
    }
  }

  /** With each device in one tenant, the pairs are as many as the devices. */
  lemma KeysOfFlat(ts: Tenants)
    requires Inv(ts)
    ensures |Keys(ts)| == |Flat(ts)|
  {
    IdsOfKeys(ts, Keys(ts));
    forall d
      ensures d in Flat(ts).Keys <==> d in IdsOf(Keys(ts))
    {
      IdIsFlat(ts, d);
    }
    assert Flat(ts).Keys == IdsOf(Keys(ts));
  }
}

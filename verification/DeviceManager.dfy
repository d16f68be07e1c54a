/** DeviceManager and the message router's device handlers, updating the nested map in place. */
module DeviceManagers {
  import opened Common
  import opened Devices
  import opened OfflineSweep

  const HEARTBEAT_TIMEOUT: int := 180

  class DeviceManager {
    var tenants: Tenants

    constructor ()
      ensures tenants == map[] && Inv(tenants)
    {
      tenants := map[];
    }

    method ProcessHeartbeat(t: string, d: string, product: string, now: int)
      modifies this
      ensures tenants == Heartbeat(old(tenants), t, d, product, now)
    {
      var devices := if t in tenants then tenants[t] else map[];
      if d !in devices {
        devices := devices[d := Discovered(t, d, product, now)];
      } else {
        devices := devices[d := devices[d].(lastHeartbeatAt := now, network := ONLINE)];
      }
      tenants := tenants[t := devices];
    }

    method RegisterDevice(dev: Device)
      modifies this
      ensures tenants == Register(old(tenants), dev)
    {
      var devices := if dev.tenantId in tenants then tenants[dev.tenantId] else map[];
      tenants := tenants[dev.tenantId := devices[dev.deviceId := dev]];
    }

    method RemoveDevice(t: string, d: string) returns (status: StatusCode)
      modifies this
      ensures status == if Holds(old(tenants), t, d) then OK else DEV_NOT_ACTIVATED
      ensures tenants == Remove(old(tenants), t, d)
    {
      if t !in tenants || d !in tenants[t] {
        return DEV_NOT_ACTIVATED;
      }
      tenants := tenants[t := tenants[t] - {d}];
      if tenants[t] == map[] {
        tenants := tenants - {t};
      }
      return OK;
    }

    method UpdateDeviceStatus(t: string, d: string, network: NetworkStatus, work: WorkStatus)
      returns (status: StatusCode)
      modifies this
      ensures status == if Holds(old(tenants), t, d) then OK else DEV_NOT_ACTIVATED
      ensures tenants == SetStatus(old(tenants), t, d, network, work)
    {
      if t !in tenants || d !in tenants[t] {
        return DEV_NOT_ACTIVATED;
      }
      var dev := tenants[t][d].(network := network, work := work);
      tenants := tenants[t := tenants[t][d := dev]];
      return OK;
    }

    /** Visits the tenants in an arbitrary order, as an unordered_map does. */
    method FindTenantOf(d: string) returns (t: Option<string>)
      ensures t.Some? <==> Known(tenants, d)
      ensures t.Some? ==> Holds(tenants, t.value, d)
    {
      var rest := tenants.Keys;
      while rest != {}
        invariant rest <= tenants.Keys
        invariant forall u :: u in tenants && u !in rest ==> d !in tenants[u]
        decreases rest
      {
        var tid :| tid in rest;
        if d in tenants[tid] {
          assert Holds(tenants, tid, d);
          return Some(tid);
        }
        rest := rest - {tid};
      }
      return None;
    }

    method FindDeviceById(d: string) returns (dev: Option<Device>)
      ensures dev.Some? <==> Known(tenants, d)
      ensures dev.Some? ==> exists t :: Holds(tenants, t, d) && dev.value == tenants[t][d]
      ensures Inv(tenants) ==> dev == Find(tenants, d)
    {
      var t := FindTenantOf(d);
      if t.Some? {
        return Some(tenants[t.value][d]);
      }
      return None;
    }

    method MigrateDevice(d: string, newTenant: string) returns (status: StatusCode)
      modifies this
      ensures status == if Known(old(tenants), d) then OK else DEV_NOT_ACTIVATED
      ensures status != OK ==> tenants == old(tenants)
      ensures status == OK ==>
        exists from :: Holds(old(tenants), from, d) && tenants == Move(old(tenants), from, d, newTenant)
      ensures Inv(old(tenants)) ==> tenants == Step(old(tenants), Op.MigrateDevice(d, newTenant))
    {
      var t := FindTenantOf(d);
      if t.None? {
        return DEV_NOT_ACTIVATED;
      }
      var from := t.value;
      var dev := tenants[from][d];
      tenants := tenants[from := tenants[from] - {d}];
      dev := dev.(tenantId := newTenant);
      var devices := if newTenant in tenants then tenants[newTenant] else map[];
      tenants := tenants[newTenant := devices[d := dev]];
      return OK;
    }

    // -------------------------------------------------------------- router

    /** handle_heartbeat: resolve by device id, then process. An id under two tenants resolves to either. */
    method RouteHeartbeat(d: string, now: int)
      modifies this
      ensures !Known(old(tenants), d) ==> tenants == Heartbeat(old(tenants), "default", d, "", now)
      ensures Known(old(tenants), d) ==> exists t ::
        && Holds(old(tenants), t, d)
        && var dev := old(tenants)[t][d];
        && tenants == Heartbeat(old(tenants), dev.tenantId, d, dev.productId, now)
      ensures Inv(old(tenants)) ==> tenants == Step(old(tenants), HeartbeatFrom(d, now))
    {
      var dev := FindDeviceById(d);
      if dev.Some? {
        ProcessHeartbeat(dev.value.tenantId, d, dev.value.productId, now);
      } else {
        ProcessHeartbeat("default", d, "", now);
      }
    }

    /** handle_status: an unknown device falls back to "default" and changes nothing. */
    method RouteStatus(d: string, offline: bool)
      modifies this
      ensures !Known(old(tenants), d) ==> tenants == old(tenants)
      ensures Known(old(tenants), d) ==> exists t ::
        && Holds(old(tenants), t, d)
        && tenants == SetStatus(old(tenants), old(tenants)[t][d].tenantId, d, if offline then OFFLINE else ONLINE, IDLE)
      ensures Inv(old(tenants)) ==> tenants == Step(old(tenants), Report(d, offline))
    {
      var dev := FindDeviceById(d);
      var t := if dev.Some? then dev.value.tenantId else "default";
      var _ := UpdateDeviceStatus(t, d, if offline then OFFLINE else ONLINE, IDLE);
    }

    // -------------------------------------------------------------- sweep

    method ListOfflineOf(t: string, now: int, timeout: int) returns (result: seq<Device>)
      requires t in tenants && Filed(tenants)
      ensures FromSnapshot(result, tenants, now, timeout)
      ensures forall d :: StaleAt(tenants, t, d, now, timeout) ==> Listed(result, t, d)
      ensures ListedOnce(result) && forall i :: 0 <= i < |result| ==> result[i].tenantId == t
    {
      result := [];
      var rest := tenants[t].Keys;
      while rest != {}
        invariant rest <= tenants[t].Keys
        invariant FromSnapshot(result, tenants, now, timeout)
        invariant forall d :: StaleAt(tenants, t, d, now, timeout) && d !in rest ==> Listed(result, t, d)
        invariant ListedOnce(result)
        invariant forall i :: 0 <= i < |result| ==> result[i].tenantId == t && result[i].deviceId !in rest
        decreases rest
      {
        var did :| did in rest;
        var dev := tenants[t][did];
        assert Holds(tenants, t, did);
        ghost var before := result;
        if now - dev.lastHeartbeatAt > timeout {
          result := result + [dev];
          assert result[|before|] == dev;
        }
        ListedGrows(before, result, t);
        rest := rest - {did};
      }
    }

    lemma ListedGrows(s: seq<Device>, s': seq<Device>, t: string)
      requires s <= s'
      ensures forall d :: Listed(s, t, d) ==> Listed(s', t, d)
    {
      forall d | Listed(s, t, d)
        ensures Listed(s', t, d)
      {
        var i :| 0 <= i < |s| && s[i].tenantId == t && s[i].deviceId == d;
        assert s'[i] == s[i];
      }
    }

    method ListOfflineDevices(now: int, timeout: int) returns (result: seq<Device>)
      requires Filed(tenants)
      ensures IsSnapshot(tenants, now, timeout, result) && ListedOnce(result)
    {
      result := [];
      var rest := tenants.Keys;
      while rest != {}
        invariant rest <= tenants.Keys
        invariant FromSnapshot(result, tenants, now, timeout)
        invariant forall t, d :: StaleAt(tenants, t, d, now, timeout) && t !in rest ==> Listed(result, t, d)
        invariant ListedOnce(result)
        invariant forall i :: 0 <= i < |result| ==> result[i].tenantId !in rest
        decreases rest
      {
        var tid :| tid in rest;
        var more := ListOfflineOf(tid, now, timeout);
        JoinSnapshots(tenants, result, more, tid, now, timeout);
        result := result + more;
        rest := rest - {tid};
      }
    }

    lemma JoinSnapshots(ts: Tenants, a: seq<Device>, b: seq<Device>, t: string, now: int, timeout: int)
      requires FromSnapshot(a, ts, now, timeout) && FromSnapshot(b, ts, now, timeout)
      ensures FromSnapshot(a + b, ts, now, timeout)
      ensures forall u, d :: Listed(a, u, d) || Listed(b, u, d) ==> Listed(a + b, u, d)
    {
      forall u, d | Listed(a, u, d) || Listed(b, u, d)
        ensures Listed(a + b, u, d)
      {
        if i :| 0 <= i < |a| && a[i].tenantId == u && a[i].deviceId == d {
          assert (a + b)[i] == a[i];
        }
        if i :| 0 <= i < |b| && b[i].tenantId == u && b[i].deviceId == d {
          assert (a + b)[|a| + i] == b[i];
        }
      }
    }

    /** check_offline_devices run without interruption. */
    method CheckOfflineDevices(now: int)
      requires Filed(tenants)
      modifies this
      ensures Swept(old(tenants), now, 180, tenants)
    {
      var offline := ListOfflineDevices(now, HEARTBEAT_TIMEOUT);
      ghost var ts0 := tenants;
      for i := 0 to |offline|
        invariant MarkAll(tenants, offline[i..]) == MarkAll(ts0, offline)
      {
        assert offline[i..][1..] == offline[i + 1..];
        var _ := UpdateDeviceStatus(offline[i].tenantId, offline[i].deviceId, OFFLINE, offline[i].work);
      }
      SweepIsExact(ts0, now, HEARTBEAT_TIMEOUT, offline);
    }

    // -------------------------------------------------------------- counts

    method TotalDeviceCount() returns (count: nat)
      ensures count == |Keys(tenants)|
      ensures Inv(tenants) ==> count == |Flat(tenants)|
    {
      count := 0;
      var rest := tenants.Keys;
      ghost var seen := {};
      while rest != {}
        invariant rest <= tenants.Keys
        invariant count == |seen|
        invariant seen == KeysOutside(tenants, rest)
        decreases rest
      {
        var tid :| tid in rest;
        count := count + |tenants[tid]|;
        KeysGrow(tenants, rest, tid);
        seen := KeysOutside(tenants, rest - {tid});
        rest := rest - {tid};
      }
      assert seen == Keys(tenants);
      if Inv(tenants) {
        KeysOfFlat(tenants);
      }
    }
  }
}

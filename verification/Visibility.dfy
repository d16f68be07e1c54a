/** The device status query: which devices an account sees, and when those are the ones of its own organization. */
module Visibility {
  import opened Common
  import opened OrgForest
  import opened OrgRuns
  import opened OrgQueries
  import opened OrgManagers
  import Devices
  import V = Accounts
  import A = AccountRuns
  import opened Decimal
  import opened AccountManagers

  type Device = Devices.Device

  function VisibleTenants(orgs: seq<OrgInfo>, scope: seq<int>): set<string> {
    set i | 0 <= i < |scope| && Exists(orgs, scope[i]) :: orgs[IndexOf(orgs, scope[i])].tenantId
  }

  function WithTenantIn(devices: seq<Device>, visible: set<string>): (r: seq<Device>)
    ensures forall dev :: dev in r <==> dev in devices && dev.tenantId in visible
  {
    if devices == [] then []
    else
      var last, rest := devices[|devices| - 1], WithTenantIn(devices[..|devices| - 1], visible);
      assert devices == devices[..|devices| - 1] + [last];
      if last.tenantId in visible then rest + [last] else rest
  }

  lemma {:induction false} FilterLast(a: seq<Device>, dev: Device, visible: set<string>)
    ensures WithTenantIn(a + [dev], visible) ==
            WithTenantIn(a, visible) + (if dev.tenantId in visible then [dev] else [])
  {
    assert (a + [dev])[..|a|] == a;
  }

  lemma Regroup(a: seq<Device>, b: seq<Device>, c: seq<Device>)
    ensures a + b + c == a + (b + c)
  {
  }

  /** The filter keeps order and multiplicity: it works list part by list part, one device at a time. */
  lemma {:induction false} FilterSplits(a: seq<Device>, b: seq<Device>, visible: set<string>)
    ensures WithTenantIn(a + b, visible) == WithTenantIn(a, visible) + WithTenantIn(b, visible)
    decreases |b|
  {
    if b == [] {
      assert a + b == a;
    } else {
      var n := |b| - 1;
      var front, last := b[..n], b[n];
      var kept := if last.tenantId in visible then [last] else [];
      FilterSplits(a, front, visible);
      FilterLast(a + front, last, visible);
      FilterLast(front, last, visible);
      Regroup(a, front, [last]);
      Regroup(WithTenantIn(a, visible), WithTenantIn(front, visible), kept);
      assert front + [last] == b;
    }
  }

  /** The caller's role and scope, when a valid token came with the request. */
  datatype Caller = Caller(role: string, scope: seq<int>)

  /** Without a caller and for a super_admin everything, otherwise the devices of the tenants in scope. */
  function ShownTo(orgs: seq<OrgInfo>, caller: Option<Caller>, devices: seq<Device>): seq<Device> {
    if caller.None? || caller.value.role == "super_admin" then devices
    else WithTenantIn(devices, VisibleTenants(orgs, caller.value.scope))
  }

  /** A rejected token makes no caller, just as a missing one. */
  function CallerOf(verdict: V.Verdict): Option<Caller> {
    if verdict.Accepted? then Some(Caller(verdict.payload.roleCode, verdict.payload.orgScope)) else None
  }

  /** The handler's filter. */
  method FilterDevices(mgr: OrgManager, caller: Option<Caller>, devices: seq<Device>) returns (shown: seq<Device>)
    ensures shown == ShownTo(mgr.orgs, caller, devices)
  {
    if caller.None? || caller.value.role == "super_admin" {
      return devices;
    }
    var scope := caller.value.scope;
    var visible := {};
    for i := 0 to |scope|
      invariant visible == VisibleTenants(mgr.orgs, scope[..i])
    {
      VisibleGrows(mgr.orgs, scope, i);
      var k := mgr.FindIndex(scope[i]);
      if k < |mgr.orgs| {
        visible := visible + {mgr.orgs[k].tenantId};
      }
    }
    assert scope[..|scope|] == scope;
    shown := [];
    for i := 0 to |devices|
      invariant shown == WithTenantIn(devices[..i], visible)
    {
      assert devices[..i + 1][..i] == devices[..i];
      if devices[i].tenantId in visible {
        shown := shown + [devices[i]];
      }
    }
    assert devices[..|devices|] == devices;
  }

  lemma VisibleGrows(orgs: seq<OrgInfo>, scope: seq<int>, i: nat)
    requires i < |scope|
    ensures VisibleTenants(orgs, scope[..i + 1]) == VisibleTenants(orgs, scope[..i])
              + (if Exists(orgs, scope[i]) then {orgs[IndexOf(orgs, scope[i])].tenantId} else {})
  {
    var s, s' := scope[..i], scope[..i + 1];
    forall t
      ensures t in VisibleTenants(orgs, s') <==>
        (t in VisibleTenants(orgs, s) || (Exists(orgs, scope[i]) && t == orgs[IndexOf(orgs, scope[i])].tenantId))
    {
      assert forall j :: 0 <= j < i ==> s[j] == s'[j];
      assert s'[i] == scope[i];
    }
  }

  /** Each tenant belongs to at most one live organization. */
  lemma OneOwner(ops: seq<Op>, w: World, o: OrgInfo, x: OrgInfo)
    requires IsRun(Init(), ops, w) && o in w.store.orgs && x in w.store.orgs && o.tenantId == x.tenantId
    ensures o == x
  {
    RunKeepsInv(Init(), ops, w);
  }

  /**
    In every reachable world, the scope of organization id `home` shows a tenant exactly when the
    organization owning it is live and has that id or was created below the one that has.
   */
  lemma SeesExactlyItsSubtree(ops: seq<Op>, w: World, home: int, tenant: string)
    requires IsRun(Init(), ops, w)
    ensures tenant in VisibleTenants(w.store.orgs, Scope(w.store.orgs, home)) <==>
      exists o :: o in w.store.orgs && o.tenantId == tenant && (o.orgId == home || Governs(w, home, o.orgId))
  {
    RunKeepsInv(Init(), ops, w);
    if tenant in VisibleTenants(w.store.orgs, Scope(w.store.orgs, home)) {
      var o := VisibleOwner(w, home, tenant);
    }
    if o :| o in w.store.orgs && o.tenantId == tenant && (o.orgId == home || Governs(w, home, o.orgId)) {
      OwnerIsVisible(w, home, o);
    }
  }

  lemma VisibleOwner(w: World, home: int, tenant: string) returns (o: OrgInfo)
    requires Inv(w) && tenant in VisibleTenants(w.store.orgs, Scope(w.store.orgs, home))
    ensures o in w.store.orgs && o.tenantId == tenant && (o.orgId == home || Governs(w, home, o.orgId))
  {
    var orgs, scope := w.store.orgs, Scope(w.store.orgs, home);
    var i :| 0 <= i < |scope| && Exists(orgs, scope[i]) && orgs[IndexOf(orgs, scope[i])].tenantId == tenant;
    o := orgs[IndexOf(orgs, scope[i])];
    assert scope[i] in scope;
    ScopeMembers(w, home, scope[i]);
  }

  lemma OwnerIsVisible(w: World, home: int, o: OrgInfo)
    requires Inv(w) && o in w.store.orgs && (o.orgId == home || Governs(w, home, o.orgId))
    ensures o.tenantId in VisibleTenants(w.store.orgs, Scope(w.store.orgs, home))
  {
    var scope := Scope(w.store.orgs, home);
    ScopeMembers(w, home, o.orgId);
    var i :| 0 <= i < |scope| && scope[i] == o.orgId;
    LiveIndex(w.store.orgs, o);
  }

  // ---------------------------------------------------------------- an organization and not just its id

  /** The live organization o is the one born as `home` or was created below it. */
  ghost predicate AtOrBelow(w: World, home: Birth, o: OrgInfo) {
    && o in w.store.orgs && o.orgId in w.born
    && (w.born[o.orgId] == home || StrictAncestor(home, w.born[o.orgId]))
  }

  /** The tenants of the live organizations born at or below `home`, exactly. */
  ghost predicate ShowsSubtree(w: World, home: Birth) {
    forall tenant ::
      tenant in VisibleTenants(w.store.orgs, Scope(w.store.orgs, home.id)) <==>
      exists o :: AtOrBelow(w, home, o) && o.tenantId == tenant
  }

  /** The birth has not been deleted; another one under its id does not count. */
  ghost predicate Lives(w: World, b: Birth) {
    Exists(w.store.orgs, b.id) && b.id in w.born && w.born[b.id] == b
  }

  /** Every organization ever created below has been deleted too. */
  ghost predicate NothingBelow(w: World, home: Birth) {
    forall b :: b in w.births && StrictAncestor(home, b) ==> !Lives(w, b)
  }

  /** The home is live, or it was deleted with everything created below it and its id is not in use again. */
  ghost predicate HomeStands(w: World, home: Birth) {
    Lives(w, home) || (!Exists(w.store.orgs, home.id) && NothingBelow(w, home))
  }

  lemma LiveOrg(w: World, o: OrgInfo)
    requires Inv(w) && o in w.store.orgs
    ensures o.orgId in w.born
    ensures var b := w.born[o.orgId]; b in w.births && b.id == o.orgId && Lives(w, b)
  {
    assert Tracked(o, w.born);
    LiveIndex(w.store.orgs, o);
  }

  lemma NothingBelowMeans(w: World, home: Birth)
    requires Inv(w)
    ensures NothingBelow(w, home) <==>
      forall o :: o in w.store.orgs && o.orgId in w.born ==> !StrictAncestor(home, w.born[o.orgId])
  {
    if NothingBelow(w, home) {
      forall o | o in w.store.orgs
        ensures o.orgId in w.born && !StrictAncestor(home, w.born[o.orgId])
      {
        LiveOrg(w, o);
      }
    } else {
      var b :| b in w.births && StrictAncestor(home, b) && Lives(w, b);
      var o := w.store.orgs[IndexOf(w.store.orgs, b.id)];
      assert o in w.store.orgs && w.born[o.orgId] == b;
    }
  }

  lemma LiveHomeShows(ops: seq<Op>, w: World, home: Birth, tenant: string)
    requires IsRun(Init(), ops, w) && HomeStands(w, home)
    ensures tenant in VisibleTenants(w.store.orgs, Scope(w.store.orgs, home.id)) <==>
      exists o :: AtOrBelow(w, home, o) && o.tenantId == tenant
  {
    RunKeepsInv(Init(), ops, w);
    SeesExactlyItsSubtree(ops, w, home.id, tenant);
    NothingBelowMeans(w, home);
    forall o | o in w.store.orgs
      ensures o.orgId == home.id || Governs(w, home.id, o.orgId) <==> AtOrBelow(w, home, o)
    {
      LiveOrg(w, o);
    }
  }

  /** Under a reissued id the scope shows a tenant that is not of the subtree. */
  lemma ReissuedHomeMisleads(ops: seq<Op>, w: World, home: Birth)
    requires IsRun(Init(), ops, w) && ShowsSubtree(w, home) && Exists(w.store.orgs, home.id)
    ensures Lives(w, home)
  {
    RunKeepsInv(Init(), ops, w);
    var x := w.store.orgs[IndexOf(w.store.orgs, home.id)];
    LiveOrg(w, x);
    SeesExactlyItsSubtree(ops, w, home.id, x.tenantId);
    var o :| AtOrBelow(w, home, o) && o.tenantId == x.tenantId;
    OneOwner(ops, w, o, x);
    assert Tracked(x, w.born);
    if StrictAncestor(home, w.born[x.orgId]) {
      AncestorsAreOlder(home, w.born[x.orgId]);
    }
  }

  lemma UnusedIdHides(ops: seq<Op>, w: World, id: int, tenant: string)
    requires IsRun(Init(), ops, w) && !Exists(w.store.orgs, id)
    ensures tenant !in VisibleTenants(w.store.orgs, Scope(w.store.orgs, id))
  {
    SeesExactlyItsSubtree(ops, w, id, tenant);
    forall o | o in w.store.orgs
      ensures o.orgId != id && !Governs(w, id, o.orgId)
    {
      RunKeepsInv(Init(), ops, w);
      LiveIndex(w.store.orgs, o);
    }
  }

  lemma NobodyBelow(w: World, home: Birth)
    requires Inv(w) && forall o :: !AtOrBelow(w, home, o)
    ensures NothingBelow(w, home)
  {
    forall o | o in w.store.orgs && o.orgId in w.born
      ensures !StrictAncestor(home, w.born[o.orgId])
    {
      assert !AtOrBelow(w, home, o);
    }
    NothingBelowMeans(w, home);
  }

  lemma ShownIfBelow(w: World, home: Birth, o: OrgInfo)
    requires ShowsSubtree(w, home) && AtOrBelow(w, home, o)
    ensures o.tenantId in VisibleTenants(w.store.orgs, Scope(w.store.orgs, home.id))
  {
  }

  /** Without its id in use the scope shows nothing, whatever is left below. */
  lemma DeletedHomeMisleads(ops: seq<Op>, w: World, home: Birth)
    requires IsRun(Init(), ops, w) && ShowsSubtree(w, home) && !Exists(w.store.orgs, home.id)
    ensures NothingBelow(w, home)
  {
    forall o
      ensures !AtOrBelow(w, home, o)
    {
      UnusedIdHides(ops, w, home.id, o.tenantId);
      if AtOrBelow(w, home, o) {
        ShownIfBelow(w, home, o);
      }
    }
    RunKeepsInv(Init(), ops, w);
    NobodyBelow(w, home);
  }

  /**
    The filter shows the subtree of an organization, and not just of its id, if and only if the
    organization stands.
   */
  lemma ShowsSubtreeIff(ops: seq<Op>, w: World, home: Birth)
    requires IsRun(Init(), ops, w)
    ensures ShowsSubtree(w, home) <==> HomeStands(w, home)
  {
    if HomeStands(w, home) {
      forall tenant
        ensures tenant in VisibleTenants(w.store.orgs, Scope(w.store.orgs, home.id)) <==>
                exists o :: AtOrBelow(w, home, o) && o.tenantId == tenant
      {
        LiveHomeShows(ops, w, home, tenant);
      }
    } else if ShowsSubtree(w, home) {
      if Exists(w.store.orgs, home.id) {
        ReissuedHomeMisleads(ops, w, home);
      } else {
        DeletedHomeMisleads(ops, w, home);
      }
    }
  }

  lemma NoDescendantsIff(w: World, x: OrgInfo)
    requires Inv(w) && x in w.store.orgs
    ensures x.orgId in w.born
    ensures Descendants(w.store.orgs, x.orgId) == [] <==> NothingBelow(w, w.born[x.orgId])
  {
    var d := Descendants(w.store.orgs, x.orgId);
    LiveOrg(w, x);
    LiveIndex(w.store.orgs, x);
    NothingBelowMeans(w, w.born[x.orgId]);
    forall o | o in w.store.orgs
      ensures o.orgId in w.born && (o in d <==> StrictAncestor(w.born[x.orgId], w.born[o.orgId]))
    {
      LiveOrg(w, o);
      DescendantIffGoverned(w, x.orgId, o);
    }
    if d != [] {
      assert d[0] in d && d[0] in w.store.orgs;
    }
  }

  lemma DeleteTakesOne(w: World, x: OrgInfo)
    requires Inv(w) && x in w.store.orgs && DeleteStatus(w.store.orgs, x.orgId) == OK
    ensures var w' := Step(w, Delete(x.orgId));
      && w'.born == w.born && w'.births == w.births
      && (forall o :: o in w'.store.orgs <==> o in w.store.orgs && o.orgId != x.orgId)
  {
    var i := IndexOf(w.store.orgs, x.orgId);
    DeleteIsRemoval(w.store, x.orgId, i);
    RemovalStandsFor(w.store.orgs, i);
  }

  lemma NoneWithId(orgs: seq<OrgInfo>, id: int)
    requires forall o :: o in orgs ==> o.orgId != id
    ensures !Exists(orgs, id)
  {
  }

  /** Without x itself, which is not below itself, the same organizations are below x. */
  lemma SameBelow(w: World, w': World, x: OrgInfo)
    requires Inv(w) && Inv(w') && x in w.store.orgs && w'.born == w.born && w'.births == w.births
    requires forall o :: o in w'.store.orgs <==> o in w.store.orgs && o.orgId != x.orgId
    ensures x.orgId in w.born
    ensures NothingBelow(w', w.born[x.orgId]) <==> NothingBelow(w, w.born[x.orgId])
  {
    NotBelowItself(w, x);
    NothingBelowMeans(w, w.born[x.orgId]);
    NothingBelowMeans(w', w.born[x.orgId]);
  }

  lemma DeleteKeepsBelow(w: World, x: OrgInfo)
    requires Inv(w) && x in w.store.orgs && DeleteStatus(w.store.orgs, x.orgId) == OK
    ensures var w' := Step(w, Delete(x.orgId));
      && x.orgId in w.born && !Exists(w'.store.orgs, x.orgId)
      && (NothingBelow(w', w.born[x.orgId]) <==> NothingBelow(w, w.born[x.orgId]))
  {
    var w' := Step(w, Delete(x.orgId));
    DeleteKeepsInv(w, x.orgId);
    DeleteTakesOne(w, x);
    NoneWithId(w'.store.orgs, x.orgId);
    SameBelow(w, w', x);
  }

  lemma NotBelowItself(w: World, o: OrgInfo)
    requires Inv(w) && o in w.store.orgs
    ensures o.orgId in w.born && !StrictAncestor(w.born[o.orgId], w.born[o.orgId])
  {
    assert Tracked(o, w.born);
    if StrictAncestor(w.born[o.orgId], w.born[o.orgId]) {
      AncestorsAreOlder(w.born[o.orgId], w.born[o.orgId]);
    }
  }

  /** A delete leaves its organization standing, in this sense, if and only if it had no descendants, active or not. */
  lemma DeleteLeavesStandingIff(ops: seq<Op>, w: World, x: OrgInfo)
    requires IsRun(Init(), ops, w) && x in w.store.orgs && DeleteStatus(w.store.orgs, x.orgId) == OK
    ensures x.orgId in w.born
    ensures HomeStands(Step(w, Delete(x.orgId)), w.born[x.orgId]) <==> Descendants(w.store.orgs, x.orgId) == []
  {
    RunKeepsInv(Init(), ops, w);
    LiveOrg(w, x);
    DeleteKeepsBelow(w, x);
    NoDescendantsIff(w, x);
  }

  // ---------------------------------------------------------------- from login to the device list

  /** The device status query for a request's token, empty if there is none; None when verification throws. */
  method QueryDevices(mgr: AccountManager, token: string, now: int, devices: seq<Device>)
    returns (shown: Option<seq<Device>>)
    ensures var verdict := V.VerifyToken(mgr.Store(), mgr.orgMgr.orgs, token, now);
      && (shown.None? <==> token != "" && verdict.Throws?)
      && var caller := if token == "" then None else CallerOf(verdict);
      && (shown.Some? ==> shown.value == ShownTo(mgr.orgMgr.orgs, caller, devices))
  {
    var caller := None;
    if token != "" {
      var verdict := mgr.Verify(token, now);
      if verdict.Throws? {
        return None;
      }
      caller := CallerOf(verdict);
    }
    var some := FilterDevices(mgr.orgMgr, caller, devices);
    return Some(some);
  }

  /** The organization steps of a run of the whole portal. */
  function OrgOps(ops: seq<A.Op>): seq<Op> {
    if ops == [] then [] else OrgPart(ops[0]) + OrgOps(ops[1..])
  }

  function OrgPart(op: A.Op): seq<Op> {
    match op
    case Org(o) => [o]
    case Restart(orgListing, _) => [Restart(orgListing)]
    case _ => []
  }

  lemma OrgRunCons(w: World, op: Op, ops: seq<Op>, w': World)
    requires Enabled(w, op) && IsRun(Step(w, op), ops, w')
    ensures IsRun(w, [op] + ops, w')
  {
    assert ([op] + ops)[1..] == ops;
  }

  /** A step of the portal is its part on the organizations. */
  lemma PortalStepsOrgs(p: A.Portal, op: A.Op, ops: seq<Op>, w': World)
    requires A.Enabled(p, op) && IsRun(A.Step(p, op).orgs, ops, w')
    ensures IsRun(p.orgs, OrgPart(op) + ops, w')
  {
    if op.Org? {
      OrgRunCons(p.orgs, op.op, ops, w');
    } else if op.Restart? {
      OrgRunCons(p.orgs, Restart(op.orgListing), ops, w');
    } else {
      assert OrgPart(op) + ops == ops;
    }
  }

  lemma {:induction false} PortalRunsOrgs(p: A.Portal, ops: seq<A.Op>, p': A.Portal)
    requires A.IsRun(p, ops, p')
    ensures IsRun(p.orgs, OrgOps(ops), p'.orgs)
    decreases |ops|
  {
    if ops != [] {
      A.RunUncons(p, ops, p');
      PortalRunsOrgs(A.Step(p, ops[0]), ops[1..], p');
      PortalStepsOrgs(p, ops[0], OrgOps(ops[1..]), p'.orgs);
    }
  }

  lemma PayloadOf(s: V.AccountStore, orgs: seq<OrgInfo>, token: string, now: int)
    requires V.VerifyToken(s, orgs, token, now).Accepted?
    ensures var payload := V.VerifyToken(s, orgs, token, now).payload;
      && payload.orgScope == Scope(orgs, payload.orgId)
      && exists i :: 0 <= i < |s.accounts| &&
           s.accounts[i].accountId == payload.accountId && s.accounts[i].orgId == payload.orgId
  {
  }

  /**
    The scope in the payload of a token that verifies, after any run of both managers with
    restarts, is that of the organization the account was created in, and shows exactly the tenants of
    the live organizations at or below it if and only if that organization still stands.
   */
  lemma TokenHolderSeesItsSubtree(ops: seq<A.Op>, p: A.Portal, token: string, now: int)
    requires A.IsRun(A.Init(), ops, p)
    requires V.VerifyToken(p.accts, p.orgs.store.orgs, token, now).Accepted?
    ensures var payload, w := V.VerifyToken(p.accts, p.orgs.store.orgs, token, now).payload, p.orgs;
      && payload.accountId in p.homes
      && var home := p.homes[payload.accountId];
      && payload.orgId == home.id && payload.orgScope == Scope(w.store.orgs, home.id)
      && (ShowsSubtree(w, home) <==> HomeStands(w, home))
  {
    A.InitInv();
    A.RunKeepsInv(A.Init(), ops, p);
    PortalRunsOrgs(A.Init(), ops, p);
    PayloadOf(p.accts, p.orgs.store.orgs, token, now);
    var payload := V.VerifyToken(p.accts, p.orgs.store.orgs, token, now).payload;
    ShowsSubtreeIff(OrgOps(ops), p.orgs, p.homes[payload.accountId]);
  }

  /** What the query shows on a token that is not empty and does not throw. */
  function Shown(p: A.Portal, token: string, now: int, devices: seq<Device>): seq<Device> {
    ShownTo(p.orgs.store.orgs, CallerOf(V.VerifyToken(p.accts, p.orgs.store.orgs, token, now)), devices)
  }

  /** Exactly the listed devices of the tenants at or below the home. */
  ghost predicate OnlySubtree(w: World, home: Birth, devices: seq<Device>, shown: seq<Device>) {
    forall dev :: dev in shown <==>
      dev in devices && exists o :: AtOrBelow(w, home, o) && o.tenantId == dev.tenantId
  }

  /** The token restricts what its holder sees: it verifies, and not for a super_admin. */
  predicate Restricts(history: seq<A.Op>, a: V.AccountInfo, exp: int, t: int) {
    && t <= exp && a.isActive && a.roleCode != "super_admin"
    && !A.LoggedOutSinceRestart(history, V.Token(a.accountId, exp))
  }

  lemma AccountIsHoused(ops: seq<A.Op>, p: A.Portal, i: nat)
    requires A.IsRun(A.Init(), ops, p) && i < |p.accts.accounts|
    ensures var a := p.accts.accounts[i]; a.accountId in p.homes && p.homes[a.accountId].id == a.orgId
    ensures IsRun(Init(), OrgOps(ops), p.orgs)
  {
    A.InitInv();
    A.RunKeepsInv(A.Init(), ops, p);
    PortalRunsOrgs(A.Init(), ops, p);
  }

  /**
    From login to the device list, over every run of both managers with restarts. A token issued
    to an account shows its holder exactly the devices of the live organizations at or below the one
    the account was created in, if it restricts and that organization stands. A token that has
    expired, was logged out or belongs to a deactivated account shows every device there is.
   */
  lemma HolderIsShown(ops: seq<A.Op>, p: A.Portal, i: nat, exp: int, t: int, devices: seq<Device>)
    requires A.IsRun(A.Init(), ops, p) && i < |p.accts.accounts| && -INT64_MAX - 1 <= exp <= INT64_MAX
    ensures var a := p.accts.accounts[i];
      var shown := Shown(p, V.Token(a.accountId, exp), t, devices);
      && a.accountId in p.homes
      && (!Restricts(ops, a, exp, t) ==> shown == devices)
      && (Restricts(ops, a, exp, t) && HomeStands(p.orgs, p.homes[a.accountId]) ==>
            OnlySubtree(p.orgs, p.homes[a.accountId], devices, shown))
  {
    var a := p.accts.accounts[i];
    AccountIsHoused(ops, p, i);
    A.LogoutEndsTheString(ops, p, i, exp, "", t);
    assert V.Token(a.accountId, exp) + "" == V.Token(a.accountId, exp);
    if Restricts(ops, a, exp, t) && HomeStands(p.orgs, p.homes[a.accountId]) {
      ShowsSubtreeIff(OrgOps(ops), p.orgs, p.homes[a.accountId]);
    }
  }

  lemma LogoutRejects(p: A.Portal, token: string, now: int)
    ensures var p' := A.Step(p, A.LogOut(token));
      V.VerifyToken(p'.accts, p'.orgs.store.orgs, token, now) == V.Rejected
  {
    var p' := A.Step(p, A.LogOut(token));
    assert p'.accts == p.accts.(invalidated := p.accts.invalidated + [token]);
    V.BlacklistedIsRejected(p'.accts, p'.orgs.store.orgs, token, now);
  }

  lemma FilterOnlyRemoves(orgs: seq<OrgInfo>, caller: Option<Caller>, devices: seq<Device>, dev: Device)
    ensures dev in ShownTo(orgs, caller, devices) ==> dev in devices
  {
  }

  /** A logout widens what its holder sees: whoever logs out is shown every device. */
  lemma LogoutShowsEverything(p: A.Portal, token: string, now: int, devices: seq<Device>)
    ensures Shown(A.Step(p, A.LogOut(token)), token, now, devices) == devices
    ensures forall dev :: dev in Shown(p, token, now, devices) ==> dev in devices
  {
    LogoutRejects(p, token, now);
    forall dev | dev in Shown(p, token, now, devices)
      ensures dev in devices
    {
      var verdict := V.VerifyToken(p.accts, p.orgs.store.orgs, token, now);
      FilterOnlyRemoves(p.orgs.store.orgs, CallerOf(verdict), devices, dev);
    }
  }
}

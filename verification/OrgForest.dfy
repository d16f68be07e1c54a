/**
  The organization table of OrgManager and its database rows, as values, together with the
  creation-time forest that the materialized paths are meant to index.
 */
module OrgForest {
  import opened Common
  import opened Decimal

  datatype OrgInfo = OrgInfo(
    orgId: int,
    parentId: int,
    tenantId: string,
    orgName: string,
    orgType: string,
    contactName: string,
    contactPhone: string,
    contactEmail: string,
    address: string,
    isActive: bool,
    level: int,
    path: string,
    childrenCount: int,
    createdAt: string,
    updatedAt: string)

  /** The manager's vector and counter, and the organizations table keyed by org_id. */
  datatype OrgStore = OrgStore(orgs: seq<OrgInfo>, nextId: int, rows: map<int, OrgInfo>)

  // ---------------------------------------------------------------- operations

  /** Position of the first organization with this id; the length when there is none. */
  function IndexOf(orgs: seq<OrgInfo>, id: int): (i: nat)
    ensures i <= |orgs|
    ensures i < |orgs| ==> orgs[i].orgId == id
    ensures forall j :: 0 <= j < i ==> orgs[j].orgId != id
  {
    if orgs == [] then 0
    else if orgs[0].orgId == id then 0
    else 1 + IndexOf(orgs[1..], id)
  }

  predicate Exists(orgs: seq<OrgInfo>, id: int) {
    IndexOf(orgs, id) < |orgs|
  }

  predicate TenantExists(orgs: seq<OrgInfo>, tenant: string) {
    exists i :: 0 <= i < |orgs| && orgs[i].tenantId == tenant
  }

  /** Only active children count. */
  predicate HasChildren(orgs: seq<OrgInfo>, id: int) {
    exists i :: 0 <= i < |orgs| && orgs[i].parentId == id && orgs[i].isActive
  }

  function CreateStatus(orgs: seq<OrgInfo>, info: OrgInfo): StatusCode {
    var p := IndexOf(orgs, info.parentId);
    if info.parentId != 0 && p == |orgs| then ORG_NOT_FOUND
    else if info.parentId != 0 && !orgs[p].isActive then ORG_NOT_FOUND
    else if info.parentId != 0 && orgs[p].orgType == "company" && info.orgType != "department" then ERROR
    else if TenantExists(orgs, info.tenantId) then ORG_DUPLICATE_TENANT
    else OK
  }

  /** The record create_org stores: fresh id, level and path below the parent, time stamps. */
  function NewOrg(s: OrgStore, info: OrgInfo, now: string): OrgInfo
    requires CreateStatus(s.orgs, info) == OK
  {
    var stamped := info.(orgId := s.nextId, createdAt := now, updatedAt := now);
    if info.parentId == 0 then
      stamped.(level := 0, path := "/" + IntToString(s.nextId))
    else
      var parent := s.orgs[IndexOf(s.orgs, info.parentId)];
      stamped.(level := parent.level + 1, path := parent.path + ("/" + IntToString(s.nextId)))
  }

  function CountChild(orgs: seq<OrgInfo>, id: int): (r: seq<OrgInfo>)
  {
    var i := IndexOf(orgs, id);
    if i == |orgs| then orgs else orgs[i := orgs[i].(childrenCount := orgs[i].childrenCount + 1)]
  }

  function CreateOrg(s: OrgStore, info: OrgInfo, now: string): OrgStore {
    if CreateStatus(s.orgs, info) != OK then s
    else
      var org := NewOrg(s, info, now);
      var orgs := s.orgs + [org];
      OrgStore(if info.parentId != 0 then CountChild(orgs, info.parentId) else orgs,
               s.nextId + 1,
               s.rows[org.orgId := org])
  }

  function Edited(o: OrgInfo, info: OrgInfo, now: string): OrgInfo {
    o.(orgName := if info.orgName != "" then info.orgName else o.orgName,
       contactName := if info.contactName != "" then info.contactName else o.contactName,
       contactPhone := if info.contactPhone != "" then info.contactPhone else o.contactPhone,
       contactEmail := if info.contactEmail != "" then info.contactEmail else o.contactEmail,
       address := if info.address != "" then info.address else o.address,
       isActive := info.isActive,
       updatedAt := now)
  }

  /** An SQL UPDATE: no row with that id, no effect. */
  function UpdateRow(rows: map<int, OrgInfo>, org: OrgInfo): map<int, OrgInfo> {
    if org.orgId in rows then rows[org.orgId := org.(createdAt := rows[org.orgId].createdAt)] else rows
  }

  function UpdateOrg(s: OrgStore, id: int, info: OrgInfo, now: string): OrgStore {
    var i := IndexOf(s.orgs, id);
    if i == |s.orgs| then s
    else
      var org := Edited(s.orgs[i], info, now);
      s.(orgs := s.orgs[i := org], rows := UpdateRow(s.rows, org))
  }

  function DeleteStatus(orgs: seq<OrgInfo>, id: int): StatusCode {
    if !Exists(orgs, id) then ORG_NOT_FOUND
    else if HasChildren(orgs, id) then ORG_HAS_CHILDREN
    else OK
  }

  function DeleteOrg(s: OrgStore, id: int): OrgStore {
    if DeleteStatus(s.orgs, id) != OK then s
    else
      var i := IndexOf(s.orgs, id);
      s.(orgs := s.orgs[..i] + s.orgs[i + 1..], rows := s.rows - {id})
  }

  function MaxId(orgs: seq<OrgInfo>): int {
    if orgs == [] then 0
    else
      var rest := MaxId(orgs[..|orgs| - 1]);
      var last := orgs[|orgs| - 1].orgId;
      if last > rest then last else rest
  }

  /** The largest id of the list, or 0. */
  lemma {:induction false} MaxIdIsLargest(orgs: seq<OrgInfo>)
    ensures 0 <= MaxId(orgs)
    ensures forall i :: 0 <= i < |orgs| ==> orgs[i].orgId <= MaxId(orgs)
    ensures MaxId(orgs) == 0 || exists i :: 0 <= i < |orgs| && orgs[i].orgId == MaxId(orgs)
  {
    if orgs != [] {
      MaxIdIsLargest(orgs[..|orgs| - 1]);
    }
  }

  /** A fresh manager that loads the listed rows. */
  function Reloaded(s: OrgStore, listing: seq<OrgInfo>): OrgStore {
    OrgStore(listing, MaxId(listing) + 1, s.rows)
  }

  /** `listing` shows every row of the table once, in whatever order. */
  ghost predicate Lists(listing: seq<OrgInfo>, rows: map<int, OrgInfo>) {
    && UniqueIds(listing)
    && (forall i :: 0 <= i < |listing| ==> listing[i].orgId in rows && rows[listing[i].orgId] == listing[i])
    && (forall id :: id in rows ==> Exists(listing, id))
  }

  predicate UniqueIds(orgs: seq<OrgInfo>) {
    forall i, j :: 0 <= i < j < |orgs| ==> orgs[i].orgId != orgs[j].orgId
  }

  predicate UniqueTenants(orgs: seq<OrgInfo>) {
    forall i, j :: 0 <= i < j < |orgs| ==> orgs[i].tenantId != orgs[j].tenantId
  }

  // ---------------------------------------------------------------- creation-time forest

  /**
    One successful create_org. The serial number tells births apart: an id can be handed out
    again after a restart, a serial never is.
   */
  datatype Birth = Birth(serial: nat, id: int, orgType: string, parent: Option<Birth>)

  predicate StrictAncestor(a: Birth, b: Birth) {
    b.parent.Some? && (b.parent.value == a || StrictAncestor(a, b.parent.value))
  }

  /** Ids grow downwards, and a company has departments below it. */
  predicate WellBorn(b: Birth) {
    && 1 <= b.id
    && (b.parent.Some? ==>
          && b.parent.value.id < b.id
          && (b.parent.value.orgType == "company" ==> b.orgType == "department")
          && WellBorn(b.parent.value))
  }

  function PathOf(b: Birth): string {
    (if b.parent.Some? then PathOf(b.parent.value) else "") + ("/" + IntToString(b.id))
  }

  function DepthOf(b: Birth): nat {
    if b.parent.Some? then 1 + DepthOf(b.parent.value) else 0
  }

  lemma {:induction false} AncestorsAreOlder(a: Birth, b: Birth)
    requires WellBorn(b) && StrictAncestor(a, b)
    ensures WellBorn(a) && a.id < b.id
  {
    if b.parent.value != a {
      AncestorsAreOlder(a, b.parent.value);
    }
  }

  lemma {:induction false} AncestryTransitive(a: Birth, b: Birth, c: Birth)
    requires StrictAncestor(a, b) && StrictAncestor(b, c)
    ensures StrictAncestor(a, c)
  {
    if c.parent.value != b {
      AncestryTransitive(a, b, c.parent.value);
    }
  }

  /** The ancestors of one birth lie on one line. */
  lemma {:induction false} AncestorsAreLinear(a: Birth, b: Birth, c: Birth)
    requires StrictAncestor(a, c) && StrictAncestor(b, c)
    ensures a == b || StrictAncestor(a, b) || StrictAncestor(b, a)
  {
    var p := c.parent.value;
    if a != p && b != p {
      AncestorsAreLinear(a, b, p);
    }
  }

  // ---------------------------------------------------------------- paths index the forest

  function Parental(b: Birth): string {
    if b.parent.Some? then PathOf(b.parent.value) else ""
  }

  /** The last '/' of a path stands right after the parent's path. */
  lemma LastSlash(b: Birth)
    requires WellBorn(b)
    ensures var p, k := PathOf(b), |Parental(b)|;
      && k + 1 < |p| && p[..k] == Parental(b) && p[k] == '/' && p[k + 1..] == IntToString(b.id)
      && forall i :: k < i < |p| ==> p[i] != '/'
  {
    SplitAtSlash(Parental(b), IntToString(b.id));
  }

  lemma SplitAtSlash(s: string, t: string)
    requires forall i :: 0 <= i < |t| ==> t[i] != '/'
    ensures var p, k := s + ("/" + t), |s|;
      && p[..k] == s && p[k] == '/' && p[k + 1..] == t
      && forall i :: k < i < |p| ==> p[i] != '/'
  {
    var p, k := s + ("/" + t), |s|;
    forall i | k < i < |p|
      ensures p[i] != '/'
    {
      assert p[i] == t[i - k - 1];
    }
  }

  lemma EqualPathsEqualIds(a: Birth, b: Birth)
    requires WellBorn(a) && WellBorn(b) && PathOf(a) == PathOf(b)
    ensures a.id == b.id && Parental(a) == Parental(b)
  {
    LastSlash(a);
    LastSlash(b);
    var p := PathOf(a);
    assert p[|Parental(a)|] == '/' && p[|Parental(b)|] == '/';
    assert |Parental(a)| == |Parental(b)|;
    ToStringInjective(a.id, b.id);
  }

  /** Every path that has PathOf(a) + "/" as a prefix runs through a birth with exactly a's path. */
  lemma {:induction false} PrefixFindsAncestor(a: Birth, b: Birth) returns (c: Birth)
    requires WellBorn(a) && WellBorn(b)
    requires PathOf(a) + "/" <= PathOf(b)
    ensures StrictAncestor(c, b) && PathOf(c) == PathOf(a)
    decreases b
  {
    LastSlash(a);
    LastSlash(b);
    var n, k := |PathOf(a)|, |Parental(b)|;
    assert PathOf(b)[n] == (PathOf(a) + "/")[n] == '/';
    assert n <= k;
    assert PathOf(a) == PathOf(b)[..n] == Parental(b)[..n];
    if n == k {
      c := b.parent.value;
    } else {
      assert PathOf(a) + "/" <= Parental(b);
      c := PrefixFindsAncestor(a, b.parent.value);
    }
  }

  lemma {:induction false} AncestorIsPrefix(a: Birth, b: Birth)
    requires StrictAncestor(a, b)
    ensures PathOf(a) + "/" <= PathOf(b)
  {
    var p := b.parent.value;
    if p != a {
      AncestorIsPrefix(a, p);
    }
  }
}

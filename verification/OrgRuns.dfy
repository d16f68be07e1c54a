/** What every run of create, update, delete and restart keeps. */
module OrgRuns {
  import opened Common
  import opened OrgForest

  /** The store, every birth so far, and the birth behind each live id. */
  datatype World = World(store: OrgStore, births: seq<Birth>, born: map<int, Birth>)

  datatype Op =
    | Create(info: OrgInfo, now: string)
    | Update(id: int, info: OrgInfo, now: string)
    | Delete(id: int)
    | Restart(listing: seq<OrgInfo>)

  function Init(): World {
    World(OrgStore([], 1, map[]), [], map[])
  }

  /** Ids are 32-bit, and a restart loads what the table holds. */
  ghost predicate Enabled(w: World, op: Op) {
    match op
    case Create(_, _) => w.store.nextId < INT32_MAX
    case Restart(listing) => Lists(listing, w.store.rows)
    case _ => true
  }

  function NewBirth(w: World, info: OrgInfo): Birth {
    Birth(|w.births|, w.store.nextId, info.orgType,
          if info.parentId != 0 && info.parentId in w.born then Some(w.born[info.parentId]) else None)
  }

  function Step(w: World, op: Op): World {
    match op
    case Create(info, now) =>
      if CreateStatus(w.store.orgs, info) != OK then w
      else
        var b := NewBirth(w, info);
        World(CreateOrg(w.store, info, now), w.births + [b], w.born[w.store.nextId := b])
    case Update(id, info, now) => w.(store := UpdateOrg(w.store, id, info, now))
    case Delete(id) => w.(store := DeleteOrg(w.store, id))
    case Restart(listing) => w.(store := Reloaded(w.store, listing))
  }

  ghost predicate IsRun(w: World, ops: seq<Op>, w': World)
    decreases |ops|
  {
    if ops == [] then w == w'
    else Enabled(w, ops[0]) && IsRun(Step(w, ops[0]), ops[1..], w')
  }

  // ---------------------------------------------------------------- invariant

  /** The stored organization is what its birth says: id, parent, level and path. */
  ghost predicate Tracked(o: OrgInfo, born: map<int, Birth>) {
    && o.orgId in born
    && var b := born[o.orgId];
    && WellBorn(b)
    && o.orgId == b.id && o.orgType == b.orgType
    && o.parentId == (if b.parent.Some? then b.parent.value.id else 0)
    && o.level == DepthOf(b)
    && o.path == PathOf(b)
  }

  /** An id on the chain of a live organization is not in use by a later birth. */
  ghost predicate NoImpostor(o: OrgInfo, x: OrgInfo, born: map<int, Birth>)
    requires o.orgId in born && x.orgId in born
  {
    forall a :: StrictAncestor(a, born[o.orgId]) && a.id == x.orgId ==> a == born[x.orgId]
  }

  ghost predicate Indexed(orgs: seq<OrgInfo>, born: map<int, Birth>) {
    && (forall o :: o in orgs ==> Tracked(o, born))
    && (forall o, x :: o in orgs && x in orgs ==> NoImpostor(o, x, born))
  }

  ghost predicate Below(orgs: seq<OrgInfo>, nextId: int) {
    1 <= nextId && forall o :: o in orgs ==> o.orgId < nextId
  }

  predicate SameButCount(o: OrgInfo, r: OrgInfo) {
    o.(childrenCount := r.childrenCount) == r
  }

  ghost predicate RowsMatch(orgs: seq<OrgInfo>, rows: map<int, OrgInfo>) {
    && (forall o :: o in orgs ==> o.orgId in rows && SameButCount(o, rows[o.orgId]))
    && (forall id :: id in rows ==> exists o :: o in orgs && o.orgId == id)
  }

  /** Serial numbers are positions in the list of births. */
  ghost predicate Numbered(births: seq<Birth>, born: map<int, Birth>) {
    forall id :: id in born ==> born[id].serial < |births| && births[born[id].serial] == born[id]
  }

  ghost predicate Inv(w: World) {
    var orgs := w.store.orgs;
    && UniqueIds(orgs)
    && UniqueTenants(orgs)
    && Below(orgs, w.store.nextId)
    && Indexed(orgs, w.born)
    && RowsMatch(orgs, w.store.rows)
    && Numbered(w.births, w.born)
  }

  // ---------------------------------------------------------------- preservation

  predicate SameNode(o: OrgInfo, x: OrgInfo) {
    && o.orgId == x.orgId && o.parentId == x.parentId && o.tenantId == x.tenantId
    && o.orgType == x.orgType && o.level == x.level && o.path == x.path
  }

  /** Each entry of `some` stands for an entry of `all`. */
  ghost predicate Among(some: seq<OrgInfo>, all: seq<OrgInfo>) {
    forall o :: o in some ==> exists x :: x in all && SameNode(o, x)
  }

  lemma AmongKeepsIndexed(some: seq<OrgInfo>, all: seq<OrgInfo>, born: map<int, Birth>)
    requires Indexed(all, born) && Among(some, all)
    ensures Indexed(some, born)
  {
    forall o, y | o in some && y in some
      ensures Tracked(o, born) && Tracked(y, born) && NoImpostor(o, y, born)
    {
      var x :| x in all && SameNode(o, x);
      var z :| z in all && SameNode(y, z);
      assert Tracked(x, born) && Tracked(z, born) && NoImpostor(x, z, born);
    }
  }

  lemma AmongKeepsTenants(some: seq<OrgInfo>, all: seq<OrgInfo>)
    requires UniqueTenants(all) && Among(some, all) && UniqueIds(some)
    ensures UniqueTenants(some)
  {
    forall i, j | 0 <= i < j < |some|
      ensures some[i].tenantId != some[j].tenantId
    {
      assert some[i] in some && some[j] in some;
      var x :| x in all && SameNode(some[i], x);
      var z :| z in all && SameNode(some[j], z);
    }
  }

  lemma AppendKeepsIndexed(orgs: seq<OrgInfo>, born: map<int, Birth>, org: OrgInfo, b: Birth)
    requires Indexed(orgs, born) && Below(orgs, b.id)
    requires org.orgId == b.id && Tracked(org, born[b.id := b])
    requires b.parent.Some? ==> exists p :: p in orgs && born[p.orgId] == b.parent.value
    ensures Indexed(orgs + [org], born[b.id := b])
  {
    var born' := born[b.id := b];
    forall o, x | o in orgs + [org] && x in orgs + [org]
      ensures Tracked(o, born') && Tracked(x, born') && NoImpostor(o, x, born')
    {
      assert o != org ==> Tracked(o, born);
      assert x != org ==> Tracked(x, born);
      forall a | StrictAncestor(a, born'[o.orgId]) && a.id == x.orgId
        ensures a == born'[x.orgId]
      {
        AncestorsAreOlder(a, born'[o.orgId]);
        assert x.orgId < b.id && x in orgs;
        if o == org {
          var p :| p in orgs && born[p.orgId] == b.parent.value;
          assert NoImpostor(p, x, born);
        } else {
          assert NoImpostor(o, x, born);
        }
      }
    }
  }

  /** Entries that stand for live ones, with matching rows, form a good store again. */
  lemma AmongKeepsInv(w: World, s: OrgStore)
    requires Inv(w)
    requires Among(s.orgs, w.store.orgs) && UniqueIds(s.orgs)
    requires Below(s.orgs, s.nextId) && RowsMatch(s.orgs, s.rows)
    ensures Inv(w.(store := s))
  {
    AmongKeepsIndexed(s.orgs, w.store.orgs, w.born);
    AmongKeepsTenants(s.orgs, w.store.orgs);
  }

  lemma EditKeepsInv(w: World, i: nat, o: OrgInfo, rows: map<int, OrgInfo>)
    requires Inv(w) && i < |w.store.orgs| && SameNode(o, w.store.orgs[i])
    requires rows.Keys == w.store.rows.Keys && o.orgId in rows
    requires forall id :: id in rows && id != o.orgId ==> rows[id] == w.store.rows[id]
    requires SameButCount(o, rows[o.orgId])
    ensures Inv(w.(store := w.store.(orgs := w.store.orgs[i := o], rows := rows)))
  {
    var orgs := w.store.orgs;
    EditStandsFor(orgs, i, o);
    EditKeepsRows(orgs, i, o, w.store.rows, rows);
    AmongKeepsInv(w, w.store.(orgs := orgs[i := o], rows := rows));
  }

  lemma EditStandsFor(orgs: seq<OrgInfo>, i: nat, o: OrgInfo)
    requires UniqueIds(orgs) && i < |orgs| && SameNode(o, orgs[i])
    ensures UniqueIds(orgs[i := o]) && Among(orgs[i := o], orgs)
  {
    assert forall k :: 0 <= k < |orgs| ==> SameNode(orgs[i := o][k], orgs[k]);
  }

  lemma EditKeepsRows(orgs: seq<OrgInfo>, i: nat, o: OrgInfo, rows: map<int, OrgInfo>, rows': map<int, OrgInfo>)
    requires RowsMatch(orgs, rows) && UniqueIds(orgs)
    requires i < |orgs| && o.orgId == orgs[i].orgId
    requires rows'.Keys == rows.Keys && o.orgId in rows' && SameButCount(o, rows'[o.orgId])
    requires forall id :: id in rows' && id != o.orgId ==> rows'[id] == rows[id]
    ensures RowsMatch(orgs[i := o], rows')
  {
    var orgs' := orgs[i := o];
    forall id | id in rows'
      ensures exists x :: x in orgs' && x.orgId == id
    {
      var x :| x in orgs && x.orgId == id;
      var k :| 0 <= k < |orgs| && orgs[k] == x;
      assert orgs'[k].orgId == id;
    }
  }

  lemma NewOrgTracked(w: World, info: OrgInfo, now: string)
    requires Inv(w) && CreateStatus(w.store.orgs, info) == OK
    ensures var b := NewBirth(w, info);
      && Tracked(NewOrg(w.store, info, now), w.born[b.id := b])
      && (b.parent.Some? ==> exists p :: p in w.store.orgs && w.born[p.orgId] == b.parent.value)
  {
    if info.parentId != 0 {
      var p := w.store.orgs[IndexOf(w.store.orgs, info.parentId)];
      assert p in w.store.orgs && Tracked(p, w.born);
    }
  }

  /** create_org before it raises the parent's children_count. */
  function Appended(w: World, info: OrgInfo, now: string): World
    requires CreateStatus(w.store.orgs, info) == OK
  {
    var org, b := NewOrg(w.store, info, now), NewBirth(w, info);
    World(OrgStore(w.store.orgs + [org], w.store.nextId + 1, w.store.rows[org.orgId := org]),
          w.births + [b], w.born[b.id := b])
  }

  lemma AppendKeepsInv(w: World, info: OrgInfo, now: string)
    requires Inv(w) && CreateStatus(w.store.orgs, info) == OK
    ensures Inv(Appended(w, info, now))
  {
    var org, b := NewOrg(w.store, info, now), NewBirth(w, info);
    NewOrgTracked(w, info, now);
    AppendKeepsIndexed(w.store.orgs, w.born, org, b);
    AppendKeepsRows(w.store.orgs, w.store.rows, org);
    AppendKeepsUnique(w.store.orgs, org);
  }

  lemma AppendKeepsUnique(orgs: seq<OrgInfo>, org: OrgInfo)
    requires UniqueIds(orgs) && UniqueTenants(orgs)
    requires Below(orgs, org.orgId) && !TenantExists(orgs, org.tenantId)
    ensures UniqueIds(orgs + [org]) && UniqueTenants(orgs + [org]) && Below(orgs + [org], org.orgId + 1)
  {
    assert forall i :: 0 <= i < |orgs| ==> orgs[i] in orgs;
  }

  lemma AppendKeepsRows(orgs: seq<OrgInfo>, rows: map<int, OrgInfo>, org: OrgInfo)
    requires RowsMatch(orgs, rows) && Below(orgs, org.orgId)
    ensures RowsMatch(orgs + [org], rows[org.orgId := org])
  {
    forall id | id == org.orgId || id in rows
      ensures exists x :: x in orgs + [org] && x.orgId == id
    {
      if id == org.orgId {
        assert org in orgs + [org];
      } else {
        var x :| x in orgs && x.orgId == id;
        assert x in orgs + [org];
      }
    }
  }

  lemma CountChildKeepsInv(w: World, id: int)
    requires Inv(w)
    ensures Inv(w.(store := w.store.(orgs := CountChild(w.store.orgs, id))))
  {
    var i := IndexOf(w.store.orgs, id);
    if i < |w.store.orgs| {
      var o := w.store.orgs[i];
      var o' := o.(childrenCount := o.childrenCount + 1);
      assert SameButCount(o', w.store.rows[o.orgId]) by {
        assert o in w.store.orgs;
      }
      assert CountChild(w.store.orgs, id) == w.store.orgs[i := o'];
      EditKeepsInv(w, i, o', w.store.rows);
    }
  }

  lemma CreateKeepsInv(w: World, info: OrgInfo, now: string)
    requires Inv(w)
    ensures Inv(Step(w, Create(info, now)))
  {
    if CreateStatus(w.store.orgs, info) == OK {
      AppendKeepsInv(w, info, now);
      CountChildKeepsInv(Appended(w, info, now), info.parentId);
    }
  }

  lemma EditedMatchesRow(orgs: seq<OrgInfo>, rows: map<int, OrgInfo>, i: nat, info: OrgInfo, now: string)
    requires RowsMatch(orgs, rows) && i < |orgs|
    ensures var o := Edited(orgs[i], info, now);
      && SameNode(o, orgs[i])
      && o.orgId in rows && UpdateRow(rows, o).Keys == rows.Keys
      && SameButCount(o, UpdateRow(rows, o)[o.orgId])
      && forall id :: id in rows && id != o.orgId ==> UpdateRow(rows, o)[id] == rows[id]
  {
    assert orgs[i] in orgs;
  }

  lemma UpdateKeepsInv(w: World, id: int, info: OrgInfo, now: string)
    requires Inv(w)
    ensures Inv(Step(w, Update(id, info, now)))
  {
    var i := IndexOf(w.store.orgs, id);
    if i < |w.store.orgs| {
      var o := Edited(w.store.orgs[i], info, now);
      EditedMatchesRow(w.store.orgs, w.store.rows, i, info, now);
      EditKeepsInv(w, i, o, UpdateRow(w.store.rows, o));
    }
  }

  lemma RemovalMembers(orgs: seq<OrgInfo>, i: nat, x: OrgInfo)
    requires UniqueIds(orgs) && i < |orgs|
    ensures x in orgs[..i] + orgs[i + 1..] <==> x in orgs && x.orgId != orgs[i].orgId
  {
    var orgs' := orgs[..i] + orgs[i + 1..];
    if x in orgs' {
      var k :| 0 <= k < |orgs'| && orgs'[k] == x;
      assert x == orgs[if k < i then k else k + 1];
    }
    if x in orgs && x.orgId != orgs[i].orgId {
      var k :| 0 <= k < |orgs| && orgs[k] == x;
      assert x == orgs'[if k < i then k else k - 1];
    }
  }

  lemma RemovalStandsFor(orgs: seq<OrgInfo>, i: nat)
    requires UniqueIds(orgs) && i < |orgs|
    ensures var orgs' := orgs[..i] + orgs[i + 1..];
      && UniqueIds(orgs') && Among(orgs', orgs)
      && (forall x :: x in orgs' <==> x in orgs && x.orgId != orgs[i].orgId)
  {
    var orgs' := orgs[..i] + orgs[i + 1..];
    assert forall k :: 0 <= k < |orgs'| ==> orgs'[k] == orgs[if k < i then k else k + 1];
    forall x
      ensures x in orgs' <==> x in orgs && x.orgId != orgs[i].orgId
    {
      RemovalMembers(orgs, i, x);
    }
    assert forall x :: x in orgs' ==> SameNode(x, x);
  }

  lemma RemovalKeepsRows(orgs: seq<OrgInfo>, orgs': seq<OrgInfo>, id: int, rows: map<int, OrgInfo>)
    requires RowsMatch(orgs, rows)
    requires forall x :: x in orgs' <==> x in orgs && x.orgId != id
    ensures RowsMatch(orgs', rows - {id})
  {
    forall k | k in rows && k != id
      ensures exists x :: x in orgs' && x.orgId == k
    {
      var x :| x in orgs && x.orgId == k;
      assert x in orgs';
    }
  }

  lemma DropKeepsInv(w: World, orgs: seq<OrgInfo>, id: int)
    requires Inv(w) && UniqueIds(orgs) && Among(orgs, w.store.orgs)
    requires forall x :: x in orgs <==> x in w.store.orgs && x.orgId != id
    ensures Inv(w.(store := w.store.(orgs := orgs, rows := w.store.rows - {id})))
  {
    RemovalKeepsRows(w.store.orgs, orgs, id, w.store.rows);
    AmongKeepsInv(w, w.store.(orgs := orgs, rows := w.store.rows - {id}));
  }

  lemma DeleteIsRemoval(s: OrgStore, id: int, i: nat)
    requires i == IndexOf(s.orgs, id) && DeleteStatus(s.orgs, id) == OK
    ensures i < |s.orgs| && s.orgs[i].orgId == id
    ensures DeleteOrg(s, id) == s.(orgs := s.orgs[..i] + s.orgs[i + 1..], rows := s.rows - {id})
  {
  }

  lemma DeleteKeepsInv(w: World, id: int)
    requires Inv(w)
    ensures Inv(Step(w, Delete(id)))
  {
    if DeleteStatus(w.store.orgs, id) == OK {
      var i := IndexOf(w.store.orgs, id);
      DeleteIsRemoval(w.store, id, i);
      RemovalStandsFor(w.store.orgs, i);
      DropKeepsInv(w, w.store.orgs[..i] + w.store.orgs[i + 1..], id);
    } else {
      assert Step(w, Delete(id)) == w;
    }
  }

  /** A delete can orphan organizations, but only inactive ones. */
  lemma DeleteOrphansOnlyInactive(s: OrgStore, id: int, o: OrgInfo)
    requires DeleteStatus(s.orgs, id) == OK && o in DeleteOrg(s, id).orgs && o.parentId == id
    ensures !o.isActive
  {
    DeleteIsRemoval(s, id, IndexOf(s.orgs, id));
  }

  lemma ListingStandsFor(orgs: seq<OrgInfo>, rows: map<int, OrgInfo>, listing: seq<OrgInfo>)
    requires RowsMatch(orgs, rows) && Lists(listing, rows)
    ensures Among(listing, orgs) && RowsMatch(listing, rows)
  {
    forall r | r in listing
      ensures exists x :: x in orgs && SameNode(r, x)
    {
      var x :| x in orgs && x.orgId == r.orgId;
      assert SameNode(r, x);
    }
    forall id | id in rows
      ensures exists x :: x in listing && x.orgId == id
    {
      assert listing[IndexOf(listing, id)] in listing;
    }
  }

  lemma ReloadIsBelow(listing: seq<OrgInfo>)
    ensures Below(listing, MaxId(listing) + 1)
  {
    MaxIdIsLargest(listing);
  }

  /** The reloaded entries stand for the live ones and match the rows they came from. */
  lemma ReloadFits(w: World, listing: seq<OrgInfo>)
    requires Inv(w) && Lists(listing, w.store.rows)
    ensures var s := Reloaded(w.store, listing);
      && Among(s.orgs, w.store.orgs) && UniqueIds(s.orgs)
      && Below(s.orgs, s.nextId) && RowsMatch(s.orgs, s.rows)
  {
    ListingStandsFor(w.store.orgs, w.store.rows, listing);
    ReloadIsBelow(listing);
  }

  lemma ReloadKeepsInv(w: World, listing: seq<OrgInfo>)
    requires Inv(w) && Lists(listing, w.store.rows)
    ensures Inv(w.(store := Reloaded(w.store, listing)))
  {
    ReloadFits(w, listing);
    AmongKeepsInv(w, Reloaded(w.store, listing));
  }

  lemma RestartKeepsInv(w: World, listing: seq<OrgInfo>)
    requires Inv(w) && Lists(listing, w.store.rows)
    ensures Inv(Step(w, Restart(listing)))
  {
    ReloadKeepsInv(w, listing);
    assert Step(w, Restart(listing)) == w.(store := Reloaded(w.store, listing));
  }

  lemma StepKeepsInv(w: World, op: Op)
    requires Inv(w) && Enabled(w, op)
    ensures Inv(Step(w, op))
  {
    match op
    case Create(info, now) => CreateKeepsInv(w, info, now);
    case Update(id, info, now) => UpdateKeepsInv(w, id, info, now);
    case Delete(id) => DeleteKeepsInv(w, id);
    case Restart(listing) => RestartKeepsInv(w, listing);
  }

  /** Every state that a run reaches from a world satisfying the invariant satisfies it too. */
  lemma {:induction false} RunKeepsInv(w: World, ops: seq<Op>, w': World)
    requires Inv(w) && IsRun(w, ops, w')
    ensures Inv(w')
    decreases |ops|
  {
    if ops != [] {
      StepKeepsInv(w, ops[0]);
      RunKeepsInv(Step(w, ops[0]), ops[1..], w');
    }
  }

  // ---------------------------------------------------------------- what the calls do, on fields

  ghost predicate ActiveParent(orgs: seq<OrgInfo>, id: int) {
    exists p :: p in orgs && p.orgId == id && p.isActive
  }

  ghost predicate CompanyParent(orgs: seq<OrgInfo>, id: int) {
    exists p :: p in orgs && p.orgId == id && p.orgType == "company"
  }

  ghost predicate TenantUsed(orgs: seq<OrgInfo>, tenant: string) {
    exists o :: o in orgs && o.tenantId == tenant
  }

  lemma ParentAt(orgs: seq<OrgInfo>, id: int)
    requires UniqueIds(orgs)
    ensures var i := IndexOf(orgs, id);
      && (ActiveParent(orgs, id) <==> i < |orgs| && orgs[i].isActive)
      && (CompanyParent(orgs, id) <==> i < |orgs| && orgs[i].orgType == "company")
  {
    var i := IndexOf(orgs, id);
    if i < |orgs| {
      assert orgs[i] in orgs;
    }
  }

  /** create_org's refusals, each with its own condition. */
  lemma CreateRefusals(orgs: seq<OrgInfo>, info: OrgInfo)
    requires UniqueIds(orgs)
    ensures var status := CreateStatus(orgs, info);
      var orphan := info.parentId != 0 && !ActiveParent(orgs, info.parentId);
      var misplaced := info.parentId != 0 && CompanyParent(orgs, info.parentId) && info.orgType != "department";
      && (status == ORG_NOT_FOUND <==> orphan)
      && (status == ERROR <==> !orphan && misplaced)
      && (status == ORG_DUPLICATE_TENANT <==> !orphan && !misplaced && TenantUsed(orgs, info.tenantId))
      && (status == OK <==> !orphan && !misplaced && !TenantUsed(orgs, info.tenantId))
  {
    ParentAt(orgs, info.parentId);
    assert TenantExists(orgs, info.tenantId) <==> TenantUsed(orgs, info.tenantId);
  }

  /** The entry create_org makes of a request. */
  predicate CreatedAs(o: OrgInfo, info: OrgInfo, id: int, now: string) {
    && o.orgId == id && o.parentId == info.parentId && o.tenantId == info.tenantId
    && o.orgName == info.orgName && o.orgType == info.orgType && o.contactName == info.contactName
    && o.contactPhone == info.contactPhone && o.contactEmail == info.contactEmail && o.address == info.address
    && o.isActive == info.isActive && o.childrenCount == info.childrenCount
    && o.createdAt == now && o.updatedAt == now
  }

  /** The same entries, with one child more for the parent. */
  ghost predicate CountedFor(orgs: seq<OrgInfo>, orgs': seq<OrgInfo>, parent: int) {
    && |orgs| <= |orgs'|
    && forall i :: 0 <= i < |orgs| ==>
         var one := if parent != 0 && orgs[i].orgId == parent then 1 else 0;
         orgs'[i] == orgs[i].(childrenCount := orgs[i].childrenCount + one)
  }

  /** The new entry comes last, with the request's texts and flag, and its parent counts one child more. */
  lemma CreateOnFields(w: World, info: OrgInfo, now: string)
    requires Inv(w) && CreateStatus(w.store.orgs, info) == OK
    ensures var s, s' := w.store, Step(w, Create(info, now)).store;
      && |s'.orgs| == |s.orgs| + 1 && s'.nextId == s.nextId + 1
      && CreatedAs(s'.orgs[|s.orgs|], info, s.nextId, now)
      && CountedFor(s.orgs, s'.orgs, info.parentId)
      && s'.rows == s.rows[s.nextId := s'.orgs[|s.orgs|]]
  {
    var o := NewOrg(w.store, info, now);
    NewOrgOnFields(w.store, info, now);
    if info.parentId != 0 {
      CountedOnce(w.store.orgs, o, info.parentId);
    }
  }

  lemma NewOrgOnFields(s: OrgStore, info: OrgInfo, now: string)
    requires CreateStatus(s.orgs, info) == OK
    ensures CreatedAs(NewOrg(s, info, now), info, s.nextId, now)
  {
  }

  lemma CountedOnce(orgs: seq<OrgInfo>, o: OrgInfo, id: int)
    requires UniqueIds(orgs) && Below(orgs, o.orgId) && Exists(orgs, id)
    ensures var all := CountChild(orgs + [o], id);
      && |all| == |orgs| + 1 && all[|orgs|] == o
      && (id != 0 ==> CountedFor(orgs, all, id))
  {
    var k := IndexOf(orgs, id);
    assert (orgs + [o])[k] == orgs[k] && orgs[k] in orgs;
    assert IndexOf(orgs + [o], id) == k;
  }

  /** A text is the request's if that is not empty, and otherwise stays. */
  predicate Taken(text: string, before: string, asked: string) {
    (asked != "" ==> text == asked) && (asked == "" ==> text == before)
  }

  /** What update_org leaves of an entry. */
  predicate UpdatedAs(o: OrgInfo, before: OrgInfo, info: OrgInfo, now: string) {
    && o.isActive == info.isActive && o.updatedAt == now
    && Taken(o.orgName, before.orgName, info.orgName)
    && Taken(o.contactName, before.contactName, info.contactName)
    && Taken(o.contactPhone, before.contactPhone, info.contactPhone)
    && Taken(o.contactEmail, before.contactEmail, info.contactEmail)
    && Taken(o.address, before.address, info.address)
    && o.orgId == before.orgId && o.parentId == before.parentId && o.tenantId == before.tenantId
    && o.orgType == before.orgType && o.level == before.level && o.path == before.path
    && o.childrenCount == before.childrenCount && o.createdAt == before.createdAt
  }

  /** Entry by entry: one is changed as asked, the others stay. */
  ghost predicate EntriesUpdated(orgs: seq<OrgInfo>, orgs': seq<OrgInfo>, id: int, info: OrgInfo, now: string) {
    && |orgs'| == |orgs|
    && forall i :: 0 <= i < |orgs| ==>
         if orgs[i].orgId == id then UpdatedAs(orgs'[i], orgs[i], info, now) else orgs'[i] == orgs[i]
  }

  /** The row follows its entry, and the others stay. */
  ghost predicate RowsUpdated(orgs: seq<OrgInfo>, rows: map<int, OrgInfo>, rows': map<int, OrgInfo>, id: int,
                              info: OrgInfo, now: string) {
    && rows'.Keys == rows.Keys
    && (forall k :: k in rows && k != id ==> rows'[k] == rows[k])
    && (id in rows ==> exists o :: o in orgs && o.orgId == id && UpdatedAs(rows'[id], o, info, now))
  }

  lemma EditedOnFields(o: OrgInfo, info: OrgInfo, now: string)
    ensures UpdatedAs(Edited(o, info, now), o, info, now)
  {
  }

  lemma EntriesAfterUpdate(s: OrgStore, id: int, info: OrgInfo, now: string)
    requires UniqueIds(s.orgs)
    ensures EntriesUpdated(s.orgs, UpdateOrg(s, id, info, now).orgs, id, info, now)
  {
    var i := IndexOf(s.orgs, id);
    if i < |s.orgs| {
      EditedOnFields(s.orgs[i], info, now);
    }
  }

  lemma RowsAfterUpdate(s: OrgStore, id: int, info: OrgInfo, now: string)
    requires UniqueIds(s.orgs) && RowsMatch(s.orgs, s.rows)
    ensures RowsUpdated(s.orgs, s.rows, UpdateOrg(s, id, info, now).rows, id, info, now)
  {
    var i := IndexOf(s.orgs, id);
    if i < |s.orgs| {
      var o := s.orgs[i];
      assert o in s.orgs;
      EditedOnFields(o, info, now);
      assert s.rows[id].createdAt == o.createdAt;
      assert UpdatedAs(UpdateOrg(s, id, info, now).rows[id], o, info, now);
    } else {
      NoRowWithout(s.orgs, s.rows, id);
    }
  }

  /** update_org changes one entry and its row, and nothing for an unknown id. */
  lemma UpdateOnFields(w: World, id: int, info: OrgInfo, now: string)
    requires Inv(w)
    ensures var s, s' := w.store, Step(w, Update(id, info, now)).store;
      && s'.nextId == s.nextId
      && EntriesUpdated(s.orgs, s'.orgs, id, info, now)
      && RowsUpdated(s.orgs, s.rows, s'.rows, id, info, now)
  {
    EntriesAfterUpdate(w.store, id, info, now);
    RowsAfterUpdate(w.store, id, info, now);
  }

  lemma NoRowWithout(orgs: seq<OrgInfo>, rows: map<int, OrgInfo>, id: int)
    requires RowsMatch(orgs, rows) && !Exists(orgs, id)
    ensures id !in rows && forall i :: 0 <= i < |orgs| ==> orgs[i].orgId != id
  {
  }

  ghost predicate KnownOrg(orgs: seq<OrgInfo>, id: int) {
    exists o :: o in orgs && o.orgId == id
  }

  ghost predicate HasActiveChild(orgs: seq<OrgInfo>, id: int) {
    exists o :: o in orgs && o.parentId == id && o.isActive
  }

  /** delete_org's refusals, each with its own condition. */
  lemma DeleteRefusals(orgs: seq<OrgInfo>, id: int)
    ensures var status := DeleteStatus(orgs, id);
      && (status == ORG_NOT_FOUND <==> !KnownOrg(orgs, id))
      && (status == ORG_HAS_CHILDREN <==> KnownOrg(orgs, id) && HasActiveChild(orgs, id))
      && (status == OK <==> KnownOrg(orgs, id) && !HasActiveChild(orgs, id))
  {
    var i := IndexOf(orgs, id);
    if i < |orgs| {
      assert orgs[i] in orgs && orgs[i].orgId == id;
    }
    assert HasChildren(orgs, id) <==> HasActiveChild(orgs, id);
  }

  /** A delete takes exactly the entry and the row, or nothing. */
  lemma DeleteOnFields(s: OrgStore, id: int)
    requires UniqueIds(s.orgs)
    ensures var s' := DeleteOrg(s, id);
      && s'.nextId == s.nextId
      && (DeleteStatus(s.orgs, id) != OK ==> s' == s)
      && (DeleteStatus(s.orgs, id) == OK ==>
            s'.rows == s.rows - {id} && forall o :: o in s'.orgs <==> o in s.orgs && o.orgId != id)
  {
    if DeleteStatus(s.orgs, id) == OK {
      var i := IndexOf(s.orgs, id);
      DeleteIsRemoval(s, id, i);
      RemovalStandsFor(s.orgs, i);
    }
  }

  /** After a restart the next id is one more than the largest in use, or 1. */
  lemma RestartOnFields(w: World, listing: seq<OrgInfo>)
    requires Inv(w) && Lists(listing, w.store.rows)
    ensures var s' := Step(w, Restart(listing)).store;
      && s'.orgs == listing && s'.rows == w.store.rows
      && (forall o :: o in listing ==> o.orgId < s'.nextId)
      && if listing == [] then s'.nextId == 1 else exists o :: o in listing && o.orgId == s'.nextId - 1
  {
    ListingIsPositive(w, listing);
    LargestIsListed(listing);
  }

  lemma ListingIsPositive(w: World, listing: seq<OrgInfo>)
    requires Inv(w) && Lists(listing, w.store.rows)
    ensures forall o :: o in listing ==> 1 <= o.orgId
  {
    ListingStandsFor(w.store.orgs, w.store.rows, listing);
    forall o | o in listing
      ensures 1 <= o.orgId
    {
      var x :| x in w.store.orgs && SameNode(o, x);
      assert Tracked(x, w.born);
    }
  }

  lemma LargestIsListed(listing: seq<OrgInfo>)
    requires forall o :: o in listing ==> 1 <= o.orgId
    ensures forall o :: o in listing ==> o.orgId < MaxId(listing) + 1
    ensures if listing == [] then MaxId(listing) == 0 else exists o :: o in listing && o.orgId == MaxId(listing)
  {
    MaxIdIsLargest(listing);
    if listing != [] {
      assert listing[0] in listing;
      var i :| 0 <= i < |listing| && listing[i].orgId == MaxId(listing);
      assert listing[i] in listing;
    }
  }
}

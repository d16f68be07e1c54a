/** OrgManager itself: the vector and counter it updates in place, and its search loops. */
module OrgManagers {
  import opened Common
  import opened Decimal
  import opened OrgForest
  import opened OrgQueries
  import opened OrgTree

  class OrgManager {
    var orgs: seq<OrgInfo>
    var nextId: int
    /** The organizations table the manager writes through to. */
    var rows: map<int, OrgInfo>

    function Store(): OrgStore
      reads this
    {
      OrgStore(orgs, nextId, rows)
    }

    /** A new process on an existing table: `listing` is what list_orgs_db returns. */
    constructor Load(rows: map<int, OrgInfo>, listing: seq<OrgInfo>)
      ensures Store() == Reloaded(OrgStore([], 1, rows), listing)
    {
      this.rows := rows;
      orgs, nextId := [], 1;
      new;
      if listing != [] {
        var maxId := 0;
        for i := 0 to |listing|
          invariant orgs == listing[..i] && maxId == MaxId(listing[..i])
          invariant this.rows == rows
        {
          ListingGrows(listing, i);
          orgs := orgs + [listing[i]];
          if listing[i].orgId > maxId {
            maxId := listing[i].orgId;
          }
        }
        assert listing[..|listing|] == listing;
        nextId := maxId + 1;
      }
    }

    static lemma ListingGrows(listing: seq<OrgInfo>, i: nat)
      requires i < |listing|
      ensures listing[..i + 1] == listing[..i] + [listing[i]]
      ensures var m, id := MaxId(listing[..i]), listing[i].orgId;
        MaxId(listing[..i + 1]) == if id > m then id else m
    {
      assert listing[..i + 1][..i] == listing[..i];
    }

    method FindIndex(id: int) returns (i: nat)
      ensures i == IndexOf(orgs, id)
    {
      i := 0;
      while i < |orgs| && orgs[i].orgId != id
        invariant 0 <= i <= |orgs|
        invariant forall j :: 0 <= j < i ==> orgs[j].orgId != id
      {
        i := i + 1;
      }
    }

    method TenantTaken(tenant: string) returns (found: bool)
      ensures found == TenantExists(orgs, tenant)
    {
      found := false;
      for i := 0 to |orgs|
        invariant found == exists j :: 0 <= j < i && orgs[j].tenantId == tenant
      {
        if orgs[i].tenantId == tenant {
          found := true;
        }
      }
    }

    method HasActiveChildren(id: int) returns (found: bool)
      ensures found == HasChildren(orgs, id)
    {
      found := false;
      for i := 0 to |orgs|
        invariant found == exists j :: 0 <= j < i && orgs[j].parentId == id && orgs[j].isActive
      {
        if orgs[i].parentId == id && orgs[i].isActive {
          found := true;
        }
      }
    }

    method Validate(info: OrgInfo) returns (status: StatusCode)
      ensures status == CreateStatus(orgs, info)
    {
      if info.parentId != 0 {
        var p := FindIndex(info.parentId);
        if p == |orgs| || !orgs[p].isActive {
          return ORG_NOT_FOUND;
        }
        if orgs[p].orgType == "company" && info.orgType != "department" {
          return ERROR;
        }
      }
      var taken := TenantTaken(info.tenantId);
      return if taken then ORG_DUPLICATE_TENANT else OK;
    }

    method AddChildCount(id: int)
      modifies this`orgs
      ensures orgs == CountChild(old(orgs), id)
    {
      var i := FindIndex(id);
      if i < |orgs| {
        orgs := orgs[i := orgs[i].(childrenCount := orgs[i].childrenCount + 1)];
      }
    }

    method Create(info: OrgInfo, now: string) returns (status: StatusCode)
      modifies this
      ensures status == CreateStatus(old(orgs), info)
      ensures Store() == CreateOrg(old(Store()), info, now)
    {
      status := Validate(info);
      if status != OK {
        return;
      }
      var org := info.(orgId := nextId);
      nextId := nextId + 1;
      if info.parentId == 0 {
        org := org.(level := 0, path := "/" + IntToString(org.orgId));
      } else {
        var p := FindIndex(info.parentId);
        org := org.(level := orgs[p].level + 1, path := orgs[p].path + ("/" + IntToString(org.orgId)));
      }
      org := org.(createdAt := now, updatedAt := now);
      assert org == NewOrg(old(Store()), info, now);
      orgs := orgs + [org];
      rows := rows[org.orgId := org];
      if info.parentId != 0 {
        AddChildCount(info.parentId);
      }
    }

    method Update(id: int, info: OrgInfo, now: string) returns (status: StatusCode)
      modifies this
      ensures status == if Exists(old(orgs), id) then OK else ORG_NOT_FOUND
      ensures Store() == UpdateOrg(old(Store()), id, info, now)
    {
      var i := FindIndex(id);
      if i == |orgs| {
        return ORG_NOT_FOUND;
      }
      var o := orgs[i];
      if info.orgName != "" { o := o.(orgName := info.orgName); }
      if info.contactName != "" { o := o.(contactName := info.contactName); }
      if info.contactPhone != "" { o := o.(contactPhone := info.contactPhone); }
      if info.contactEmail != "" { o := o.(contactEmail := info.contactEmail); }
      if info.address != "" { o := o.(address := info.address); }
      o := o.(isActive := info.isActive, updatedAt := now);
      orgs := orgs[i := o];
      rows := UpdateRow(rows, o);
      return OK;
    }

    method Delete(id: int) returns (status: StatusCode)
      modifies this
      ensures status == DeleteStatus(old(orgs), id)
      ensures Store() == DeleteOrg(old(Store()), id)
    {
      var i := FindIndex(id);
      if i == |orgs| {
        return ORG_NOT_FOUND;
      }
      var busy := HasActiveChildren(id);
      if busy {
        return ORG_HAS_CHILDREN;
      }
      orgs := orgs[..i] + orgs[i + 1..];
      rows := rows - {id};
      return OK;
    }

    static lemma PrefixGrows(orgs: seq<OrgInfo>, i: nat, prefix: string)
      requires i < |orgs|
      ensures WithPrefix(orgs[..i + 1], prefix) ==
              WithPrefix(orgs[..i], prefix) + (if prefix <= orgs[i].path then [orgs[i]] else [])
    {
      assert orgs[..i + 1][..i] == orgs[..i];
    }

    method GetDescendants(id: int) returns (result: seq<OrgInfo>)
      ensures result == Descendants(orgs, id)
    {
      result := [];
      var self := FindIndex(id);
      if self == |orgs| {
        return;
      }
      var all, prefix := orgs, orgs[self].path + "/";
      for i := 0 to |all|
        invariant result == WithPrefix(all[..i], prefix)
      {
        PrefixGrows(all, i, prefix);
        if prefix <= all[i].path {
          result := result + [all[i]];
        }
      }
      assert all[..|all|] == all;
    }

    static lemma IdsGrow(orgs: seq<OrgInfo>, i: nat)
      requires i < |orgs|
      ensures Ids(orgs[..i + 1]) == Ids(orgs[..i]) + [orgs[i].orgId]
    {
    }

    method GetOrgScope(id: int) returns (scope: seq<int>)
      ensures scope == Scope(orgs, id)
    {
      scope := [id];
      var descendants := GetDescendants(id);
      for i := 0 to |descendants|
        invariant scope == [id] + Ids(descendants[..i])
      {
        IdsGrow(descendants, i);
        scope := scope + [descendants[i].orgId];
      }
      assert descendants[..|descendants|] == descendants;
    }

    method BuildSubtree(parent: int) returns (result: seq<OrgTreeNode>)
      requires Climbing(orgs, nextId) && parent < nextId
      ensures result == BuildTree(orgs, parent, nextId)
      decreases nextId - parent
    {
      result := [];
      for i := 0 to |orgs|
        invariant result + Nodes(orgs, orgs[i..], parent, nextId) == BuildTree(orgs, parent, nextId)
      {
        var o := orgs[i];
        assert orgs[i..][0] == o && orgs[i..][1..] == orgs[i + 1..];
        if o.parentId == parent && o.isActive {
          var children := BuildSubtree(o.orgId);
          result := result + [OrgTreeNode(o, children)];
        }
      }
    }
  }
}

/** Subtree queries by path prefix, and what they mean in every reachable world. */
module OrgQueries {
  import opened Common
  import opened OrgForest
  import opened OrgRuns

  function WithPrefix(orgs: seq<OrgInfo>, prefix: string): seq<OrgInfo> {
    if orgs == [] then []
    else
      var last, rest := orgs[|orgs| - 1], WithPrefix(orgs[..|orgs| - 1], prefix);
      if prefix <= last.path then rest + [last] else rest
  }

  lemma {:induction false} PrefixMembers(orgs: seq<OrgInfo>, prefix: string)
    ensures forall o :: o in WithPrefix(orgs, prefix) <==> o in orgs && prefix <= o.path
  {
    if orgs != [] {
      PrefixMembers(orgs[..|orgs| - 1], prefix);
      assert orgs == orgs[..|orgs| - 1] + [orgs[|orgs| - 1]];
    }
  }

  lemma {:induction false} PrefixKeepsUnique(orgs: seq<OrgInfo>, prefix: string)
    requires UniqueIds(orgs)
    ensures UniqueIds(WithPrefix(orgs, prefix))
  {
    if orgs != [] {
      PrefixMembers(orgs[..|orgs| - 1], prefix);
      PrefixKeepsUnique(orgs[..|orgs| - 1], prefix);
    }
  }

  /** The test keeps order and multiplicity: it works list part by list part, one entry at a time. */
  lemma {:induction false} PrefixSplits(a: seq<OrgInfo>, b: seq<OrgInfo>, prefix: string)
    ensures WithPrefix(a + b, prefix) == WithPrefix(a, prefix) + WithPrefix(b, prefix)
    ensures |b| == 1 ==> WithPrefix(b, prefix) == if prefix <= b[0].path then b else []
    decreases |b|
  {
    if b == [] {
      assert a + b == a;
    } else {
      var n := |b| - 1;
      PrefixSplits(a, b[..n], prefix);
      assert (a + b)[..|a| + n] == a + b[..n] && (a + b)[|a| + n] == b[n];
      assert b == b[..n] + [b[n]];
    }
  }

  /** What lies below an organization by the prefix test; nothing for an unknown one. */
  function Descendants(orgs: seq<OrgInfo>, id: int): (r: seq<OrgInfo>)
    ensures forall o :: o in r <==> Exists(orgs, id) && o in orgs && orgs[IndexOf(orgs, id)].path + "/" <= o.path
  {
    var i := IndexOf(orgs, id);
    if i == |orgs| then []
    else
      PrefixMembers(orgs, orgs[i].path + "/");
      WithPrefix(orgs, orgs[i].path + "/")
  }

  function Ids(orgs: seq<OrgInfo>): (r: seq<int>)
    ensures |r| == |orgs| && forall i :: 0 <= i < |r| ==> r[i] == orgs[i].orgId
  {
    seq(|orgs|, i requires 0 <= i < |orgs| => orgs[i].orgId)
  }

  /** The organization itself, whether or not it exists, and its descendants. */
  function Scope(orgs: seq<OrgInfo>, id: int): seq<int> {
    [id] + Ids(Descendants(orgs, id))
  }

  // ---------------------------------------------------------------- descendants

  /** The prefix test on two live organizations decides creation-time ancestry. */
  lemma PrefixIffAncestor(w: World, x: OrgInfo, o: OrgInfo)
    requires Inv(w) && x in w.store.orgs && o in w.store.orgs
    ensures x.path + "/" <= o.path <==> StrictAncestor(w.born[x.orgId], w.born[o.orgId])
  {
    assert Tracked(x, w.born) && Tracked(o, w.born);
    var a, b := w.born[x.orgId], w.born[o.orgId];
    if StrictAncestor(a, b) {
      AncestorIsPrefix(a, b);
    }
    if x.path + "/" <= o.path {
      var c := PrefixFindsAncestor(a, b);
      AncestorsAreOlder(c, b);
      EqualPathsEqualIds(c, a);
      assert NoImpostor(o, x, w.born);
    }
  }

  lemma LiveIndex(orgs: seq<OrgInfo>, x: OrgInfo)
    requires UniqueIds(orgs) && x in orgs
    ensures Exists(orgs, x.orgId) && orgs[IndexOf(orgs, x.orgId)] == x
  {
    var k :| 0 <= k < |orgs| && orgs[k] == x;
  }

  lemma BelowIffBorn(w: World, x: OrgInfo, o: OrgInfo)
    requires Inv(w) && x in w.store.orgs
    ensures o in Descendants(w.store.orgs, x.orgId) <==>
            o in w.store.orgs && o.orgId in w.born && x.orgId in w.born
            && StrictAncestor(w.born[x.orgId], w.born[o.orgId])
  {
    LiveIndex(w.store.orgs, x);
    if o in w.store.orgs {
      assert Tracked(x, w.born) && Tracked(o, w.born);
      PrefixIffAncestor(w, x, o);
    }
  }

  lemma DescendantsUnique(orgs: seq<OrgInfo>, id: int)
    requires UniqueIds(orgs)
    ensures UniqueIds(Descendants(orgs, id))
  {
    var i := IndexOf(orgs, id);
    if i < |orgs| {
      PrefixKeepsUnique(orgs, orgs[i].path + "/");
    }
  }

  /** In every reachable world, a live organization's descendants are its creation-time subtree, once each. */
  lemma DescendantsAreSubtree(ops: seq<Op>, w: World, x: OrgInfo)
    requires IsRun(Init(), ops, w) && x in w.store.orgs
    ensures forall o :: o in Descendants(w.store.orgs, x.orgId) <==>
              o in w.store.orgs && o.orgId in w.born && x.orgId in w.born
              && StrictAncestor(w.born[x.orgId], w.born[o.orgId])
    ensures UniqueIds(Descendants(w.store.orgs, x.orgId))
  {
    RunKeepsInv(Init(), ops, w);
    DescendantsUnique(w.store.orgs, x.orgId);
    forall o {
      BelowIffBorn(w, x, o);
    }
  }

  /** In every reachable world, whatever lives directly below a live company is a department. */
  lemma CompaniesHoldDepartments(ops: seq<Op>, w: World, x: OrgInfo, o: OrgInfo)
    requires IsRun(Init(), ops, w) && x in w.store.orgs && o in w.store.orgs
    requires o.parentId == x.orgId && x.orgType == "company"
    ensures o.orgType == "department"
  {
    RunKeepsInv(Init(), ops, w);
    assert Tracked(x, w.born) && Tracked(o, w.born) && NoImpostor(o, x, w.born);
    var b := w.born[o.orgId];
    assert StrictAncestor(b.parent.value, b);
  }

  // ---------------------------------------------------------------- scopes

  /** Both ids are live, and the first was created above the second. */
  ghost predicate Governs(w: World, id: int, k: int) {
    && Exists(w.store.orgs, id) && Exists(w.store.orgs, k)
    && id in w.born && k in w.born
    && StrictAncestor(w.born[id], w.born[k])
  }

  lemma IdsMembers(orgs: seq<OrgInfo>, k: int)
    ensures k in Ids(orgs) <==> exists o :: o in orgs && o.orgId == k
  {
    if k in Ids(orgs) {
      var i :| 0 <= i < |orgs| && Ids(orgs)[i] == k;
      assert orgs[i] in orgs;
    }
    if o :| o in orgs && o.orgId == k {
      var i :| 0 <= i < |orgs| && orgs[i] == o;
      assert Ids(orgs)[i] == k;
    }
  }

  lemma DescendantIffGoverned(w: World, id: int, o: OrgInfo)
    requires Inv(w) && o in w.store.orgs
    ensures o in Descendants(w.store.orgs, id) <==> Governs(w, id, o.orgId)
  {
    LiveIndex(w.store.orgs, o);
    assert Tracked(o, w.born);
    if Exists(w.store.orgs, id) {
      var x := w.store.orgs[IndexOf(w.store.orgs, id)];
      assert x in w.store.orgs && Tracked(x, w.born);
      PrefixIffAncestor(w, x, o);
    }
  }

  lemma ScopeMembers(w: World, id: int, k: int)
    requires Inv(w)
    ensures k in Scope(w.store.orgs, id) <==> k == id || Governs(w, id, k)
  {
    var d := Descendants(w.store.orgs, id);
    IdsMembers(d, k);
    if o :| o in d && o.orgId == k {
      assert o in w.store.orgs;
      DescendantIffGoverned(w, id, o);
    }
    if Exists(w.store.orgs, k) {
      var o := w.store.orgs[IndexOf(w.store.orgs, k)];
      assert o in w.store.orgs;
      DescendantIffGoverned(w, id, o);
    }
  }

  ghost predicate Within(s: seq<int>, t: seq<int>) {
    forall k :: k in s ==> k in t
  }

  lemma AncestorScopeContains(w: World, i: int, j: int)
    requires Inv(w) && j in Scope(w.store.orgs, i)
    ensures Within(Scope(w.store.orgs, j), Scope(w.store.orgs, i))
  {
    ScopeMembers(w, i, j);
    forall k | k in Scope(w.store.orgs, j)
      ensures k in Scope(w.store.orgs, i)
    {
      ScopeMembers(w, j, k);
      ScopeMembers(w, i, k);
      if k != j && j != i {
        AncestryTransitive(w.born[i], w.born[j], w.born[k]);
      }
    }
  }

  /** Scopes form a laminar family: two of them are nested or disjoint, for live and dead ids alike. */
  lemma ScopesAreLaminar(ops: seq<Op>, w: World, i: int, j: int)
    requires IsRun(Init(), ops, w)
    ensures var s, t := Scope(w.store.orgs, i), Scope(w.store.orgs, j);
      Within(s, t) || Within(t, s) || forall k :: !(k in s && k in t)
  {
    RunKeepsInv(Init(), ops, w);
    var orgs := w.store.orgs;
    if k :| k in Scope(orgs, i) && k in Scope(orgs, j) {
      ScopeMembers(w, i, k);
      ScopeMembers(w, j, k);
      if i != k && j != k && i != j {
        AncestorsAreLinear(w.born[i], w.born[j], w.born[k]);
        assert orgs[IndexOf(orgs, i)] in orgs && orgs[IndexOf(orgs, j)] in orgs;
      }
      ScopeMembers(w, i, j);
      ScopeMembers(w, j, i);
      if j in Scope(orgs, i) {
        AncestorScopeContains(w, i, j);
      } else {
        AncestorScopeContains(w, j, i);
      }
    }
  }

  // ---------------------------------------------------------------- fresh ids

  /** The next id exceeds every id on a live chain and every parent_id, even a dangling one. */
  lemma NextIdIsFresh(w: World, o: OrgInfo, a: Birth)
    requires Inv(w) && o in w.store.orgs
    requires a == w.born[o.orgId] || StrictAncestor(a, w.born[o.orgId])
    ensures a.id < w.store.nextId && o.parentId < w.store.nextId
  {
    assert Tracked(o, w.born);
    if a != w.born[o.orgId] {
      AncestorsAreOlder(a, w.born[o.orgId]);
    }
  }

  /**
    Whatever was deleted before and however often the service restarted, a new organization starts
    without children and descendants.
   */
  lemma CreateAdoptsNobody(ops: seq<Op>, w: World, info: OrgInfo, now: string)
    requires IsRun(Init(), ops, w) && CreateStatus(w.store.orgs, info) == OK
    ensures var w', id := Step(w, Create(info, now)), w.store.nextId;
      && Exists(w'.store.orgs, id)
      && Descendants(w'.store.orgs, id) == []
      && forall o :: o in w'.store.orgs ==> o.parentId != id
  {
    RunKeepsInv(Init(), ops, w);
    CreateKeepsInv(w, info, now);
    var w', id := Step(w, Create(info, now)), w.store.nextId;
    var orgs' := w'.store.orgs;
    assert orgs'[|orgs'| - 1].orgId == id by { LastKeepsId(w, info, now); }
    forall o | o in orgs'
      ensures o.parentId != id
      ensures !(StrictAncestor(w'.born[id], w'.born[o.orgId]))
    {
      assert Tracked(o, w'.born);
      if StrictAncestor(w'.born[id], w'.born[o.orgId]) {
        AncestorsAreOlder(w'.born[id], w'.born[o.orgId]);
      }
    }
    var x := orgs'[IndexOf(orgs', id)];
    var d := Descendants(orgs', id);
    if d != [] {
      assert d[0] in d;
      PrefixIffAncestor(w', x, d[0]);
    }
  }

  lemma LastKeepsId(w: World, info: OrgInfo, now: string)
    requires CreateStatus(w.store.orgs, info) == OK
    ensures var orgs' := CreateOrg(w.store, info, now).orgs;
      |orgs'| == |w.store.orgs| + 1 && orgs'[|orgs'| - 1].orgId == w.store.nextId
  {
  }
}

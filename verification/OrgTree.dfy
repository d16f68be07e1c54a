/** build_tree and get_org_tree: recursion over parent_id, and what the tree contains. */
module OrgTree {
  import opened OrgForest
  import opened OrgRuns
  import opened OrgQueries

  datatype OrgTreeNode = OrgTreeNode(info: OrgInfo, children: seq<OrgTreeNode>)

  /** A child's id exceeds its parent's; this is what makes the recursion stop. */
  ghost predicate Climbing(orgs: seq<OrgInfo>, nextId: int) {
    forall o :: o in orgs ==> 0 <= o.parentId < o.orgId < nextId
  }

  lemma ReachableStoresClimb(ops: seq<Op>, w: World)
    requires IsRun(Init(), ops, w)
    ensures Climbing(w.store.orgs, w.store.nextId) && UniqueIds(w.store.orgs)
  {
    RunKeepsInv(Init(), ops, w);
    InvClimbs(w);
  }

  lemma InvClimbs(w: World)
    requires Inv(w)
    ensures Climbing(w.store.orgs, w.store.nextId)
  {
    forall o | o in w.store.orgs
      ensures 0 <= o.parentId < o.orgId < w.store.nextId
    {
      assert Tracked(o, w.born);
      var b := w.born[o.orgId];
      assert b.parent.Some? ==> WellBorn(b.parent.value);
    }
  }

  /** The nodes below `parent` for the organizations of `rest`, in their order. */
  function Nodes(orgs: seq<OrgInfo>, rest: seq<OrgInfo>, parent: int, nextId: int): seq<OrgTreeNode>
    requires Climbing(orgs, nextId) && Climbing(rest, nextId) && parent < nextId
    decreases nextId - parent, |rest|
  {
    if rest == [] then []
    else
      var o := rest[0];
      var tail := Nodes(orgs, rest[1..], parent, nextId);
      if o.parentId == parent && o.isActive
      then [OrgTreeNode(o, Nodes(orgs, orgs, o.orgId, nextId))] + tail
      else tail
  }

  function BuildTree(orgs: seq<OrgInfo>, parent: int, nextId: int): seq<OrgTreeNode>
    requires Climbing(orgs, nextId) && parent < nextId
  {
    Nodes(orgs, orgs, parent, nextId)
  }

  // ---------------------------------------------------------------- reading a tree

  function Preorder(nodes: seq<OrgTreeNode>): seq<OrgInfo> {
    if nodes == [] then []
    else [nodes[0].info] + Preorder(nodes[0].children) + Preorder(nodes[1..])
  }

  /** Every edge of the tree is a parent_id edge, and only active organizations appear. */
  predicate EdgesMatch(nodes: seq<OrgTreeNode>, parent: int) {
    nodes == [] ||
    (nodes[0].info.parentId == parent && nodes[0].info.isActive
     && EdgesMatch(nodes[0].children, nodes[0].info.orgId)
     && EdgesMatch(nodes[1..], parent))
  }

  /** The organization and its whole parent chain up to a root are live and active. */
  predicate Rooted(orgs: seq<OrgInfo>, id: int, nextId: int)
    requires Climbing(orgs, nextId)
    decreases if id < 0 then 0 else id
  {
    var i := IndexOf(orgs, id);
    i < |orgs| && orgs[i].isActive && (orgs[i].parentId == 0 || Rooted(orgs, orgs[i].parentId, nextId))
  }

  /** Climbing from `id` through live, active organizations, the first whose parent_id is `parent`; 0 if none. */
  function Toward(orgs: seq<OrgInfo>, parent: int, id: int, nextId: int): (c: int)
    requires Climbing(orgs, nextId)
    decreases if id < 0 then 0 else id
  {
    var i := IndexOf(orgs, id);
    if i == |orgs| || !orgs[i].isActive then 0
    else if orgs[i].parentId == parent then id
    else Toward(orgs, parent, orgs[i].parentId, nextId)
  }

  lemma {:induction false} RootedIffToward(orgs: seq<OrgInfo>, id: int, nextId: int)
    requires Climbing(orgs, nextId)
    ensures Rooted(orgs, id, nextId) <==> Toward(orgs, 0, id, nextId) != 0
    decreases if id < 0 then 0 else id
  {
    var i := IndexOf(orgs, id);
    if i < |orgs| {
      assert orgs[i] in orgs;
      if orgs[i].parentId != 0 {
        RootedIffToward(orgs, orgs[i].parentId, nextId);
      }
    }
  }

  lemma {:induction false} TowardIsBetween(orgs: seq<OrgInfo>, parent: int, id: int, nextId: int)
    requires Climbing(orgs, nextId)
    ensures var c := Toward(orgs, parent, id, nextId);
      c != 0 ==> parent < c <= id && exists o :: o in orgs && o.orgId == c && o.parentId == parent && o.isActive
    decreases if id < 0 then 0 else id
  {
    var i := IndexOf(orgs, id);
    if i < |orgs| && orgs[i].isActive {
      assert orgs[i] in orgs;
      if orgs[i].parentId != parent {
        TowardIsBetween(orgs, parent, orgs[i].parentId, nextId);
      }
    }
  }

  /** Climbing to `parent` arrives through its child h exactly when one starts at h or climbs to h. */
  lemma {:induction false} TowardThroughChild(orgs: seq<OrgInfo>, h: OrgInfo, id: int, nextId: int)
    requires Climbing(orgs, nextId) && UniqueIds(orgs) && h in orgs && h.isActive
    ensures Toward(orgs, h.parentId, id, nextId) == h.orgId <==>
            id == h.orgId || Toward(orgs, h.orgId, id, nextId) != 0
    decreases if id < 0 then 0 else id
  {
    LiveIndex(orgs, h);
    TowardIsBetween(orgs, h.orgId, id, nextId);
    TowardIsBetween(orgs, h.parentId, id, nextId);
    var i := IndexOf(orgs, id);
    if i < |orgs| && orgs[i].isActive && id != h.orgId {
      var p := orgs[i].parentId;
      assert orgs[i] in orgs;
      TowardIsBetween(orgs, h.orgId, p, nextId);
      TowardThroughChild(orgs, h, p, nextId);
    }
  }

  // ---------------------------------------------------------------- contents

  lemma {:induction false} EdgesOfNodes(orgs: seq<OrgInfo>, rest: seq<OrgInfo>, parent: int, nextId: int)
    requires Climbing(orgs, nextId) && Climbing(rest, nextId) && parent < nextId
    ensures EdgesMatch(Nodes(orgs, rest, parent, nextId), parent)
    decreases nextId - parent, |rest|
  {
    if rest != [] {
      EdgesOfNodes(orgs, rest[1..], parent, nextId);
      var o := rest[0];
      if o.parentId == parent && o.isActive {
        EdgesOfNodes(orgs, orgs, o.orgId, nextId);
        var nodes := Nodes(orgs, rest, parent, nextId);
        assert nodes[1..] == Nodes(orgs, rest[1..], parent, nextId);
      }
    }
  }

  function Count(b: bool): nat {
    if b then 1 else 0
  }

  predicate Leads(orgs: seq<OrgInfo>, rest: seq<OrgInfo>, parent: int, o: OrgInfo, nextId: int)
    requires Climbing(orgs, nextId)
  {
    var c := Toward(orgs, parent, o.orgId, nextId);
    o in orgs && c != 0 && exists i :: 0 <= i < |rest| && rest[i].orgId == c
  }

  /** An organization occurs once below `parent` if it climbs to it through `rest`, and otherwise not at all. */
  lemma {:induction false} OccurrencesInNodes(orgs: seq<OrgInfo>, rest: seq<OrgInfo>, parent: int, o: OrgInfo,
                                              nextId: int)
    requires Climbing(orgs, nextId) && Climbing(rest, nextId) && 0 <= parent < nextId
    requires UniqueIds(orgs) && UniqueIds(rest) && forall x :: x in rest ==> x in orgs
    ensures multiset(Preorder(Nodes(orgs, rest, parent, nextId)))[o] == Count(Leads(orgs, rest, parent, o, nextId))
    decreases nextId - parent, |rest|
  {
    if rest != [] {
      var h, tail := rest[0], rest[1..];
      assert rest == [h] + tail;
      OccurrencesInNodes(orgs, tail, parent, o, nextId);
      TowardIsBetween(orgs, parent, o.orgId, nextId);
      LeadsSplits(orgs, rest, parent, o, nextId);
      if h.parentId == parent && h.isActive {
        OccurrencesInNodes(orgs, orgs, h.orgId, o, nextId);
        PreorderSplits(OrgTreeNode(h, Nodes(orgs, orgs, h.orgId, nextId)), Nodes(orgs, tail, parent, nextId), o);
        LeadsBelow(orgs, h, o, nextId);
      }
    }
  }

  lemma PreorderSplits(n: OrgTreeNode, tail: seq<OrgTreeNode>, o: OrgInfo)
    ensures multiset(Preorder([n] + tail))[o]
         == Count(n.info == o) + multiset(Preorder(n.children))[o] + multiset(Preorder(tail))[o]
  {
    assert ([n] + tail)[1..] == tail;
    assert Preorder([n] + tail) == [n.info] + Preorder(n.children) + Preorder(tail);
  }

  lemma LeadsSplits(orgs: seq<OrgInfo>, rest: seq<OrgInfo>, parent: int, o: OrgInfo, nextId: int)
    requires Climbing(orgs, nextId) && UniqueIds(orgs) && UniqueIds(rest) && rest != []
    requires forall x :: x in rest ==> x in orgs
    ensures var h, tail := rest[0], rest[1..];
      && var through := o in orgs && h.orgId == Toward(orgs, parent, o.orgId, nextId) && h.orgId != 0;
      && Count(Leads(orgs, rest, parent, o, nextId)) == Count(through) + Count(Leads(orgs, tail, parent, o, nextId))
      && (through ==> h.parentId == parent && h.isActive)
  {
    var h, tail, c := rest[0], rest[1..], Toward(orgs, parent, o.orgId, nextId);
    assert forall i :: 0 <= i < |tail| ==> tail[i] == rest[i + 1];
    assert forall i :: 0 < i < |rest| ==> rest[i] == tail[i - 1];
    TowardIsBetween(orgs, parent, o.orgId, nextId);
    if h.orgId == c && c != 0 {
      var x :| x in orgs && x.orgId == c && x.parentId == parent && x.isActive;
      assert h in rest;
      LiveIndex(orgs, x);
      LiveIndex(orgs, h);
    }
  }

  lemma LeadsBelow(orgs: seq<OrgInfo>, h: OrgInfo, o: OrgInfo, nextId: int)
    requires Climbing(orgs, nextId) && UniqueIds(orgs) && h in orgs && h.isActive
    ensures Count(o in orgs && h.orgId == Toward(orgs, h.parentId, o.orgId, nextId) && h.orgId != 0)
         == Count(h == o) + Count(Leads(orgs, orgs, h.orgId, o, nextId))
  {
    if o in orgs {
      LiveIndex(orgs, h);
      LiveIndex(orgs, o);
      TowardThroughChild(orgs, h, o.orgId, nextId);
      TowardIsBetween(orgs, h.orgId, o.orgId, nextId);
    }
  }

  /**
    In every reachable world the tree holds each active organization whose chain to a root is
    live and active exactly once, and nothing else, and its edges are the parent_id edges.
   */
  lemma TreeIsExact(ops: seq<Op>, w: World, o: OrgInfo)
    requires IsRun(Init(), ops, w)
    ensures var orgs, n := w.store.orgs, w.store.nextId;
      && Climbing(orgs, n) && 0 < n
      && var tree := BuildTree(orgs, 0, n);
      && EdgesMatch(tree, 0)
      && multiset(Preorder(tree))[o] == Count(o in orgs && Rooted(orgs, o.orgId, n))
  {
    RunKeepsInv(Init(), ops, w);
    TreeHoldsRooted(w, o);
    EdgesOfNodes(w.store.orgs, w.store.orgs, 0, w.store.nextId);
  }

  lemma LeadsEverywhere(orgs: seq<OrgInfo>, parent: int, o: OrgInfo, nextId: int)
    requires Climbing(orgs, nextId)
    ensures Leads(orgs, orgs, parent, o, nextId) <==> o in orgs && Toward(orgs, parent, o.orgId, nextId) != 0
  {
    TowardIsBetween(orgs, parent, o.orgId, nextId);
  }

  // ---------------------------------------------------------------- tree against index

  /** Every organization from o up to, but not including, the birth a is live and active. */
  ghost predicate ActiveUpTo(w: World, a: Birth, b: Birth)
  {
    && b.id in w.born && w.born[b.id] == b
    && (exists o :: o in w.store.orgs && o.orgId == b.id && o.isActive)
    && b.parent.Some?
    && (b.parent.value == a || ActiveUpTo(w, a, b.parent.value))
  }

  lemma {:induction false} ActiveUpToIsAncestry(w: World, a: Birth, b: Birth)
    requires ActiveUpTo(w, a, b)
    ensures StrictAncestor(a, b)
  {
    if b.parent.value != a {
      ActiveUpToIsAncestry(w, a, b.parent.value);
    }
  }

  lemma ActiveUpToIsBelow(w: World, x: OrgInfo, o: OrgInfo)
    requires Inv(w) && x in w.store.orgs && o in w.store.orgs
    ensures x.orgId in w.born && o.orgId in w.born
    ensures ActiveUpTo(w, w.born[x.orgId], w.born[o.orgId]) ==> o in Descendants(w.store.orgs, x.orgId)
  {
    assert Tracked(x, w.born) && Tracked(o, w.born);
    LiveIndex(w.store.orgs, o);
    LiveIndex(w.store.orgs, x);
    if ActiveUpTo(w, w.born[x.orgId], w.born[o.orgId]) {
      ActiveUpToIsAncestry(w, w.born[x.orgId], w.born[o.orgId]);
      DescendantIffGoverned(w, x.orgId, o);
    }
  }

  /** Climbing arrives at x exactly when nothing on the way up from o is deleted or inactive. */
  lemma {:induction false} TowardIffActive(w: World, x: OrgInfo, o: OrgInfo)
    requires Inv(w) && x in w.store.orgs && o in w.store.orgs
    ensures Climbing(w.store.orgs, w.store.nextId)
    ensures x.orgId in w.born && o.orgId in w.born
    ensures Toward(w.store.orgs, x.orgId, o.orgId, w.store.nextId) != 0 <==>
            ActiveUpTo(w, w.born[x.orgId], w.born[o.orgId])
    decreases o.orgId
  {
    InvClimbs(w);
    var orgs := w.store.orgs;
    assert Tracked(x, w.born) && Tracked(o, w.born);
    LiveIndex(orgs, o);
    LiveIndex(orgs, x);
    var a, b := w.born[x.orgId], w.born[o.orgId];
    if o.isActive && b.parent.Some? {
      assert NoImpostor(o, x, w.born) && StrictAncestor(b.parent.value, b);
      var i := IndexOf(orgs, o.parentId);
      if o.parentId != x.orgId && i < |orgs| {
        assert NoImpostor(o, orgs[i], w.born);
        TowardIffActive(w, x, orgs[i]);
      }
    }
  }

  /**
    The recursive query refines the indexed one: in every reachable world the tree below a live x
    holds each organization once that the index finds below x and that nothing deleted or inactive
    separates from x, and it holds nothing else.
   */
  lemma TreeRefinesIndex(ops: seq<Op>, w: World, x: OrgInfo, o: OrgInfo)
    requires IsRun(Init(), ops, w) && x in w.store.orgs
    ensures var orgs, n := w.store.orgs, w.store.nextId;
      && Climbing(orgs, n) && x.orgId < n && x.orgId in w.born
      && multiset(Preorder(BuildTree(orgs, x.orgId, n)))[o] ==
         Count(o in Descendants(orgs, x.orgId) && o.orgId in w.born && ActiveUpTo(w, w.born[x.orgId], w.born[o.orgId]))
  {
    RunKeepsInv(Init(), ops, w);
    InvClimbs(w);
    assert Tracked(x, w.born);
    var orgs, n := w.store.orgs, w.store.nextId;
    OccurrencesInNodes(orgs, orgs, x.orgId, o, n);
    LeadsEverywhere(orgs, x.orgId, o, n);
    if o in orgs {
      TowardIffActive(w, x, o);
      ActiveUpToIsBelow(w, x, o);
    }
  }

  // ---------------------------------------------------------------- deactivation

  /** Whatever the tree holds has every live organization it was created below active. */
  lemma {:induction false} RootedIsActiveAbove(w: World, x: OrgInfo, o: OrgInfo)
    requires Inv(w) && x in w.store.orgs && o in w.store.orgs && Climbing(w.store.orgs, w.store.nextId)
    requires Rooted(w.store.orgs, o.orgId, w.store.nextId)
    requires x.orgId in w.born && o.orgId in w.born && StrictAncestor(w.born[x.orgId], w.born[o.orgId])
    ensures x.isActive
    decreases o.orgId
  {
    var orgs, b := w.store.orgs, w.born[o.orgId];
    LiveIndex(orgs, o);
    LiveIndex(orgs, x);
    assert Tracked(o, w.born) && Tracked(x, w.born) && WellBorn(b.parent.value);
    if b.parent.value != w.born[x.orgId] {
      var p := orgs[IndexOf(orgs, o.parentId)];
      assert p in orgs && Tracked(p, w.born) && NoImpostor(o, p, w.born) && StrictAncestor(b.parent.value, b);
      RootedIsActiveAbove(w, x, p);
    }
  }

  /** An inactive organization is not in the tree, and neither is anything created below it. */
  lemma InactiveHidesBelow(w: World, x: OrgInfo, o: OrgInfo)
    requires Inv(w) && x in w.store.orgs && !x.isActive && Climbing(w.store.orgs, w.store.nextId)
    requires o == x || o in Descendants(w.store.orgs, x.orgId)
    ensures !Rooted(w.store.orgs, o.orgId, w.store.nextId)
  {
    LiveIndex(w.store.orgs, x);
    BelowIffBorn(w, x, o);
    if o != x && Rooted(w.store.orgs, o.orgId, w.store.nextId) {
      RootedIsActiveAbove(w, x, o);
    }
  }

  /** After an update that deactivates, neither that organization nor anything below it is in the tree. */
  lemma DeactivatedLeavesTree(ops: seq<Op>, w: World, id: int, info: OrgInfo, now: string, o: OrgInfo)
    requires IsRun(Init(), ops, w) && Exists(w.store.orgs, id) && !info.isActive
    ensures var s' := Step(w, Update(id, info, now)).store;
      && Climbing(s'.orgs, s'.nextId) && 0 < s'.nextId
      && (o.orgId == id || o in Descendants(s'.orgs, id) ==>
            multiset(Preorder(BuildTree(s'.orgs, 0, s'.nextId)))[o] == 0)
  {
    RunKeepsInv(Init(), ops, w);
    UpdateKeepsInv(w, id, info, now);
    var w' := Step(w, Update(id, info, now));
    TreeHoldsRooted(w', o);
    UpdateOnFields(w, id, info, now);
    var i := IndexOf(w.store.orgs, id);
    var x := w'.store.orgs[i];
    assert x in w'.store.orgs && x.orgId == id && !x.isActive;
    LiveIndex(w'.store.orgs, x);
    if o in w'.store.orgs && (o.orgId == id || o in Descendants(w'.store.orgs, id)) {
      LiveIndex(w'.store.orgs, o);
      InactiveHidesBelow(w', x, o);
    }
  }

  lemma TreeHoldsRooted(w: World, o: OrgInfo)
    requires Inv(w)
    ensures var orgs, n := w.store.orgs, w.store.nextId;
      && Climbing(orgs, n) && 0 < n
      && multiset(Preorder(BuildTree(orgs, 0, n)))[o] == Count(o in orgs && Rooted(orgs, o.orgId, n))
  {
    InvClimbs(w);
    var orgs, n := w.store.orgs, w.store.nextId;
    OccurrencesInNodes(orgs, orgs, 0, o, n);
    RootedIffToward(orgs, o.orgId, n);
    LeadsEverywhere(orgs, 0, o, n);
  }
}

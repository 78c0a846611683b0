/** The staged store a subtree manifest is checked in. */
module Staging {
  import opened Order
  import opened JsonValue
  import opened Forest
  import opened Store
  import opened Manifest
  import opened ManifestTrees

  lemma {:induction false} DistinctExactly(s: seq<Id>)
    ensures |Elements(s)| <= |s|
    ensures |Elements(s)| == |s| <==> NoDuplicates(s)
  {
    if s != [] {
      var rest := s[1..];
      DistinctExactly(rest);
      assert s == [s[0]] + rest;
      assert Elements(s) == {s[0]} + Elements(rest);
      assert forall i | 0 <= i < |rest| :: rest[i] == s[i + 1];
      if s[0] in rest {
        var i :| 0 <= i < |rest| && rest[i] == s[0];
        assert s[0] == s[i + 1];
        assert Elements(s) == Elements(rest);
      } else {
        assert NoDuplicates(rest) ==> NoDuplicates(s);
      }
    } else {
      assert Elements(s) == {};
    }
  }

  ghost predicate HasChild(nodes: seq<Node>, p: Id, c: Id) {
    exists n | n in nodes :: n.id == c && n.parent == Some(p)
  }

  /** `children[p]` lists the ids of the nodes whose parent is `p`. */
  ghost predicate ListingIndex(nodes: seq<Node>, children: map<Id, seq<Id>>) {
    forall p, c :: HasChild(nodes, p, c) <==> (p in children && c in children[p])
  }

  function AppendChild(children: map<Id, seq<Id>>, n: Node): map<Id, seq<Id>> {
    if n.parent == None then children
    else
      var p := n.parent.value;
      children[p := (if p in children then children[p] else []) + [n.id]]
  }

  lemma ListingIndexSnoc(nodes: seq<Node>, children: map<Id, seq<Id>>, n: Node)
    requires ListingIndex(nodes, children)
    ensures ListingIndex(nodes + [n], AppendChild(children, n))
  {
    var all, children' := nodes + [n], AppendChild(children, n);
    forall p, c ensures HasChild(all, p, c) <==> (p in children' && c in children'[p]) {
      assert HasChild(nodes, p, c) <==> (p in children && c in children[p]);
      HasChildSnoc(nodes, n, p, c);
    }
  }

  lemma HasChildSnoc(nodes: seq<Node>, n: Node, p: Id, c: Id)
    ensures HasChild(nodes + [n], p, c) <==> HasChild(nodes, p, c) || (n.id == c && n.parent == Some(p))
  {
    var all := nodes + [n];
    assert all[|nodes|] == n && forall x | x in nodes :: x in all;
    assert forall x | x in all :: x in nodes || x == n;
  }

  /** Inside the listing the index is the child relation of the detached forest. */
  lemma ListingIndexIsChild(nodes: seq<Node>, children: map<Id, seq<Id>>, p: Id, c: Id)
    requires nodes != [] && NoDuplicates(IdsOf(nodes)) && ParentOutside(nodes) && ListingIndex(nodes, children)
    requires p in IdsOf(nodes)
    ensures IsChild(Detached(nodes), p, c) <==> p in children && c in children[p]
  {
    DetachedAt(nodes);
    assert HasChild(nodes, p, c) <==> p in children && c in children[p];
    if HasChild(nodes, p, c) {
      var n :| n in nodes && n.id == c && n.parent == Some(p);
      var i :| 0 <= i < |nodes| && nodes[i] == n;
      assert i != 0;
    }
    if IsChild(Detached(nodes), p, c) {
      assert c in IdsOf(nodes);
      var i :| 0 <= i < |nodes| && IdsOf(nodes)[i] == c;
      assert nodes[i] in nodes && i != 0;
    }
  }

  class ManifestStore {
    ghost const listing: seq<Node>
    const rootId: Id
    const nodes: Nodes
    const children: map<Id, seq<Id>>

    /** Loaded from a listing of distinct ids with parents first. */
    ghost predicate Valid() {
      && listing != [] && rootId == listing[0].id
      && NoDuplicates(IdsOf(listing)) && ParentOutside(listing) && ParentsEarlier(listing)
      && nodes == Listed(listing) && ListingIndex(listing, children)
    }

    ghost function Forest(): Nodes
      requires Valid()
    {
      Detached(listing)
    }

    constructor (ghost listing: seq<Node>, rootId: Id, nodes: Nodes, children: map<Id, seq<Id>>)
      ensures this.listing == listing && this.rootId == rootId && this.nodes == nodes && this.children == children
    {
      this.listing := listing;
      this.rootId := rootId;
      this.nodes := nodes;
      this.children := children;
    }

    /** `children`: sorted by (kind, id). */
    method ChildrenOf(id: Id) returns (r: seq<Id>)
      requires Valid() && id in IdsOf(listing)
      ensures r == Children(Forest(), id)
    {
      KeyLessTotal();
      var ids := if id in children then children[id] else [];
      ListedAt(listing);
      DetachedAt(listing);
      forall c ensures c in ids <==> IsChild(Forest(), id, c) { ListingIndexIsChild(listing, children, id, c); }
      forall c | c in ids ensures c in nodes && nodes[c].kind == Forest()[c].kind { SameKind(listing, c); }
      var keys := Sort(set c | c in ids :: (nodes[c].kind, c), KeyLess);
      assert (set c | c in ids :: (nodes[c].kind, c)) == ChildKeys(Forest(), id);
      r := Ids(keys);
    }

    /** `walk`: the explicit stack again. */
    method Walk() returns (out: seq<Node>)
      requires Valid()
      ensures IsForest(Forest()) && IdsOf(out) == Preorder(Forest(), [rootId])
      ensures forall n | n in out :: n.id in nodes && n == nodes[n.id]
    {
      var pending: seq<Id> := [rootId];
      out := [];
      ghost var m := Forest();
      DetachedForest(listing);
      ListedAt(listing);
      DetachedAt(listing);
      SubtreeWithin(m, rootId);
      WalkStart(m, rootId);
      assert forall x | x in m :: x in IdsOf(listing) && x in nodes && nodes[x].id == x by { ListedIds(listing); }
      hide Preorder, IsForest, Reverse, Detached, Listed, ListingIndex, ParentsEarlier, Children;
      while pending != []
        invariant IdsOf(out) + Preorder(m, Reverse(pending)) == Preorder(m, [rootId])
        invariant forall n | n in out :: n.id in nodes && n == nodes[n.id]
        decreases |Preorder(m, Reverse(pending))|
      {
        var id := pending[|pending| - 1];
        IdWalkStep(m, rootId, IdsOf(out), pending);
        IdsOfSnoc(out, nodes[id]);
        out := out + [nodes[id]];
        var kids := ChildrenOf(id);
        pending := pending[..|pending| - 1] + Reverse(kids);
      }
      WalkOver(m, IdsOf(out));
    }
  }

  lemma SameKind(listing: seq<Node>, c: Id)
    requires listing != [] && NoDuplicates(IdsOf(listing)) && c in Detached(listing)
    ensures c in Listed(listing) && Listed(listing)[c].kind == Detached(listing)[c].kind
  {
    ListedAt(listing);
    DetachedAt(listing);
    assert c in IdsOf(listing);
    var i :| 0 <= i < |listing| && IdsOf(listing)[i] == c;
  }

  lemma ListedIds(listing: seq<Node>)
    requires listing != [] && NoDuplicates(IdsOf(listing))
    ensures forall x | x in Detached(listing) ::
      x in IdsOf(listing) && x in Listed(listing) && Listed(listing)[x].id == x
  {
    ListedAt(listing);
    DetachedAt(listing);
    forall x | x in Detached(listing) ensures x in Listed(listing) && Listed(listing)[x].id == x {
      assert x in IdsOf(listing);
      var i :| 0 <= i < |listing| && IdsOf(listing)[i] == x;
    }
  }

  lemma IdWalkStep(m: Nodes, root: Id, done: seq<Id>, pending: seq<Id>)
    requires IsForest(m) && root in m && pending != []
    requires done + Preorder(m, Reverse(pending)) == Preorder(m, [root])
    ensures
      var top := pending[|pending| - 1];
      var next := pending[..|pending| - 1] + Reverse(Children(m, top));
      && top in m && (done + [top]) + Preorder(m, Reverse(next)) == Preorder(m, [root])
      && |Preorder(m, Reverse(next))| < |Preorder(m, Reverse(pending))|
  {
    var top := pending[|pending| - 1];
    var next := pending[..|pending| - 1] + Reverse(Children(m, top));
    PopStep(m, pending);
    SubtreeWithin(m, root);
    hide Preorder, Reverse;
    Shift(done, top, Preorder(m, Reverse(next)));
  }

  lemma WalkOver(m: Nodes, done: seq<Id>)
    requires IsForest(m)
    ensures done + Preorder(m, Reverse([])) == done
  {
  }

  /** The constructor of `_ManifestStore`: it accepts exactly the canonical preorders. */
  method Stage(rootId: Id, listing: seq<Node>) returns (r: Result<ManifestStore>)
    requires listing != [] && rootId == listing[0].id
    ensures r.Ok? <==> IsCanonicalPreorder(listing)
    ensures r.Ok? ==> fresh(r.value) && r.value.Valid() && r.value.listing == listing && r.value.rootId == rootId
    ensures r.Err? ==> r.error == IntegrityError
  {
    hide IsCanonicalPreorder, IsForest, Preorder, Children;
    AcceptedExactly(listing);
    var ids := IdsOf(listing);
    DistinctExactly(ids);
    if |Elements(ids)| != |ids| { return Err(IntegrityError); }
    if listing[0].parent.Some? && listing[0].parent.value in Elements(ids) { return Err(IntegrityError); }
    var nodes: Nodes, children: map<Id, seq<Id>> := map[], map[];
    for index := 0 to |listing|
      invariant nodes == Listed(listing[..index]) && ListingIndex(listing[..index], children)
      invariant ParentsEarlier(listing[..index])
    {
      var node := listing[index];
      StageStep(listing, index);
      ParentsStep(listing, index);
      if index > 0 && (node.parent == None || node.parent.value !in nodes) { return Err(IntegrityError); }
      ListingIndexSnoc(listing[..index], children, node);
      nodes := nodes[node.id := node];
      children := AppendChild(children, node);
    }
    assert listing[..|listing|] == listing;
    var staged := new ManifestStore(listing, rootId, nodes, children);
    var walked := staged.Walk();
    if IdsOf(walked) != ids { return Err(IntegrityError); }
    r := Ok(staged);
  }

  lemma StageStep(listing: seq<Node>, index: nat)
    requires index < |listing| && NoDuplicates(IdsOf(listing))
    ensures listing[..index + 1] == listing[..index] + [listing[index]]
    ensures Listed(listing[..index + 1]) == Listed(listing[..index])[listing[index].id := listing[index]]
    ensures Listed(listing[..index]).Keys == Elements(IdsOf(listing[..index]))
  {
    var before := listing[..index];
    assert listing[..index + 1] == before + [listing[index]];
    assert forall i | 0 <= i < index :: IdsOf(before)[i] == IdsOf(listing)[i];
    ListedAt(before);
  }

  lemma ParentsStep(listing: seq<Node>, index: nat)
    requires index < |listing|
    ensures ParentsEarlier(listing[..index + 1]) <==>
      && ParentsEarlier(listing[..index])
      && (index > 0 ==> listing[index].parent.Some? && listing[index].parent.value in IdsOf(listing[..index]))
    ensures ParentsEarlier(listing) ==> ParentsEarlier(listing[..index + 1])
  {
    var before, after := listing[..index], listing[..index + 1];
    assert forall i | 0 <= i <= index :: after[..i] == listing[..i];
    assert forall i | 0 <= i <= index :: before[..i] == listing[..i];
  }
}

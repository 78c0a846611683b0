/** Canonical subtree listings, and the checker that accepts exactly those. */
module Manifest {
  import opened Order
  import opened JsonValue
  import opened Forest
  import opened Store

  // ---------------------------------------------------------------- the reference: trees

  datatype Tree = Tree(node: Node, kids: seq<Tree>)

  function Flat(t: Tree): seq<Node> {
    [t.node] + FlatAll(t.kids)
  }

  /** The depth-first preorders of several trees, one after the other. */
  function FlatAll(ts: seq<Tree>): seq<Node> {
    if ts == [] then [] else Flat(ts[0]) + FlatAll(ts[1..])
  }

  function KeyOfNode(n: Node): Key {
    (n.kind, n.id)
  }

  /** Every kid names its parent, and siblings are sorted by (kind, id). */
  ghost predicate Canonical(t: Tree) {
    && (forall i | 0 <= i < |t.kids| :: t.kids[i].node.parent == Some(t.node.id))
    && (forall i, j | 0 <= i < j < |t.kids| :: KeyLess(KeyOfNode(t.kids[i].node), KeyOfNode(t.kids[j].node)))
    && forall k | k in t.kids :: Canonical(k)
  }

  /** The id of the parent is not listed. */
  predicate ParentOutside(nodes: seq<Node>)
    requires nodes != []
  {
    nodes[0].parent.Some? ==> nodes[0].parent.value !in IdsOf(nodes)
  }

  /** The sorted depth-first preorder of a tree rooted at the first node. */
  ghost predicate IsCanonicalPreorder(nodes: seq<Node>) {
    exists t :: Flat(t) == nodes && Canonical(t) && NoDuplicates(IdsOf(nodes)) && ParentOutside(nodes)
  }

  // ---------------------------------------------------------------- the checker, as a function

  function Listed(nodes: seq<Node>): Nodes {
    if nodes == [] then map[] else Listed(nodes[..|nodes| - 1])[nodes[|nodes| - 1].id := nodes[|nodes| - 1]]
  }

  /** The listed nodes, with the first one cut off from its parent outside. */
  function Detached(nodes: seq<Node>): Nodes
    requires nodes != []
  {
    Listed(nodes)[nodes[0].id := nodes[0].(parent := None)]
  }

  ghost predicate ParentsEarlier(nodes: seq<Node>) {
    forall i | 0 < i < |nodes| :: nodes[i].parent.Some? && nodes[i].parent.value in IdsOf(nodes[..i])
  }

  lemma {:induction false} ListedAt(nodes: seq<Node>)
    requires NoDuplicates(IdsOf(nodes))
    ensures Listed(nodes).Keys == Elements(IdsOf(nodes))
    ensures forall i | 0 <= i < |nodes| :: nodes[i].id in Listed(nodes) && Listed(nodes)[nodes[i].id] == nodes[i]
  {
    if nodes != [] {
      var k := |nodes| - 1;
      var init := nodes[..k];
      assert nodes == init + [nodes[k]];
      IdsOfSnoc(init, nodes[k]);
      assert forall i | 0 <= i < k :: IdsOf(init)[i] == IdsOf(nodes)[i];
      ListedAt(init);
      forall i | 0 <= i < |nodes| ensures nodes[i].id in Listed(nodes) && Listed(nodes)[nodes[i].id] == nodes[i] {
        assert IdsOf(nodes)[i] == nodes[i].id && IdsOf(nodes)[k] == nodes[k].id;
        if i < k { assert init[i] == nodes[i]; }
      }
    }
  }

  lemma DetachedAt(nodes: seq<Node>)
    requires nodes != [] && NoDuplicates(IdsOf(nodes))
    ensures Detached(nodes).Keys == Elements(IdsOf(nodes))
    ensures forall i | 0 < i < |nodes| :: nodes[i].id in Detached(nodes) && Detached(nodes)[nodes[i].id] == nodes[i]
    ensures nodes[0].id in Detached(nodes) && Detached(nodes)[nodes[0].id] == nodes[0].(parent := None)
  {
    ListedAt(nodes);
    assert forall i | 0 <= i < |nodes| :: IdsOf(nodes)[i] == nodes[i].id;
    assert nodes[0].id in Elements(IdsOf(nodes));
  }

  /** A node listed after its parent keeps the listing a forest. */
  lemma DetachedPosition(nodes: seq<Node>, x: Id)
    requires nodes != [] && NoDuplicates(IdsOf(nodes)) && x in Detached(nodes)
    ensures exists i :: 0 <= i < |nodes| && nodes[i].id == x
  {
    DetachedAt(nodes);
    assert x in IdsOf(nodes);
  }

  lemma DetachedParent(nodes: seq<Node>, x: Id)
    requires nodes != [] && NoDuplicates(IdsOf(nodes)) && ParentsEarlier(nodes)
    requires x in Detached(nodes) && Detached(nodes)[x].parent.Some?
    ensures Detached(nodes)[x].parent.value in Detached(nodes)
    ensures
      var p := Detached(nodes)[x].parent.value;
      && (exists i :: 0 <= i < |nodes| && nodes[i].id == x) && (exists i :: 0 <= i < |nodes| && nodes[i].id == p)
      && PositionOf(nodes, p) < PositionOf(nodes, x)
  {
    DetachedAt(nodes);
    DetachedPosition(nodes, x);
    var i := PositionOf(nodes, x);
    var p := nodes[i].parent.value;
    var earlier := IdsOf(nodes[..i]);
    var j :| 0 <= j < |earlier| && earlier[j] == p;
    assert nodes[j].id == p;
    PositionUnique(nodes, p, j);
  }

  lemma DetachedForest(nodes: seq<Node>)
    requires nodes != [] && NoDuplicates(IdsOf(nodes)) && ParentsEarlier(nodes)
    ensures IsForest(Detached(nodes))
  {
    hide Detached, PositionOf, IdsOf, ParentsEarlier;
    var m := Detached(nodes);
    DetachedKeyed(nodes);
    forall x | x in m ensures exists i :: 0 <= i < |nodes| && nodes[i].id == x { DetachedPosition(nodes, x); }
    var rank := map x | x in m :: |nodes| - PositionOf(nodes, x);
    forall x | x in m && m[x].parent.Some?
      ensures m[x].parent.value in m && rank[x] < rank[m[x].parent.value]
    {
      DetachedParent(nodes, x);
    }
    assert Heights(m, rank);
  }

  lemma DetachedKeyed(nodes: seq<Node>)
    requires nodes != [] && NoDuplicates(IdsOf(nodes))
    ensures forall x | x in Detached(nodes) :: Detached(nodes)[x].id == x
  {
    DetachedAt(nodes);
    forall x | x in Detached(nodes) ensures Detached(nodes)[x].id == x {
      assert x in IdsOf(nodes);
    }
  }

  ghost function PositionOf(nodes: seq<Node>, x: Id): (i: nat)
    requires exists i :: 0 <= i < |nodes| && nodes[i].id == x
    ensures i < |nodes| && nodes[i].id == x
  {
    var i :| 0 <= i < |nodes| && nodes[i].id == x;
    i
  }

  lemma PositionUnique(nodes: seq<Node>, x: Id, j: nat)
    requires NoDuplicates(IdsOf(nodes)) && j < |nodes| && nodes[j].id == x
    ensures PositionOf(nodes, x) == j
  {
    var i := PositionOf(nodes, x);
    assert IdsOf(nodes)[i] == IdsOf(nodes)[j];
  }

  /** What `_ManifestStore` accepts: distinct ids, the root's parent outside, parents first, and a walk
      that visits the nodes in the listed order. */
  ghost predicate Accepted(nodes: seq<Node>)
    requires nodes != []
  {
    && NoDuplicates(IdsOf(nodes))
    && ParentOutside(nodes)
    && ParentsEarlier(nodes)
    && (DetachedForest(nodes); Preorder(Detached(nodes), [nodes[0].id]) == IdsOf(nodes))
  }

  // ---------------------------------------------------------------- accepted listings are canonical

  lemma TreesStep(m: Nodes, ids: seq<Id>)
    requires IsForest(m) && ids != [] && forall x | x in ids :: x in m
    ensures forall x | x in Children(m, ids[0]) || x in ids[1..] :: x in m
    ensures ids[0] in m && Top(m, Children(m, ids[0])) < Top(m, ids) && Top(m, ids[1..]) <= Top(m, ids)
  {
    ChildrenBelow(m, ids[0]);
    TopMono(m, ids);
    assert ids[0] in ids;
  }

  /** The trees at `ids` of a forest. */
  ghost function TreesAt(m: Nodes, ids: seq<Id>): (ts: seq<Tree>)
    requires IsForest(m) && forall x | x in ids :: x in m
    ensures |ts| == |ids| && forall i | 0 <= i < |ids| :: ts[i].node == m[ids[i]]
    decreases Top(m, ids), |ids|
  {
    hide IsForest, Children, Top;
    if ids == [] then []
    else
      TreesStep(m, ids);
      [Tree(m[ids[0]], TreesAt(m, Children(m, ids[0])))] + TreesAt(m, ids[1..])
  }

  lemma {:induction false} TreesCanonical(m: Nodes, ids: seq<Id>)
    requires IsForest(m) && forall x | x in ids :: x in m
    ensures forall t | t in TreesAt(m, ids) :: Canonical(t)
    decreases Top(m, ids), |ids|
  {
    if ids != [] {
      ChildrenBelow(m, ids[0]);
      TopMono(m, ids);
      TreesCanonical(m, Children(m, ids[0]));
      TreesCanonical(m, ids[1..]);
      TreesHead(m, ids);
      hide TreesAt, Children, IsForest, Canonical;
    }
  }

  lemma TreesHead(m: Nodes, ids: seq<Id>)
    requires IsForest(m) && ids != [] && forall x | x in ids :: x in m
    requires forall t | t in TreesAt(m, Children(m, ids[0])) :: Canonical(t)
    ensures TreesAt(m, ids) == [TreesAt(m, ids)[0]] + TreesAt(m, ids[1..]) && Canonical(TreesAt(m, ids)[0])
  {
    assert TreesAt(m, ids)[0] == Tree(m[ids[0]], TreesAt(m, Children(m, ids[0])));
    assert m[ids[0]].id == ids[0];
    hide TreesAt, Children, IsForest, Canonical;
    KidsCanonical(m, ids[0]);
    MakeCanonical(m[ids[0]], TreesAt(m, Children(m, ids[0])));
  }

  lemma MakeCanonical(n: Node, kids: seq<Tree>)
    requires forall i | 0 <= i < |kids| :: kids[i].node.parent == Some(n.id)
    requires forall i, j | 0 <= i < j < |kids| :: KeyLess(KeyOfNode(kids[i].node), KeyOfNode(kids[j].node))
    requires forall k | k in kids :: Canonical(k)
    ensures Canonical(Tree(n, kids))
  {
  }

  /** Kids built from sorted children name their parent and are sorted. */
  lemma KidsCanonical(m: Nodes, x: Id)
    requires IsForest(m) && x in m
    ensures
      var ts := TreesAt(m, Children(m, x));
      && (forall i | 0 <= i < |ts| :: ts[i].node.parent == Some(x))
      && (forall i, j | 0 <= i < j < |ts| :: KeyLess(KeyOfNode(ts[i].node), KeyOfNode(ts[j].node)))
  {
    var kids := Children(m, x);
    var ts := TreesAt(m, kids);
    ChildrenSorted(m, x);
    assert forall p | p in m :: m[p].id == p;
    hide TreesAt, Children, IsForest;
    forall i | 0 <= i < |ts| ensures ts[i].node.parent == Some(x) && KeyOfNode(ts[i].node) == KeyOf(m, kids[i]) {
      assert kids[i] in kids;
    }
    hide KeyOf, KeyOfNode;
  }

  lemma {:induction false} TreesFlat(m: Nodes, ids: seq<Id>)
    requires IsForest(m) && forall x | x in ids :: x in m
    ensures IdsOf(FlatAll(TreesAt(m, ids))) == Preorder(m, ids)
    ensures forall n | n in FlatAll(TreesAt(m, ids)) :: n.id in m && n == m[n.id]
    decreases Top(m, ids), |ids|
  {
    if ids != [] {
      ChildrenBelow(m, ids[0]);
      TopMono(m, ids);
      TreesFlat(m, Children(m, ids[0]));
      TreesFlat(m, ids[1..]);
      var below, rest := FlatAll(TreesAt(m, Children(m, ids[0]))), FlatAll(TreesAt(m, ids[1..]));
      FlatAllCons(Tree(m[ids[0]], TreesAt(m, Children(m, ids[0]))), TreesAt(m, ids[1..]));
      IdsOfParts(m[ids[0]], below, rest);
    }
  }

  lemma FlatAllCons(t: Tree, ts: seq<Tree>)
    ensures FlatAll([t] + ts) == [t.node] + FlatAll(t.kids) + FlatAll(ts)
  {
    assert ([t] + ts)[1..] == ts;
  }

  lemma IdsOfParts(n: Node, below: seq<Node>, rest: seq<Node>)
    ensures IdsOf([n] + below + rest) == [n.id] + IdsOf(below) + IdsOf(rest)
  {
  }

  /** The tree of an accepted listing, built from its own parent links. */
  lemma AcceptedIsCanonical(nodes: seq<Node>)
    requires nodes != [] && Accepted(nodes)
    ensures IsCanonicalPreorder(nodes)
  {
    var m, root := Detached(nodes), nodes[0].id;
    DetachedForest(nodes);
    DetachedAt(nodes);
    var ts := TreesAt(m, Children(m, root));
    TreesCanonical(m, Children(m, root));
    KidsCanonical(m, root);
    TreesFlat(m, Children(m, root));
    PreorderOne(m, root);
    hide TreesAt, Children, IsForest, Detached, Preorder, ParentsEarlier, FlatAll;
    IdsOfParts(nodes[0], FlatAll(ts), []);
    assert [nodes[0]] + FlatAll(ts) + [] == [nodes[0]] + FlatAll(ts);
    FlatIsListing(nodes, FlatAll(ts));
    hide Canonical;
    MakeCanonical(nodes[0], ts);
    assert Flat(Tree(nodes[0], ts)) == nodes;
  }

  lemma FlatIsListing(nodes: seq<Node>, below: seq<Node>)
    requires nodes != [] && NoDuplicates(IdsOf(nodes))
    requires IdsOf([nodes[0]] + below) == IdsOf(nodes)
    requires forall n | n in below :: n.id in Detached(nodes) && n == Detached(nodes)[n.id]
    ensures [nodes[0]] + below == nodes
  {
    DetachedAt(nodes);
    var flat := [nodes[0]] + below;
    assert |flat| == |IdsOf(flat)| == |nodes|;
    forall i | 0 <= i < |nodes| ensures flat[i] == nodes[i] {
      assert IdsOf(flat)[i] == IdsOf(nodes)[i];
      if i > 0 { assert flat[i] == below[i - 1] && below[i - 1] in below; }
    }
  }
}

/** Every canonical listing passes the manifest checker. */
module ManifestTrees {
  import opened JsonValue
  import opened Forest
  import opened Store
  import opened Manifest

  /** `u` is `t` or one of its subtrees. */
  ghost predicate Sub(u: Tree, t: Tree) {
    u == t || exists k | k in t.kids :: Sub(u, k)
  }

  lemma {:induction false} SubCanonical(u: Tree, t: Tree)
    requires Canonical(t) && Sub(u, t)
    ensures Canonical(u)
  {
    if u != t {
      var k :| k in t.kids && Sub(u, k);
      SubCanonical(u, k);
    }
  }

  lemma {:induction false} FlatAllMembers(ts: seq<Tree>, n: Node)
    ensures n in FlatAll(ts) <==> exists k | k in ts :: n in Flat(k)
  {
    if ts != [] {
      FlatAllMembers(ts[1..], n);
      assert n in FlatAll(ts) <==> n in Flat(ts[0]) || n in FlatAll(ts[1..]);
      hide FlatAll, Flat;
      assert forall k | k in ts :: k == ts[0] || k in ts[1..];
      assert ts[0] in ts && forall k | k in ts[1..] :: k in ts;
    }
  }

  lemma {:induction false} SubFlat(u: Tree, t: Tree, n: Node)
    requires Sub(u, t) && n in Flat(u)
    ensures n in Flat(t)
  {
    if u != t {
      var k :| k in t.kids && Sub(u, k);
      SubFlat(u, k, n);
      FlatAllMembers(t.kids, n);
    }
  }

  lemma {:induction false} SubTransitive(u: Tree, v: Tree, t: Tree)
    requires Sub(u, v) && Sub(v, t)
    ensures Sub(u, t)
  {
    if v != t {
      var k :| k in t.kids && Sub(v, k);
      SubTransitive(u, v, k);
    }
  }

  /** Every listed node is the root of a subtree. */
  lemma {:induction false} FlatOwner(t: Tree, n: Node) returns (u: Tree)
    requires n in Flat(t)
    ensures Sub(u, t) && u.node == n
  {
    if n == t.node {
      u := t;
    } else {
      FlatAllMembers(t.kids, n);
      var k :| k in t.kids && n in Flat(k);
      u := FlatOwner(k, n);
    }
  }

  /** A subtree other than the whole is a kid of some subtree. */
  lemma {:induction false} SubParent(u: Tree, t: Tree) returns (v: Tree)
    requires Sub(u, t) && u != t
    ensures Sub(v, t) && u in v.kids
  {
    if u in t.kids {
      v := t;
    } else {
      var k :| k in t.kids && Sub(u, k);
      v := SubParent(u, k);
    }
  }

  lemma NoDuplicatesParts(a: seq<Id>, b: seq<Id>)
    requires NoDuplicates(a + b)
    ensures NoDuplicates(a) && NoDuplicates(b) && forall x | x in a :: x !in b
  {
    var s := a + b;
    forall i, j | 0 <= i < |a| && 0 <= j < |b| ensures a[i] != b[j] { assert s[i] == a[i] && s[|a| + j] == b[j]; }
    forall i, j | 0 <= i < j < |a| ensures a[i] != a[j] { assert s[i] == a[i] && s[j] == a[j]; }
    forall i, j | 0 <= i < j < |b| ensures b[i] != b[j] { assert s[|a| + i] == b[i] && s[|a| + j] == b[j]; }
  }

  lemma IdIn(s: seq<Node>, n: Node)
    requires n in s
    ensures n.id in IdsOf(s)
  {
    var i :| 0 <= i < |s| && s[i] == n;
    assert IdsOf(s)[i] == n.id;
  }

  /** With distinct ids, a subtree is known by the id of its root. */
  lemma {:induction false} SubUnique(ts: seq<Tree>, j: Tree, k: Tree, u: Tree, v: Tree)
    requires NoDuplicates(IdsOf(FlatAll(ts))) && j in ts && k in ts && Sub(u, j) && Sub(v, k)
    requires u.node.id == v.node.id
    ensures u == v
    decreases ts
  {
    var head, rest := ts[0], ts[1..];
    IdsOfConcat(Flat(head), FlatAll(rest));
    NoDuplicatesParts(IdsOf(Flat(head)), IdsOf(FlatAll(rest)));
    SubFlat(u, j, u.node);
    SubFlat(v, k, v.node);
    if j in rest && k in rest {
      SubUnique(rest, j, k, u, v);
    } else if j == head && k == head {
      SubUniqueOne(head, u, v);
    } else {
      SubApart(head, rest, if j == head then u.node else v.node, if j == head then v.node else u.node,
               if j == head then k else j);
    }
  }

  lemma SubApart(head: Tree, rest: seq<Tree>, a: Node, b: Node, k: Tree)
    requires forall x | x in IdsOf(Flat(head)) :: x !in IdsOf(FlatAll(rest))
    requires a in Flat(head) && k in rest && b in Flat(k)
    ensures a.id != b.id
  {
    FlatAllMembers(rest, b);
    IdIn(Flat(head), a);
    IdIn(FlatAll(rest), b);
  }

  lemma {:induction false} SubUniqueOne(t: Tree, u: Tree, v: Tree)
    requires NoDuplicates(IdsOf(Flat(t))) && Sub(u, t) && Sub(v, t) && u.node.id == v.node.id
    ensures u == v
    decreases t
  {
    IdsOfConcat([t.node], FlatAll(t.kids));
    NoDuplicatesParts(IdsOf([t.node]), IdsOf(FlatAll(t.kids)));
    assert IdsOf([t.node])[0] == t.node.id;
    if u != t && v != t {
      var j :| j in t.kids && Sub(u, j);
      var k :| k in t.kids && Sub(v, k);
      SubUnique(t.kids, j, k, u, v);
    } else if u != v {
      var w := if u == t then v else u;
      var k :| k in t.kids && Sub(w, k);
      SubFlat(w, k, w.node);
      FlatAllMembers(t.kids, w.node);
      IdIn(FlatAll(t.kids), w.node);
    }
  }

  // ---------------------------------------------------------------- parents come first

  /** Entry `j` has parent `p` or a parent listed before it. */
  ghost predicate ParentListed(s: seq<Node>, p: Id, j: nat)
    requires j < |s|
  {
    s[j].parent.Some? && (s[j].parent.value == p || s[j].parent.value in IdsOf(s[..j]))
  }

  lemma ListedShift(a: seq<Node>, s: seq<Node>, p: Id, q: Id, j: nat)
    requires j < |s| && ParentListed(s, p, j) && (p == q || p in IdsOf(a))
    ensures ParentListed(a + s, q, |a| + j)
  {
    assert (a + s)[..|a| + j] == a + s[..j];
    IdsOfConcat(a, s[..j]);
  }

  lemma ListedPrefix(s: seq<Node>, b: seq<Node>, p: Id, j: nat)
    requires j < |s| && ParentListed(s, p, j)
    ensures ParentListed(s + b, p, j)
  {
    assert (s + b)[..j] == s[..j];
  }

  /** Below a node, parents come first. */
  lemma {:induction false} FlatAllParents(ts: seq<Tree>, p: Id, j: nat)
    requires forall k | k in ts :: k.node.parent == Some(p) && Canonical(k)
    requires j < |FlatAll(ts)|
    ensures ParentListed(FlatAll(ts), p, j)
    decreases ts
  {
    var t, rest := ts[0], ts[1..];
    assert t in ts && forall k | k in rest :: k in ts;
    var below := FlatAll(t.kids);
    assert Flat(t) == [t.node] + below && FlatAll(ts) == Flat(t) + FlatAll(rest);
    if j == 0 {
      assert FlatAll(ts)[0] == t.node;
    } else if j <= |below| {
      FlatAllParents(t.kids, t.node.id, j - 1);
      assert IdsOf([t.node])[0] == t.node.id;
      ListedShift([t.node], below, t.node.id, p, j - 1);
      ListedPrefix(Flat(t), FlatAll(rest), p, j);
    } else {
      FlatAllParents(rest, p, j - |Flat(t)|);
      ListedShift(Flat(t), FlatAll(rest), p, p, j - |Flat(t)|);
    }
  }

  lemma FlatParentsEarlier(t: Tree)
    requires Canonical(t)
    ensures ParentsEarlier(Flat(t))
  {
    var nodes := Flat(t);
    forall i | 0 < i < |nodes| ensures nodes[i].parent.Some? && nodes[i].parent.value in IdsOf(nodes[..i]) {
      FlatAllParents(t.kids, t.node.id, i - 1);
      assert nodes[i] == FlatAll(t.kids)[i - 1];
      assert nodes[..i] == [t.node] + FlatAll(t.kids)[..i - 1];
      IdsOfConcat([t.node], FlatAll(t.kids)[..i - 1]);
      assert IdsOf([t.node])[0] == t.node.id;
    }
  }

  // ---------------------------------------------------------------- the walk of a canonical listing

  ghost predicate IsListingOf(t: Tree, nodes: seq<Node>) {
    nodes == Flat(t) && Canonical(t) && NoDuplicates(IdsOf(nodes)) && ParentOutside(nodes)
  }

  function RootIds(ts: seq<Tree>): seq<Id> {
    seq(|ts|, i requires 0 <= i < |ts| => ts[i].node.id)
  }

  /** In the listing of a tree, the children of a subtree's root are exactly its kids. */
  lemma ListingChild(t: Tree, nodes: seq<Node>, u: Tree, c: Id)
    requires IsListingOf(t, nodes) && Sub(u, t)
    ensures IsChild(Detached(nodes), u.node.id, c) <==> c in RootIds(u.kids)
  {
    var m := Detached(nodes);
    DetachedAt(nodes);
    if IsChild(m, u.node.id, c) {
      assert c in IdsOf(nodes);
      var i :| 0 <= i < |nodes| && IdsOf(nodes)[i] == c;
      assert i != 0;
      var w := FlatOwner(t, nodes[i]);
      assert w != t by {
        assert IdsOf(nodes)[0] == t.node.id;
      }
      var v := SubParent(w, t);
      SubCanonical(v, t);
      SubUniqueOne(t, u, v);
      var k :| 0 <= k < |v.kids| && v.kids[k] == w;
      assert RootIds(u.kids)[k] == c;
    }
    if c in RootIds(u.kids) {
      var k :| 0 <= k < |u.kids| && RootIds(u.kids)[k] == c;
      ListingKid(t, nodes, u, k);
    }
  }

  /** A kid is listed, after the root, with its own parent. */
  lemma ListingKid(t: Tree, nodes: seq<Node>, u: Tree, k: nat)
    requires IsListingOf(t, nodes) && Sub(u, t) && k < |u.kids|
    ensures Sub(u.kids[k], t)
    ensures u.kids[k].node.id in Detached(nodes) && Detached(nodes)[u.kids[k].node.id] == u.kids[k].node
    ensures u.kids[k].node.parent == Some(u.node.id)
  {
    var w := u.kids[k];
    SubCanonical(u, t);
    assert Sub(w, u) by { assert w in u.kids && Sub(w, w); }
    SubTransitive(w, u, t);
    SubFlat(w, t, w.node);
    var i :| 0 <= i < |nodes| && nodes[i] == w.node;
    if i == 0 {
      SubFlat(u, t, u.node);
      IdIn(nodes, u.node);
    }
    DetachedAt(nodes);
  }

  lemma ListingChildren(t: Tree, nodes: seq<Node>, u: Tree)
    requires IsListingOf(t, nodes) && Sub(u, t)
    ensures Children(Detached(nodes), u.node.id) == RootIds(u.kids)
  {
    var m, ids := Detached(nodes), RootIds(u.kids);
    forall c ensures c in ids <==> IsChild(m, u.node.id, c) { ListingChild(t, nodes, u, c); }
    SubCanonical(u, t);
    forall i, j | 0 <= i < j < |ids| ensures KeyLess(KeyOf(m, ids[i]), KeyOf(m, ids[j])) {
      ListingKid(t, nodes, u, i);
      ListingKid(t, nodes, u, j);
      assert KeyLess(KeyOfNode(u.kids[i].node), KeyOfNode(u.kids[j].node));
    }
    ChildrenUnique(m, u.node.id, ids);
  }

  /** The walk of the listing at a list of subtrees is their preorder. */
  lemma {:induction false} ListingPreorder(t: Tree, nodes: seq<Node>, ts: seq<Tree>)
    requires IsListingOf(t, nodes) && IsForest(Detached(nodes)) && forall k | k in ts :: Sub(k, t)
    ensures Preorder(Detached(nodes), RootIds(ts)) == IdsOf(FlatAll(ts))
    decreases ts
  {
    if ts != [] {
      var u, rest := ts[0], ts[1..];
      var m := Detached(nodes);
      assert u in ts && RootIds(ts)[1..] == RootIds(rest);
      ListingChildren(t, nodes, u);
      forall k | k in u.kids ensures Sub(k, t) {
        var i :| 0 <= i < |u.kids| && u.kids[i] == k;
        ListingKid(t, nodes, u, i);
      }
      ListingPreorder(t, nodes, u.kids);
      ListingPreorder(t, nodes, rest);
      IdsOfParts(u.node, FlatAll(u.kids), FlatAll(rest));
    }
  }

  lemma CanonicalIsAccepted(nodes: seq<Node>)
    requires nodes != [] && IsCanonicalPreorder(nodes)
    ensures Accepted(nodes)
  {
    var t :| Flat(t) == nodes && Canonical(t) && NoDuplicates(IdsOf(nodes)) && ParentOutside(nodes);
    FlatParentsEarlier(t);
    DetachedForest(nodes);
    ListingPreorder(t, nodes, [t]);
    assert RootIds([t]) == [nodes[0].id];
    assert [t][1..] == [] && FlatAll([t]) == Flat(t);
  }

  /** The checker accepts exactly the canonical preorders. */
  lemma AcceptedExactly(nodes: seq<Node>)
    requires nodes != []
    ensures Accepted(nodes) <==> IsCanonicalPreorder(nodes)
  {
    if Accepted(nodes) { AcceptedIsCanonical(nodes); }
    if IsCanonicalPreorder(nodes) { CanonicalIsAccepted(nodes); }
  }
}

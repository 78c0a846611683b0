/** How preorders and ancestry react when a forest gains, loses or relabels nodes. */
module ForestChange {
  import opened Order
  import opened JsonValue
  import opened Forest

  // ---------------------------------------------------------------- same shape

  /** Two preorders agree when every listed node has the same children. */
  lemma {:induction false} PreorderCongruence(m: Nodes, m': Nodes, ids: seq<Id>)
    requires IsForest(m) && IsForest(m')
    requires forall x | x in Preorder(m, ids) :: Children(m, x) == Children(m', x)
    ensures Preorder(m, ids) == Preorder(m', ids)
    decreases Top(m, ids), |ids|
  {
    if ids != [] {
      var below, rest := Preorder(m, Children(m, ids[0])), Preorder(m, ids[1..]);
      assert Preorder(m, ids) == [ids[0]] + below + rest;
      assert ids[0] in Preorder(m, ids);
      assert forall x | x in below :: x in Preorder(m, ids);
      assert forall x | x in rest :: x in Preorder(m, ids);
      ChildrenBelow(m, ids[0]);
      TopMono(m, ids);
      PreorderCongruence(m, m', Children(m, ids[0]));
      PreorderCongruence(m, m', ids[1..]);
    }
  }

  /** Same ids, parents and kinds; results and metadata may differ. */
  ghost predicate SameShape(m: Nodes, m': Nodes) {
    && m.Keys == m'.Keys
    && forall x | x in m :: m'[x].id == m[x].id && m'[x].parent == m[x].parent && m'[x].kind == m[x].kind
  }

  lemma SameShapeForest(m: Nodes, m': Nodes)
    requires IsForest(m) && SameShape(m, m')
    ensures IsForest(m')
  {
    assert Heights(m', Height(m));
  }

  lemma SameChildren(m: Nodes, m': Nodes, p: Id)
    requires SameShape(m, m')
    ensures Children(m, p) == Children(m', p)
  {
    assert ChildKeys(m, p) == ChildKeys(m', p);
  }

  lemma SameShapePreorder(m: Nodes, m': Nodes, ids: seq<Id>)
    requires IsForest(m) && SameShape(m, m')
    ensures IsForest(m') && Preorder(m, ids) == Preorder(m', ids)
  {
    SameShapeForest(m, m');
    forall x | x in Preorder(m, ids) ensures Children(m, x) == Children(m', x) {
      SameChildren(m, m', x);
    }
    PreorderCongruence(m, m', ids);
  }

  // ---------------------------------------------------------------- a new leaf

  ghost predicate IsNewLeaf(m: Nodes, n: Node) {
    n.id !in m && (n.parent.Some? ==> n.parent.value in m)
  }

  lemma InsertForest(m: Nodes, n: Node)
    requires IsForest(m) && IsNewLeaf(m, n)
    ensures IsForest(m[n.id := n])
  {
    var m' := m[n.id := n];
    var rank := map x | x in m' :: if x == n.id then 0 else Height(m)[x] + 1;
    assert Heights(m', rank);
  }

  lemma {:induction false} InsertAncestor(m: Nodes, n: Node, a: Id, x: Id)
    requires IsForest(m) && IsNewLeaf(m, n) && IsForest(m[n.id := n]) && x in m
    ensures IsAncestor(m[n.id := n], a, x) <==> IsAncestor(m, a, x)
    decreases Ceiling(Height(m)) - Height(m)[x]
  {
    if m[x].parent.Some? { InsertAncestor(m, n, a, m[x].parent.value); }
  }

  /** The new node joins exactly the subtrees its parent lies in. */
  lemma InsertSubtree(m: Nodes, n: Node, a: Id)
    requires IsForest(m) && IsNewLeaf(m, n) && a in m
    ensures IsForest(m[n.id := n])
    ensures Elements(Preorder(m[n.id := n], [a])) ==
      Elements(Preorder(m, [a])) + if n.parent.Some? && IsAncestor(m, a, n.parent.value) then {n.id} else {}
  {
    InsertForest(m, n);
    var m' := m[n.id := n];
    forall x
      ensures x in Preorder(m', [a]) <==>
        x in Preorder(m, [a]) || (x == n.id && n.parent.Some? && IsAncestor(m, a, n.parent.value))
    {
      SubtreeMembers(m, a, x);
      SubtreeMembers(m', a, x);
      if x in m {
        InsertAncestor(m, n, a, x);
      } else if x == n.id && n.parent.Some? {
        InsertAncestor(m, n, a, n.parent.value);
      }
    }
  }

  lemma SubtreeMembers(m: Nodes, a: Id, x: Id)
    requires IsForest(m) && a in m
    ensures x in Preorder(m, [a]) <==> IsAncestor(m, a, x)
  {
    PreorderMembers(m, [a], x);
    assert a in [a];
  }

  lemma SubtreeDistinct(m: Nodes, a: Id)
    requires IsForest(m) && a in m
    ensures NoDuplicates(Preorder(m, [a]))
  {
    PreorderDistinct(m, [a]);
  }

  /** Entry `j` of a listing is one of `ids` or comes after its parent. */
  ghost predicate AfterParent(m: Nodes, ids: seq<Id>, s: seq<Id>, j: nat)
    requires j < |s|
  {
    s[j] in ids || (s[j] in m && m[s[j]].parent.Some? && m[s[j]].parent.value in s[..j])
  }

  lemma {:induction false} ParentsFirst(m: Nodes, ids: seq<Id>, j: nat)
    requires IsForest(m) && j < |Preorder(m, ids)|
    ensures AfterParent(m, ids, Preorder(m, ids), j)
    decreases Top(m, ids), |ids|
  {
    hide Preorder, AfterParent, Children, IsForest, Top;
    NothingListed(m, ids);
    var a, kids := ids[0], Children(m, ids[0]);
    var below, rest := Preorder(m, kids), Preorder(m, ids[1..]);
    var all := [a] + below + rest;
    PreorderUnfold(m, ids);
    ChildrenBelow(m, a);
    TopMono(m, ids);
    if j == 0 {
      ParentsFirstHead(m, ids, all);
    } else if j <= |below| {
      ParentsFirst(m, kids, j - 1);
      ParentsFirstBelow(m, ids, below, rest, j - 1);
    } else {
      ParentsFirst(m, ids[1..], j - 1 - |below|);
      ParentsFirstRest(m, ids, below, rest, j - 1 - |below|);
    }
  }

  lemma NothingListed(m: Nodes, ids: seq<Id>)
    requires IsForest(m)
    ensures Preorder(m, ids) != [] ==> ids != []
  {
  }

  lemma ParentsFirstHead(m: Nodes, ids: seq<Id>, all: seq<Id>)
    requires ids != [] && all != [] && all[0] == ids[0]
    ensures AfterParent(m, ids, all, 0)
  {
  }

  lemma ParentsFirstBelow(m: Nodes, ids: seq<Id>, below: seq<Id>, rest: seq<Id>, i: nat)
    requires ids != [] && i < |below| && AfterParent(m, Children(m, ids[0]), below, i)
    ensures AfterParent(m, ids, [ids[0]] + below + rest, i + 1)
  {
    assert ([ids[0]] + below + rest)[..i + 1] == [ids[0]] + below[..i];
  }

  lemma ParentsFirstRest(m: Nodes, ids: seq<Id>, below: seq<Id>, rest: seq<Id>, i: nat)
    requires ids != [] && i < |rest| && AfterParent(m, ids[1..], rest, i)
    ensures AfterParent(m, ids, [ids[0]] + below + rest, 1 + |below| + i)
  {
    assert ([ids[0]] + below + rest)[..1 + |below| + i] == [ids[0]] + below + rest[..i];
    assert rest[i] in ids[1..] ==> rest[i] in ids;
  }

  lemma {:induction false} RootAbove(m: Nodes, x: Id) returns (r: Id)
    requires IsForest(m) && x in m
    ensures IsAncestor(m, r, x) && r in m && m[r].parent == None
    decreases Ceiling(Height(m)) - Height(m)[x]
  {
    if m[x].parent == None { r := x; } else { r := RootAbove(m, m[x].parent.value); }
  }

  // ---------------------------------------------------------------- removed subtrees

  function Without(s: seq<Id>, removed: set<Id>): seq<Id> {
    if s == [] then []
    else (if s[0] in removed then [] else [s[0]]) + Without(s[1..], removed)
  }

  lemma {:induction false} WithoutAppend(a: seq<Id>, b: seq<Id>, removed: set<Id>)
    ensures Without(a + b, removed) == Without(a, removed) + Without(b, removed)
  {
    if a == [] {
      assert a + b == b;
    } else {
      assert (a + b)[1..] == a[1..] + b;
      WithoutAppend(a[1..], b, removed);
    }
  }

  lemma {:induction false} WithoutMembers(s: seq<Id>, removed: set<Id>, x: Id)
    ensures x in Without(s, removed) <==> x in s && x !in removed
  {
    if s != [] { WithoutMembers(s[1..], removed, x); }
  }

  lemma {:induction false} WithoutNothing(s: seq<Id>, removed: set<Id>)
    requires forall x | x in s :: x !in removed
    ensures Without(s, removed) == s
  {
    if s != [] { WithoutNothing(s[1..], removed); }
  }

  lemma {:induction false} WithoutAll(s: seq<Id>, removed: set<Id>)
    requires forall x | x in s :: x in removed
    ensures Without(s, removed) == []
  {
    if s != [] { WithoutAll(s[1..], removed); }
  }

  lemma {:induction false} WithoutSorted(m: Nodes, m': Nodes, s: seq<Id>, removed: set<Id>)
    requires m' == m - removed && SortedByKey(m, s) && forall x | x in s :: x in m
    ensures SortedByKey(m', Without(s, removed))
  {
    if s != [] {
      var rest := Without(s[1..], removed);
      WithoutSorted(m, m', s[1..], removed);
      if s[0] !in removed {
        var r := [s[0]] + rest;
        forall i, j | 0 <= i < j < |r| ensures KeyLess(KeyOf(m', r[i]), KeyOf(m', r[j])) {
          assert r[j] == rest[j - 1];
          if i == 0 {
            WithoutMembers(s[1..], removed, r[j]);
            assert r[j] in s[1..];
            var k :| 1 <= k < |s| && s[k] == r[j];
            assert KeyLess(KeyOf(m, s[0]), KeyOf(m, s[k]));
            assert s[k] in s && r[j] in m' && r[0] in m';
          } else {
            assert r[i] == rest[i - 1];
          }
        }
      }
    }
  }

  /** With a node goes its whole subtree. */
  ghost predicate DownClosed(m: Nodes, removed: set<Id>) {
    forall x | x in m && m[x].parent.Some? && m[x].parent.value in removed :: x in removed
  }

  lemma DropForest(m: Nodes, removed: set<Id>)
    requires IsForest(m) && DownClosed(m, removed)
    ensures IsForest(m - removed)
  {
    var m' := m - removed;
    assert Heights(m', map x | x in m' :: Height(m)[x]);
  }

  lemma DropChildren(m: Nodes, removed: set<Id>, p: Id)
    ensures Children(m - removed, p) == Without(Children(m, p), removed)
  {
    var r := Without(Children(m, p), removed);
    ChildrenSorted(m, p);
    WithoutSorted(m, m - removed, Children(m, p), removed);
    forall c ensures c in r <==> IsChild(m - removed, p, c) {
      WithoutMembers(Children(m, p), removed, c);
    }
    ChildrenUnique(m - removed, p, r);
  }

  lemma {:induction false} DownClosedSubtree(m: Nodes, removed: set<Id>, a: Id, x: Id)
    requires IsForest(m) && DownClosed(m, removed) && a in removed && IsAncestor(m, a, x)
    ensures x in removed
    decreases if x in m then Ceiling(Height(m)) - Height(m)[x] else 0
  {
    if a != x { DownClosedSubtree(m, removed, a, m[x].parent.value); }
  }

  /** The walk after a removal is the old walk with the removed nodes left out. */
  lemma {:induction false} DropPreorder(m: Nodes, removed: set<Id>, ids: seq<Id>)
    requires IsForest(m) && DownClosed(m, removed) && forall x | x in ids :: x in m
    ensures IsForest(m - removed)
    ensures Preorder(m - removed, Without(ids, removed)) == Without(Preorder(m, ids), removed)
    decreases Top(m, ids), |ids|
  {
    DropForest(m, removed);
    if ids != [] {
      ChildrenBelow(m, ids[0]);
      TopMono(m, ids);
      DropPreorder(m, removed, Children(m, ids[0]));
      DropPreorder(m, removed, ids[1..]);
      if ids[0] in removed {
        DropRemovedHead(m, removed, ids);
        assert Without(ids, removed) == Without(ids[1..], removed);
      } else {
        DropKeptHead(m, removed, ids);
      }
    }
  }

  lemma DropRemovedHead(m: Nodes, removed: set<Id>, ids: seq<Id>)
    requires IsForest(m) && DownClosed(m, removed) && ids != [] && ids[0] in m && ids[0] in removed
    ensures Without(Preorder(m, ids), removed) == Without(Preorder(m, ids[1..]), removed)
  {
    var head := [ids[0]] + Preorder(m, Children(m, ids[0]));
    forall x | x in head ensures x in removed {
      if x != ids[0] { BelowIsProper(m, ids[0], x); }
      DownClosedSubtree(m, removed, ids[0], x);
    }
    WithoutAll(head, removed);
    WithoutAppend(head, Preorder(m, ids[1..]), removed);
  }

  lemma DropKeptHead(m: Nodes, removed: set<Id>, ids: seq<Id>)
    requires IsForest(m) && IsForest(m - removed) && ids != [] && ids[0] !in removed
    requires Preorder(m - removed, Without(Children(m, ids[0]), removed)) ==
      Without(Preorder(m, Children(m, ids[0])), removed)
    requires Preorder(m - removed, Without(ids[1..], removed)) == Without(Preorder(m, ids[1..]), removed)
    ensures Preorder(m - removed, Without(ids, removed)) == Without(Preorder(m, ids), removed)
  {
    var below, rest := Preorder(m, Children(m, ids[0])), Preorder(m, ids[1..]);
    DropChildren(m, removed, ids[0]);
    var after := [ids[0]] + Without(ids[1..], removed);
    assert Without(ids, removed) == after && after[1..] == Without(ids[1..], removed);
    WithoutAppend([ids[0]] + below, rest, removed);
    WithoutAppend([ids[0]], below, removed);
    assert Without([ids[0]], removed) == [ids[0]];
  }
}

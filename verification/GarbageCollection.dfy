/** Offline garbage collection of pruned subtrees. */
module GarbageCollection {
  import opened Order
  import opened JsonValue
  import opened Forest
  import opened ForestChange
  import opened Store
  import opened Seal
  import opened Merge
  import opened MergeStores

  /** `node.meta.get("pruned") is True`. */
  predicate Pruned(n: Node) {
    "pruned" in n.meta && n.meta["pruned"] == Bool(true)
  }

  /** The nodes at or below a pruned node among `seen`. */
  ghost function DoomedBy(m: Nodes, seen: set<Id>): set<Id>
    requires IsForest(m)
  {
    set x | x in m && exists a | a in seen :: a in m && Pruned(m[a]) && IsAncestor(m, a, x)
  }

  /** The nodes with a pruned ancestor-or-self. */
  ghost function Doomed(m: Nodes): set<Id>
    requires IsForest(m)
  {
    DoomedBy(m, m.Keys)
  }

  /** Looking at one more node: a removed or unpruned one adds nothing, a pruned one adds its walk. */
  lemma DoomedStep(m: Nodes, seen: set<Id>, a: Id)
    requires IsForest(m) && a in m
    ensures DoomedBy(m, seen + {a}) ==
      if a !in DoomedBy(m, seen) && Pruned(m[a]) then DoomedBy(m, seen) + Elements(Preorder(m, [a]))
      else DoomedBy(m, seen)
  {
    SubtreeWithin(m, a);
    forall x
      ensures x in DoomedBy(m, seen + {a}) <==> x in DoomedBy(m, seen) || (Pruned(m[a]) && x in Preorder(m, [a]))
    {
      SubtreeMembers(m, a, x);
      DoomedOne(m, seen, a, x);
    }
    if a in DoomedBy(m, seen) {
      forall x | x in Preorder(m, [a]) ensures x in DoomedBy(m, seen) {
        SubtreeMembers(m, a, x);
        DoomedBelow(m, seen, a, x);
      }
    }
    hide DoomedBy, Preorder, IsForest;
  }

  lemma DoomedOne(m: Nodes, seen: set<Id>, a: Id, x: Id)
    requires IsForest(m) && a in m
    ensures x in DoomedBy(m, seen + {a}) <==> x in DoomedBy(m, seen) || (x in m && Pruned(m[a]) && IsAncestor(m, a, x))
  {
    hide IsForest, IsAncestor;
  }

  lemma DoomedBelow(m: Nodes, seen: set<Id>, a: Id, x: Id)
    requires IsForest(m) && a in DoomedBy(m, seen) && IsAncestor(m, a, x)
    ensures x in DoomedBy(m, seen)
  {
    var b :| b in seen && b in m && Pruned(m[b]) && IsAncestor(m, b, a);
    AncestorTransitive(m, b, a, x);
  }

  /** The inner loop of `gc`, over the walk of one root. */
  method CollectWalk(store: MemoryStore, walk: seq<Node>, before: set<Id>, ghost seen: set<Id>)
    returns (removed: set<Id>)
    requires store.Valid() && forall n | n in walk :: n.id in store.nodes && n == store.nodes[n.id]
    requires before == DoomedBy(store.nodes, seen)
    ensures removed == DoomedBy(store.nodes, seen + Elements(IdsOf(walk)))
  {
    removed := before;
    ghost var m := store.nodes;
    assert IsForest(m);
    ghost var visited := seen;
    hide IsForest, DoomedBy, WalkOf, Preorder;
    for j := 0 to |walk|
      invariant visited == seen + Elements(IdsOf(walk[..j])) && removed == DoomedBy(m, visited)
    {
      var node := walk[j];
      assert node in walk;
      DoomedStep(m, visited, node.id);
      if node.id !in removed && Pruned(node) {
        var below := store.Walk(node.id);
        IdsOfWalk(m, node.id);
        removed := removed + Elements(IdsOf(below.value));
      }
      visited := visited + {node.id};
      assert walk[..j + 1] == walk[..j] + [node];
      IdsOfSnoc(walk[..j], node);
    }
    assert walk[..|walk|] == walk;
  }

  lemma NothingWalked(m: Nodes, roots: seq<Id>)
    requires IsForest(m)
    ensures Elements(Preorder(m, roots[..0])) == {} && DoomedBy(m, {}) == {}
  {
    assert roots[..0] == [];
  }

  /** The outer loop of `gc`, over all roots. */
  method CollectDoomed(store: MemoryStore) returns (removed: set<Id>)
    requires store.Valid()
    ensures removed == Doomed(store.nodes)
  {
    hide Preorder, IsForest, Roots, WalkOf, WellFormed;
    removed := {};
    ghost var m := store.nodes;
    ValidIsForest(store);
    RootsApart(store.enc, m);
    var roots := store.RootIds();
    ghost var seen: set<Id> := {};
    NothingWalked(m, roots);
    for r := 0 to |roots|
      invariant seen == Elements(Preorder(m, roots[..r])) && removed == DoomedBy(m, seen)
    {
      assert roots[r] in roots;
      var walk := store.Walk(roots[r]);
      WalkNodes(m, roots[r]);
      PlanSplit(m, roots, r);
      removed := CollectWalk(store, walk.value, removed, seen);
      seen := seen + Elements(IdsOf(walk.value));
    }
    assert roots[..|roots|] == roots;
    PlanListsAll(store.enc, m);
  }

  method SealRoots(store: MemoryStore) returns (seals: map<Id, string>)
    requires store.Valid()
    ensures seals == RootSeals(store.enc, store.nodes)
  {
    var roots := store.RootIds();
    RootsMembers(store.enc, store.nodes);
    hide Roots, RootSeals, RootSeal, IsForest, Intact, Indexed;
    seals := SealEach(store, roots);
    assert forall x :: x in seals <==> x in Elements(roots);
    SealsAre(store.enc, store.nodes, seals);
  }

  lemma SealsAre(enc: Encoding, m: Nodes, seals: map<Id, string>)
    requires IsForest(m)
    requires forall x :: x in seals <==> x in m && m[x].parent == None
    requires forall x | x in seals :: x in m && seals[x] == RootSeal(enc, m, x)
    ensures seals == RootSeals(enc, m)
  {
    hide RootSeal, IsForest;
    var expected := RootSeals(enc, m);
    assert forall x :: x in expected <==> x in seals;
    assert forall x | x in seals :: expected[x] == seals[x];
  }

  method SealEach(store: MemoryStore, roots: seq<Id>) returns (seals: map<Id, string>)
    requires store.Valid() && forall x | x in roots :: x in store.nodes
    ensures seals.Keys == Elements(roots)
    ensures forall x | x in seals :: x in store.nodes && seals[x] == RootSeal(store.enc, store.nodes, x)
  {
    seals := map[];
    assert IsForest(store.nodes);
    assert roots[..|roots|] == roots;
    hide *;
    for r := 0 to |roots|
      invariant seals.Keys == (set x | x in roots[..r])
      invariant forall x | x in seals :: x in store.nodes && seals[x] == RootSeal(store.enc, store.nodes, x)
    {
      var root := roots[r];
      var report := SealStore(store, root);
      RootSealIs(store.enc, store.nodes, root);
      seals := seals[root := report.value.digest];
      assert roots[..r + 1] == roots[..r] + [root];
    }
    ElementsIs(roots);
  }

  lemma ElementsIs(s: seq<Id>)
    ensures Elements(s) == set x | x in s
  {
  }

  ghost function RootSeal(enc: Encoding, m: Nodes, root: Id): string
    requires IsForest(m) && root in m
  {
    SealOf(enc, root, WalkOf(m, root)).digest
  }

  lemma RootSealIs(enc: Encoding, m: Nodes, root: Id)
    requires IsForest(m) && root in m
    ensures RootSeal(enc, m, root) == SealOf(enc, root, WalkOf(m, root)).digest
  {
  }

  ghost function RootSeals(enc: Encoding, m: Nodes): map<Id, string>
    requires IsForest(m)
  {
    map x | x in m && m[x].parent == None :: RootSeal(enc, m, x)
  }

  datatype Mode = DropPruned | Compact | Unsupported

  datatype GCReport = GCReport(removed: seq<Id>, removedBlobs: nat, survivorSeals: map<Id, string>)

  /** `gc` on a memory store, which has no blobs to compact. */
  method Gc(store: MemoryStore, mode: Mode) returns (r: Result<GCReport>)
    requires store.Valid()
    modifies store
    ensures store.Valid()
    ensures mode == DropPruned ==>
      && store.nodes == old(store.nodes) - Doomed(old(store.nodes))
      && r == Ok(GCReport(SortedStrings(Doomed(old(store.nodes))), 0, RootSeals(store.enc, store.nodes)))
    ensures mode == Compact ==>
      store.nodes == old(store.nodes) && r == Ok(GCReport([], 0, RootSeals(store.enc, store.nodes)))
    ensures mode == Unsupported ==> store.nodes == old(store.nodes) && r == Err(ValueError)
  {
    var _ := SealRoots(store);
    var removed: set<Id> := {};
    if mode == Unsupported { return Err(ValueError); }
    if mode == DropPruned {
      removed := CollectDoomed(store);
      DoomedDownClosed(store.nodes);
      store.DropNodes(removed);
    }
    var survivors := SealRoots(store);
    StringLessTotal();
    var listed := Sort(removed, StringLess);
    SortedIsEnumerate<string>([], StringLess);
    r := Ok(GCReport(listed, 0, survivors));
  }

  lemma DoomedDownClosed(m: Nodes)
    requires IsForest(m)
    ensures DownClosed(m, Doomed(m))
  {
  }

  // ---------------------------------------------------------------- exactness

  /** Setting "pruned" on a node dooms its whole subtree when the value is true, and otherwise only what another
      node dooms. */
  lemma PruneDooms(m: Nodes, x: Id, v: Json, y: Id)
    requires IsForest(m) && x in m
    ensures
      var m' := m[x := m[x].(meta := m[x].meta["pruned" := v])];
      && IsForest(m')
      && (y in Doomed(m') <==> y in DoomedBy(m, m.Keys - {x}) || (v == Bool(true) && IsAncestor(m, x, y)))
  {
    hide IsForest, IsAncestor;
    var m' := m[x := m[x].(meta := m[x].meta["pruned" := v])];
    PrunedForest(m, x, m');
    if y in m {
      forall a { AncestorSame(m, m', a, y); }
    } else {
      NotBelow(m, x, y);
    }
  }

  lemma PrunedForest(m: Nodes, x: Id, m': Nodes)
    requires IsForest(m) && x in m && x in m' && m' == m[x := m[x].(meta := m'[x].meta)]
    ensures IsForest(m') && Extends(m, m')
  {
    assert Heights(m', Height(m));
  }

  lemma NotBelow(m: Nodes, x: Id, y: Id)
    requires IsForest(m) && y !in m
    ensures !IsAncestor(m, x, y)
  {
  }

  /** What collection leaves is a forest, and its walks are the old walks without the doomed nodes. */
  lemma SurvivingWalks(m: Nodes, root: Id)
    requires IsForest(m) && root in m && root !in Doomed(m)
    ensures IsForest(m - Doomed(m)) && root in m - Doomed(m)
    ensures Preorder(m - Doomed(m), [root]) == Without(Preorder(m, [root]), Doomed(m))
  {
    DoomedDownClosed(m);
    assert Without([root], Doomed(m)) == [root];
    DropPreorder(m, Doomed(m), [root]);
  }

  /** A root keeps its seal when nothing below it is pruned. */
  lemma SurvivingSeal(enc: Encoding, m: Nodes, root: Id)
    requires IsForest(m) && root in m && root !in Doomed(m)
    requires forall x | x in Preorder(m, [root]) :: x in m && !Pruned(m[x])
    requires m[root].parent == None
    ensures IsForest(m - Doomed(m))
    ensures SealOf(enc, root, WalkOf(m - Doomed(m), root)) == SealOf(enc, root, WalkOf(m, root))
  {
    hide Preorder, IsForest, IsAncestor, SealOf, Doomed, Without;
    var m' := m - Doomed(m);
    SurvivingWalks(m, root);
    NoneDoomed(m, root);
    WithoutNothing(Preorder(m, [root]), Doomed(m));
    SubtreeWithin(m, root);
    SealDependsOnContent(enc, m, m', root);
  }

  lemma NoneDoomed(m: Nodes, root: Id)
    requires IsForest(m) && root in m && m[root].parent == None
    requires forall x | x in Preorder(m, [root]) :: x in m && !Pruned(m[x])
    ensures forall x | x in Preorder(m, [root]) :: x !in Doomed(m)
  {
    hide Preorder, IsForest;
    forall x | x in Preorder(m, [root]) ensures x !in Doomed(m) {
      SubtreeMembers(m, root, x);
      if x in Doomed(m) {
        var a :| a in m && Pruned(m[a]) && IsAncestor(m, a, x);
        AncestorsComparable(m, a, root, x);
        SubtreeMembers(m, root, a);
      }
    }
  }

  lemma {:induction false} SurvivorAncestors(m: Nodes, removed: set<Id>, a: Id, x: Id)
    requires IsForest(m) && IsForest(m - removed) && IsAncestor(m - removed, a, x)
    ensures IsAncestor(m, a, x)
    decreases if x in m then Ceiling(Height(m)) - Height(m)[x] else 0
  {
    if a != x { SurvivorAncestors(m, removed, a, m[x].parent.value); }
  }

  /** A second collection removes nothing. */
  lemma CollectTwice(m: Nodes)
    requires IsForest(m)
    ensures IsForest(m - Doomed(m)) && Doomed(m - Doomed(m)) == {}
  {
    var m' := m - Doomed(m);
    DoomedDownClosed(m);
    DropForest(m, Doomed(m));
    forall x | x in m' ensures x !in Doomed(m') {
      if a :| a in m' && Pruned(m'[a]) && IsAncestor(m', a, x) {
        SurvivorAncestors(m, Doomed(m), a, x);
      }
    }
  }
}

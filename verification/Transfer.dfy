/** Sealed subtree manifests: export and import. */
module Transfer {
  import opened Order
  import opened JsonValue
  import opened Forest
  import opened ForestChange
  import opened Store
  import opened Seal
  import opened MergeStores
  import opened Manifest
  import opened ManifestTrees
  import opened Staging

  /** The seal is the document the manifest carries, whatever it holds. */
  datatype SubtreeManifest = SubtreeManifest(rootId: Id, seal: Json, nodes: seq<Node>)

  datatype ImportReport = ImportReport(rootId: Id, digest: string, imported: nat, existing: nat)

  /** `export_subtree`. */
  method ExportSubtree(store: MemoryStore, root: Id) returns (r: Result<SubtreeManifest>)
    requires store.Valid()
    ensures root in store.nodes ==> r == Ok(ManifestOf(store.enc, store.nodes, root))
    ensures root !in store.nodes ==> r == Err(KeyError)
  {
    var report := SealStore(store, root);
    if report.Err? { return Err(KeyError); }
    var nodes := store.Walk(root);
    r := Ok(SubtreeManifest(root, SealDoc(report.value), nodes.value));
  }

  ghost function ManifestOf(enc: Encoding, m: Nodes, root: Id): SubtreeManifest
    requires IsForest(m) && root in m
  {
    SubtreeManifest(root, SealDoc(SealOf(enc, root, WalkOf(m, root))), WalkOf(m, root))
  }

  /** The node record of a manifest builds a node: only roots have no parent. */
  predicate WellShaped(n: Node) {
    n.kind == Root <==> n.parent == None
  }

  predicate SameStored(a: Node, b: Node) {
    SameIdentity(a, b) && a.result == b.result && a.resultDigest == b.resultDigest
  }

  /** The manifest verifies on its own; its seal document is compared with Python's `==`. */
  ghost predicate Genuine(enc: Encoding, man: SubtreeManifest) {
    && man.nodes != [] && man.nodes[0].id == man.rootId
    && (forall n | n in man.nodes :: WellShaped(n) && Sealable(enc, n))
    && IsCanonicalPreorder(man.nodes)
    && PyEq(SealDoc(SealOf(enc, man.rootId, man.nodes)), man.seal)
  }

  /** The target takes it: the root's parent is there and nothing stored disagrees. */
  ghost predicate Fits(m: Nodes, man: SubtreeManifest)
    requires man.nodes != []
  {
    && (man.nodes[0].parent.Some? ==> man.nodes[0].parent.value in m)
    && forall n | n in man.nodes && n.id in m :: SameStored(m[n.id], n)
  }

  /** The manifest's nodes added where the target has none. */
  ghost function Imported(m: Nodes, nodes: seq<Node>): Nodes {
    Listed(nodes) + m
  }

  /** How many of the nodes the target holds already. */
  function Held(nodes: seq<Node>, m: Nodes): (n: nat)
    ensures n <= |nodes|
  {
    if nodes == [] then 0
    else Held(nodes[..|nodes| - 1], m) + if nodes[|nodes| - 1].id in m then 1 else 0
  }

  lemma HeldNext(nodes: seq<Node>, m: Nodes, k: nat)
    requires k < |nodes|
    ensures Held(nodes[..k + 1], m) == Held(nodes[..k], m) + if nodes[k].id in m then 1 else 0
  {
    assert nodes[..k + 1][..k] == nodes[..k];
  }

  lemma {:induction false} HeldAllOrNone(nodes: seq<Node>, m: Nodes)
    ensures (forall n | n in nodes :: n.id in m) ==> Held(nodes, m) == |nodes|
    ensures (forall n | n in nodes :: n.id !in m) ==> Held(nodes, m) == 0
  {
    if nodes != [] {
      var k := |nodes| - 1;
      assert nodes[k] in nodes && forall n | n in nodes[..k] :: n in nodes;
      HeldAllOrNone(nodes[..k], m);
    }
  }

  /** The checks `import_subtree` makes before looking at the target. */
  method CheckManifest(enc: Encoding, man: SubtreeManifest) returns (r: Result<SealReport>)
    ensures r == if Genuine(enc, man) then Ok(SealOf(enc, man.rootId, man.nodes)) else Err(IntegrityError)
  {
    var shaped := forall n | n in man.nodes :: WellShaped(n);
    if !shaped { return Err(IntegrityError); }
    if man.nodes == [] || man.nodes[0].id != man.rootId { return Err(IntegrityError); }
    var staged := Stage(man.rootId, man.nodes);
    if staged.Err? { return Err(IntegrityError); }
    var walk := staged.value.Walk();
    StagedWalk(man.nodes, walk);
    var actual := SealNodes(enc, man.rootId, walk);
    if actual.Err? { return Err(IntegrityError); }
    if !PyEq(SealDoc(actual.value), man.seal) { return Err(IntegrityError); }
    r := Ok(actual.value);
  }

  lemma StagedWalk(nodes: seq<Node>, walk: seq<Node>)
    requires nodes != [] && IsCanonicalPreorder(nodes) && IsForest(Detached(nodes))
    requires IdsOf(walk) == Preorder(Detached(nodes), [nodes[0].id])
    requires forall n | n in walk :: n.id in Listed(nodes) && n == Listed(nodes)[n.id]
    ensures walk == nodes
  {
    CanonicalIsAccepted(nodes);
    ListedAt(nodes);
    assert |walk| == |IdsOf(walk)| == |nodes|;
    forall i | 0 <= i < |nodes| ensures walk[i] == nodes[i] {
      assert IdsOf(walk)[i] == IdsOf(nodes)[i] && walk[i] in walk;
    }
  }

  /** `import_subtree`: verified completely before any node is written. */
  method ImportSubtree(man: SubtreeManifest, store: MemoryStore) returns (r: Result<ImportReport>)
    requires store.Valid()
    modifies store
    ensures store.Valid()
    ensures r.Ok? <==> Genuine(store.enc, man) && Fits(old(store.nodes), man)
    ensures r.Err? ==> r.error == IntegrityError && store.nodes == old(store.nodes)
    ensures r.Ok? ==>
      && store.nodes == Imported(old(store.nodes), man.nodes)
      && var held := Held(man.nodes, old(store.nodes));
         r.value == ImportReport(man.rootId, SealOf(store.enc, man.rootId, man.nodes).digest, |man.nodes| - held, held)
  {
    hide WellFormed, Indexed, IsCanonicalPreorder, Accepted, Held, SealOf, Preorder;
    var checked := CheckManifest(store.enc, man);
    if checked.Err? { return Err(IntegrityError); }
    var root := man.nodes[0];
    if root.parent.Some? && root.parent.value !in store.nodes { return Err(IntegrityError); }
    CanonicalIsAccepted(man.nodes);
    var fits, existing := CountExisting(store, man.nodes);
    if !fits { return Err(IntegrityError); }
    var imported := PutMissing(store, man.nodes);
    r := Ok(ImportReport(man.rootId, checked.value.digest, imported, existing));
  }

  /** The first loop over the target. */
  method CountExisting(store: MemoryStore, nodes: seq<Node>) returns (fits: bool, existing: nat)
    ensures fits <==> forall n | n in nodes && n.id in store.nodes :: SameStored(store.nodes[n.id], n)
    ensures fits ==> existing == Held(nodes, store.nodes)
  {
    existing := 0;
    for k := 0 to |nodes|
      invariant forall j | 0 <= j < k && nodes[j].id in store.nodes :: SameStored(store.nodes[nodes[j].id], nodes[j])
      invariant existing == Held(nodes[..k], store.nodes)
    {
      var node := nodes[k];
      HeldNext(nodes, store.nodes, k);
      if node.id in store.nodes {
        var stored := store.nodes[node.id];
        if !SameStored(stored, node) {
          assert node in nodes;
          return false, 0;
        }
        existing := existing + 1;
      }
    }
    assert nodes[..|nodes|] == nodes;
    fits := true;
  }

  lemma NextId(nodes: seq<Node>, k: nat)
    requires k < |nodes| && NoDuplicates(IdsOf(nodes))
    ensures Elements(IdsOf(nodes[..k + 1])) == Elements(IdsOf(nodes[..k])) + {nodes[k].id}
    ensures nodes[k].id !in IdsOf(nodes[..k])
    ensures Listed(nodes[..k + 1]) == Listed(nodes[..k])[nodes[k].id := nodes[k]]
    ensures Listed(nodes[..k]).Keys == Elements(IdsOf(nodes[..k]))
    ensures forall i | 0 <= i < k :: nodes[i].id in Listed(nodes[..k])
  {
    StageStep(nodes, k);
    IdsOfSnoc(nodes[..k], nodes[k]);
    forall i | 0 <= i < k ensures IdsOf(nodes[..k])[i] != nodes[k].id && nodes[i].id in IdsOf(nodes[..k]) {
      assert IdsOf(nodes)[i] == IdsOf(nodes[..k])[i] && IdsOf(nodes)[k] == nodes[k].id;
    }
  }

  /** The second loop: only missing nodes are put, and none of the puts can fail. */
  method PutMissing(store: MemoryStore, nodes: seq<Node>) returns (imported: nat)
    requires store.Valid() && nodes != [] && NoDuplicates(IdsOf(nodes)) && ParentsEarlier(nodes)
    requires forall n | n in nodes :: WellShaped(n) && Sealable(store.enc, n)
    requires nodes[0].parent.Some? ==> nodes[0].parent.value in store.nodes
    modifies store
    ensures store.Valid()
    ensures store.nodes == Imported(old(store.nodes), nodes)
    ensures imported == |nodes| - Held(nodes, old(store.nodes))
  {
    imported := 0;
    ghost var m := store.nodes;
    assert Imported(m, nodes[..0]) == m;
    hide IsForest, Intact, Indexed, Put, Listed, Imported, ParentsEarlier, IdsOf, NoDuplicates, Sealable, WellShaped;
    for k := 0 to |nodes|
      invariant store.Valid() && store.nodes == Imported(m, nodes[..k])
      invariant imported == k - Held(nodes[..k], m)
    {
      var node := nodes[k];
      assert node in nodes;
      HeldNext(nodes, m, k);
      PutFits(store.enc, m, nodes, k);
      if node.id !in store.nodes {
        var _ := store.PutNode(node);
        imported := imported + 1;
      }
    }
    assert nodes[..|nodes|] == nodes;
  }

  lemma EarlierParent(nodes: seq<Node>, k: nat)
    requires k < |nodes| && ParentsEarlier(nodes)
    ensures k > 0 ==> nodes[k].parent.Some? && nodes[k].parent.value in Elements(IdsOf(nodes[..k]))
  {
  }

  lemma PutFits(enc: Encoding, m: Nodes, nodes: seq<Node>, k: nat)
    requires k < |nodes| && NoDuplicates(IdsOf(nodes)) && ParentsEarlier(nodes)
    requires WellShaped(nodes[k]) && Sealable(enc, nodes[k])
    requires nodes[0].parent.Some? ==> nodes[0].parent.value in m
    ensures
      var now, n := Imported(m, nodes[..k]), nodes[k];
      && (n.id !in now ==> Put(enc, now, n) == Ok(now[n.id := n]) && Imported(m, nodes[..k + 1]) == now[n.id := n])
      && (n.id in now <==> n.id in m)
      && (n.id in now ==> Imported(m, nodes[..k + 1]) == now)
  {
    hide Listed, IdsOf, NoDuplicates, ParentsEarlier, SameIdentity;
    NextId(nodes, k);
    EarlierParent(nodes, k);
    var n, before := nodes[k], Listed(nodes[..k]);
    assert n.id !in before;
    assert n.id !in m ==> before[n.id := n] + m == (before + m)[n.id := n];
    assert n.id in m ==> before[n.id := n] + m == before + m;
  }

  // ---------------------------------------------------------------- round trips

  /** An exported manifest is genuine. */
  lemma ExportGenuine(enc: Encoding, m: Nodes, root: Id)
    requires WellFormed(enc, m) && root in m
    ensures Genuine(enc, ManifestOf(enc, m, root))
  {
    hide PyEq, SealDoc, SealOf, Sealable, WellShaped, IsCanonicalPreorder, WalkOf, WellFormed, IsForest;
    WellFormedIsForest(enc, m);
    ExportShaped(enc, m, root);
    ExportCanonical(m, root);
    PyEqReflexive(SealDoc(SealOf(enc, root, WalkOf(m, root))));
  }

  lemma ExportShaped(enc: Encoding, m: Nodes, root: Id)
    requires WellFormed(enc, m) && root in m
    ensures WalkOf(m, root) != [] && WalkOf(m, root)[0].id == root
    ensures forall n | n in WalkOf(m, root) :: WellShaped(n) && Sealable(enc, n)
  {
    WalkIds(m, root);
    PreorderOne(m, root);
    IntactSealable(enc, m, root);
    WalkNodes(m, root);
  }

  lemma ExportCanonical(m: Nodes, root: Id)
    requires IsForest(m) && root in m
    ensures IsCanonicalPreorder(WalkOf(m, root))
  {
    var nodes, kids := WalkOf(m, root), Children(m, root);
    var ts := TreesAt(m, kids);
    IdsOfWalk(m, root);
    WalkNodes(m, root);
    WalkIds(m, root);
    SubtreeDistinct(m, root);
    PreorderOne(m, root);
    TreesFlat(m, kids);
    TreesCanonical(m, kids);
    KidsCanonical(m, root);
    MakeCanonical(m[root], ts);
    ExportOutside(m, root);
    hide Preorder, TreesAt, Children, Canonical, IsForest, WalkOf;
    var t := Tree(m[root], ts);
    assert IdsOf(Flat(t)) == [root] + IdsOf(FlatAll(ts)) by { IdsOfConcat([m[root]], FlatAll(ts)); }
    NodesByIds(m, Flat(t), nodes);
  }

  lemma ExportOutside(m: Nodes, root: Id)
    requires IsForest(m) && root in m
    ensures WalkOf(m, root) != [] && ParentOutside(WalkOf(m, root))
  {
    PreorderOne(m, root);
    IdsOfWalk(m, root);
    if m[root].parent.Some? {
      SubtreeMembers(m, root, m[root].parent.value);
      if IsAncestor(m, root, m[root].parent.value) { AncestorIn(m, root, m[root].parent.value); }
    }
  }

  /** Exporting and importing into a store without those ids, holding the root's parent if it has one,
      reproduces the walk with all results and metadata, and the seal. */
  lemma ExportImport(enc: Encoding, m: Nodes, root: Id, d: Nodes)
    requires WellFormed(enc, m) && root in m && WellFormed(enc, d)
    requires forall x | x in Preorder(m, [root]) :: x !in d
    requires m[root].parent.Some? ==> m[root].parent.value in d
    ensures
      var man := ManifestOf(enc, m, root);
      var d' := Imported(d, man.nodes);
      && Genuine(enc, man) && Fits(d, man)
      && IsForest(d') && root in d' && WalkOf(d', root) == WalkOf(m, root)
      && SealDoc(SealOf(enc, root, WalkOf(d', root))) == man.seal
      && Held(man.nodes, d) == 0
  {
    var man := ManifestOf(enc, m, root);
    ExportGenuine(enc, m, root);
    ExportFits(m, root, d);
    ImportedForest(enc, m, root, d);
    ImportedWalk(enc, m, root, d);
  }

  lemma ExportFits(m: Nodes, root: Id, d: Nodes)
    requires IsForest(m) && root in m && forall x | x in Preorder(m, [root]) :: x !in d
    ensures WalkOf(m, root) != [] && WalkOf(m, root)[0] == m[root]
    ensures forall n | n in WalkOf(m, root) :: n.id !in d
    ensures Held(WalkOf(m, root), d) == 0
  {
    var nodes := WalkOf(m, root);
    WalkIds(m, root);
    IdsOfWalk(m, root);
    PreorderOne(m, root);
    forall n | n in nodes ensures n.id !in d { IdIn(nodes, n); }
    HeldAllOrNone(nodes, d);
  }

  lemma ImportedForest(enc: Encoding, m: Nodes, root: Id, d: Nodes)
    requires WellFormed(enc, m) && root in m && WellFormed(enc, d)
    requires forall x | x in Preorder(m, [root]) :: x !in d
    requires m[root].parent.Some? ==> m[root].parent.value in d
    ensures IsForest(Imported(d, WalkOf(m, root)))
  {
    hide Imported, Preorder, WalkOf, ImportRank;
    var d' := Imported(d, WalkOf(m, root));
    ImportedNodes(enc, m, root, d);
    forall x | x in d' && d'[x].parent.Some?
      ensures d'[x].parent.value in d' && ImportRank(m, d, x) < ImportRank(m, d, d'[x].parent.value)
    {
      ImportedParent(m, root, d, d', x);
    }
    assert forall x | x in d' :: d'[x].id == x;
    RankedForest(m, d, d');
  }

  /** Target nodes stand above all imported ones. */
  ghost function ImportRank(m: Nodes, d: Nodes, x: Id): nat
    requires IsForest(m) && IsForest(d)
  {
    if x in d then Height(d)[x] + Ceiling(Height(m)) + 1 else HeightOf(m, x)
  }

  lemma RankedForest(m: Nodes, d: Nodes, d': Nodes)
    requires IsForest(d) && IsForest(m) && forall x | x in d' :: d'[x].id == x
    requires forall x | x in d' && d'[x].parent.Some? ::
      d'[x].parent.value in d' && ImportRank(m, d, x) < ImportRank(m, d, d'[x].parent.value)
    ensures IsForest(d')
  {
    assert Heights(d', map x | x in d' :: ImportRank(m, d, x));
  }

  lemma ImportedParent(m: Nodes, root: Id, d: Nodes, d': Nodes, x: Id)
    requires IsForest(m) && root in m && IsForest(d)
    requires m[root].parent.Some? ==> m[root].parent.value in d
    requires forall y | y in Preorder(m, [root]) :: y in m && y !in d && y in d' && d'[y] == m[y]
    requires forall y | y in d :: y in d' && d'[y] == d[y]
    requires x in d' && (x in d || x in Preorder(m, [root])) && d'[x].parent.Some?
    ensures d'[x].parent.value in d' && ImportRank(m, d, x) < ImportRank(m, d, d'[x].parent.value)
  {
    if x !in d && x != root {
      SubtreeMembers(m, root, x);
      SubtreeMembers(m, root, m[x].parent.value);
    }
  }

  lemma ImportedWalk(enc: Encoding, m: Nodes, root: Id, d: Nodes)
    requires WellFormed(enc, m) && root in m && WellFormed(enc, d) && IsForest(Imported(d, WalkOf(m, root)))
    requires forall x | x in Preorder(m, [root]) :: x !in d
    ensures
      var d' := Imported(d, WalkOf(m, root));
      root in d' && WalkOf(d', root) == WalkOf(m, root)
  {
    var d' := Imported(d, WalkOf(m, root));
    ImportedNodes(enc, m, root, d);
    PreorderOne(m, root);
    forall x | x in Preorder(m, [root]) ensures Children(m, x) == Children(d', x) {
      ImportedChildren(enc, m, root, d, x);
    }
    PreorderCongruence(m, d', [root]);
    SameWalk(m, d', root);
  }

  lemma SameWalk(m: Nodes, d': Nodes, root: Id)
    requires IsForest(m) && IsForest(d') && root in m && root in d'
    requires Preorder(m, [root]) == Preorder(d', [root])
    requires forall x | x in Preorder(m, [root]) :: x in m && x in d' && d'[x] == m[x]
    ensures WalkOf(d', root) == WalkOf(m, root)
  {
    WalkIds(m, root);
    WalkIds(d', root);
    var a, b, ids := WalkOf(m, root), WalkOf(d', root), Preorder(m, [root]);
    hide WalkOf, Preorder, IsForest;
    forall i | 0 <= i < |ids| ensures a[i] == b[i] { assert ids[i] in ids; }
  }

  lemma ImportedNodes(enc: Encoding, m: Nodes, root: Id, d: Nodes)
    requires WellFormed(enc, m) && root in m && forall x | x in Preorder(m, [root]) :: x !in d
    ensures
      var d' := Imported(d, WalkOf(m, root));
      && (forall x | x in Preorder(m, [root]) :: x in m && x in d' && d'[x] == m[x])
      && (forall x | x in d' :: x in d || x in Preorder(m, [root]))
      && (forall x | x in d :: x in d' && d'[x] == d[x])
  {
    var nodes := WalkOf(m, root);
    WalkIds(m, root);
    IdsOfWalk(m, root);
    SubtreeDistinct(m, root);
    ListedAt(nodes);
    forall x | x in Preorder(m, [root]) ensures x in m && x in Imported(d, nodes) && Imported(d, nodes)[x] == m[x] {
      var i :| 0 <= i < |nodes| && Preorder(m, [root])[i] == x;
      assert nodes[i].id == x;
    }
  }

  lemma ChildBelow(m: Nodes, root: Id, x: Id, c: Id)
    requires IsForest(m) && root in m && x in Preorder(m, [root])
    ensures IsChild(m, x, c) ==> c in Preorder(m, [root])
  {
    hide Preorder;
    SubtreeMembers(m, root, x);
    SubtreeMembers(m, root, c);
  }

  lemma ParentIn(m: Nodes, c: Id, x: Id)
    requires IsForest(m) && c in m && m[c].parent == Some(x)
    ensures x in m
  {
  }

  lemma ImportedChild(m: Nodes, root: Id, d: Nodes, d': Nodes, x: Id, c: Id)
    requires IsForest(m) && IsForest(d) && root in m && x in Preorder(m, [root])
    requires forall y | y in Preorder(m, [root]) :: y !in d && y in m && y in d' && d'[y] == m[y]
    requires forall y | y in d' :: y in d || y in Preorder(m, [root])
    requires forall y | y in d :: y in d' && d'[y] == d[y]
    ensures IsChild(m, x, c) <==> IsChild(d', x, c)
    ensures IsChild(m, x, c) ==> m[c].kind == d'[c].kind
  {
    hide Preorder, IsForest;
    ChildBelow(m, root, x, c);
    if c in d && d[c].parent == Some(x) { ParentIn(d, c, x); }
  }

  lemma ImportedChildren(enc: Encoding, m: Nodes, root: Id, d: Nodes, x: Id)
    requires WellFormed(enc, m) && root in m && forall y | y in Preorder(m, [root]) :: y !in d
    requires WellFormed(enc, d) && x in Preorder(m, [root])
    ensures Children(m, x) == Children(Imported(d, WalkOf(m, root)), x)
  {
    hide Imported, Preorder, WalkOf, WellFormed, IsForest;
    WellFormedIsForest(enc, m);
    WellFormedIsForest(enc, d);
    var d' := Imported(d, WalkOf(m, root));
    ImportedNodes(enc, m, root, d);
    forall c
      ensures IsChild(m, x, c) <==> IsChild(d', x, c)
      ensures IsChild(m, x, c) ==> m[c].kind == d'[c].kind
    {
      ImportedChild(m, root, d, d', x, c);
    }
    ChildrenSame(m, d', x);
  }

  lemma ChildrenSame(m: Nodes, d: Nodes, x: Id)
    requires forall c :: (IsChild(m, x, c) <==> IsChild(d, x, c)) && (IsChild(m, x, c) ==> m[c].kind == d[c].kind)
    ensures Children(m, x) == Children(d, x)
  {
    assert ChildKeys(m, x) == ChildKeys(d, x);
  }

  /** A second import finds everything and adds nothing. */
  lemma ImportTwice(enc: Encoding, man: SubtreeManifest, d: Nodes)
    requires Genuine(enc, man) && Fits(d, man)
    ensures Fits(Imported(d, man.nodes), man)
    ensures Imported(Imported(d, man.nodes), man.nodes) == Imported(d, man.nodes)
    ensures Held(man.nodes, Imported(d, man.nodes)) == |man.nodes|
  {
    hide IsCanonicalPreorder, Accepted, SealOf, Sealable, PyEq, IsForest;
    CanonicalIsAccepted(man.nodes);
    ListedAt(man.nodes);
    forall n | n in man.nodes ensures n.id in Imported(d, man.nodes) && SameStored(Imported(d, man.nodes)[n.id], n) {
      var i :| 0 <= i < |man.nodes| && man.nodes[i] == n;
      forall k | k in n.payload { PyEqReflexive(n.payload[k]); }
    }
    HeldAllOrNone(man.nodes, Imported(d, man.nodes));
  }
}

/** The spool of a store refines the in-memory merge plan. */
module SpoolMerge {
  import opened JsonValue
  import opened Forest
  import opened Store
  import opened Merge
  import opened MergeStores
  import opened Spool

  /** What traversing a store yields: every root with its walk. */
  ghost function StoreWalks(enc: Encoding, m: Nodes): seq<Walked>
    requires IsForest(m)
  {
    var roots := Roots(enc, m);
    RootsApart(enc, m);
    seq(|roots|, i requires 0 <= i < |roots| => (assert roots[i] in roots; Walked(roots[i], WalkOf(m, roots[i]))))
  }

  lemma {:induction false} WalksAreWalk(enc: Encoding, m: Nodes, i: nat)
    requires IsForest(m) && i <= |Roots(enc, m)|
    ensures IdsOf(AllNodes(StoreWalks(enc, m)[..i])) == Preorder(m, Roots(enc, m)[..i])
    ensures forall n | n in AllNodes(StoreWalks(enc, m)[..i]) :: n.id in m && n == m[n.id]
  {
    var roots, walks := Roots(enc, m), StoreWalks(enc, m);
    RootsApart(enc, m);
    if i == 0 {
      assert walks[..0] == [] && roots[..0] == [];
      NothingWalked(m);
    } else {
      WalksAreWalk(enc, m, i - 1);
      assert roots[i - 1] in roots;
      PlanSplit(m, roots, i - 1);
      WalkNodes(m, roots[i - 1]);
      AllNodesStep(walks, i - 1);
      IdsOfConcat(AllNodes(walks[..i - 1]), walks[i - 1].nodes);
    }
  }

  lemma NothingWalked(m: Nodes)
    requires IsForest(m)
    ensures IdsOf(AllNodes([])) == Preorder(m, [])
  {
  }

  lemma {:induction false} DistinctKeepsAll(nodes: seq<Node>)
    requires NoDuplicates(IdsOf(nodes))
    ensures Distinct(nodes) == nodes
  {
    if nodes != [] {
      var front, last := nodes[..|nodes| - 1], nodes[|nodes| - 1];
      assert nodes == front + [last];
      IdsOfSnoc(front, last);
      var ids := IdsOf(nodes);
      assert forall i | 0 <= i < |front| :: ids[i] == IdsOf(front)[i] && ids[i] != ids[|front|];
      DistinctKeepsAll(front);
      DistinctSnoc(front, last);
    }
  }

  /** A traversal of a store is its merge plan, without repetitions. */
  lemma TraversalIsPlan(enc: Encoding, m: Nodes)
    requires WellFormed(enc, m)
    ensures AllNodes(StoreWalks(enc, m)) == PlanOf(enc, m)
    ensures Distinct(PlanOf(enc, m)) == PlanOf(enc, m)
  {
    var roots, walks := Roots(enc, m), StoreWalks(enc, m);
    WalksAreWalk(enc, m, |roots|);
    assert walks[..|roots|] == walks && roots[..|roots|] == roots;
    PlanListsAll(enc, m);
    NodesByIds(m, AllNodes(walks), PlanOf(enc, m));
    DistinctKeepsAll(PlanOf(enc, m));
  }

  lemma {:induction false} AllNodesPrefix(walks: seq<Walked>, i: nat)
    requires i <= |walks|
    ensures AllNodes(walks[..i]) <= AllNodes(walks)
    decreases |walks| - i
  {
    if i == |walks| {
      assert walks[..i] == walks;
    } else {
      AllNodesPrefix(walks, i + 1);
      AllNodesStep(walks, i);
    }
  }

  lemma UptoIsPrefix(walks: seq<Walked>, i: nat, j: nat)
    requires i < |walks| && j < |walks[i].nodes|
    ensures
      var p := |AllNodes(walks[..i])| + j;
      && p < |AllNodes(walks)|
      && Upto(AllNodes(walks[..i]), walks[i].nodes, j) == AllNodes(walks)[..p]
      && walks[i].nodes[j] == AllNodes(walks)[p]
  {
    AllNodesPrefix(walks, i + 1);
    AllNodesStep(walks, i);
  }

  lemma PlanPositionSpoolable(codec: Codec, plan: seq<Node>, p: nat)
    requires IsPlan(codec.enc, plan) && PlanSpoolable(codec, plan) && p < |plan|
    ensures Spoolable(codec, plan[..p], plan[p])
  {
    assert plan[p] in plan;
    IdsPrefix(plan, p);
    var ids := IdsOf(plan);
    assert forall i, j | 0 <= i < j < p :: ids[..p][i] != ids[..p][j];
    DistinctKeepsAll(plan[..p]);
  }

  lemma IdsPrefix(nodes: seq<Node>, p: nat)
    requires p <= |nodes|
    ensures IdsOf(nodes[..p]) == IdsOf(nodes)[..p]
  {
  }

  lemma WalkStartsAtRoot(enc: Encoding, m: Nodes, root: Id)
    requires IsForest(m) && root in m
    ensures WalkOf(m, root) != [] && WalkOf(m, root)[0] == m[root]
  {
    PreorderOne(m, root);
  }

  /** A store can be spooled exactly when every record survives serialization and can be framed. */
  lemma StoreSpoolable(codec: Codec, m: Nodes)
    requires WellFormed(codec.enc, m)
    ensures AllSpoolable(codec, StoreWalks(codec.enc, m)) <==> PlanSpoolable(codec, PlanOf(codec.enc, m))
  {
    var walks, plan := StoreWalks(codec.enc, m), PlanOf(codec.enc, m);
    TraversalIsPlan(codec.enc, m);
    if AllSpoolable(codec, walks) { PlanStorable(codec, walks); }
    if PlanSpoolable(codec, plan) {
      forall i | 0 <= i < |walks| ensures WalkSpoolable(codec, AllNodes(walks[..i]), walks[i]) {
        StoreWalkSpoolable(codec, m, i);
      }
    }
  }

  lemma StoreWalkAt(enc: Encoding, m: Nodes, i: nat)
    requires WellFormed(enc, m) && IsForest(m) && i < |StoreWalks(enc, m)|
    ensures
      var root := StoreWalks(enc, m)[i].root;
      && root in m && m[root].id == root && m[root].parent == None
      && StoreWalks(enc, m)[i] == Walked(root, WalkOf(m, root))
  {
    hide Preorder;
    RootsApart(enc, m);
    RootsMembers(enc, m);
    assert Roots(enc, m)[i] in Roots(enc, m);
  }

  lemma StoreWalkSpoolable(codec: Codec, m: Nodes, i: nat)
    requires WellFormed(codec.enc, m) && PlanSpoolable(codec, PlanOf(codec.enc, m))
    requires i < |StoreWalks(codec.enc, m)|
    ensures
      var walks := StoreWalks(codec.enc, m);
      WalkSpoolable(codec, AllNodes(walks[..i]), walks[i])
  {
    hide Spoolable, StoreWalks, Distinct, AllNodes, WalkOf, Roots, Upto, IsPlan, PlanSpoolable, IsForest, WellFormed;
    hide IdsOf, NoDuplicates, PlanOf;
    WellFormedIsForest(codec.enc, m);
    var walks, plan := StoreWalks(codec.enc, m), PlanOf(codec.enc, m);
    TraversalIsPlan(codec.enc, m);
    StoreWalkAt(codec.enc, m, i);
    WalkStartsAtRoot(codec.enc, m, walks[i].root);
    forall j | 0 <= j < |walks[i].nodes|
      ensures Spoolable(codec, Upto(AllNodes(walks[..i]), walks[i].nodes, j), walks[i].nodes[j])
    {
      UptoIsPrefix(walks, i, j);
      PlanPositionSpoolable(codec, plan, |AllNodes(walks[..i])| + j);
    }
  }

  /** Preparing a spool from a store and reading it back gives the plan of `_prepare_merge`. */
  method SpoolStore(codec: Codec, src: MemoryStore) returns (r: Result<seq<Node>>)
    requires src.Valid() && src.enc == codec.enc && codec.GoodHash()
    ensures r.Ok? <==> PlanSpoolable(codec, PlanOf(codec.enc, src.nodes))
    ensures r.Ok? ==> r.value == PlanOf(codec.enc, src.nodes)
  {
    ghost var plan := PlanOf(codec.enc, src.nodes);
    StoreSpoolable(codec, src.nodes);
    TraversalIsPlan(codec.enc, src.nodes);
    var walks := Traverse(src);
    var file := new SpoolFile();
    hide *;
    var spool := file.Prepare(codec, walks);
    if spool.Err? { return Err(spool.error); }
    r := file.IterNodes(codec, spool.value);
    RowsDetermineNodes(codec, r.value, plan);
  }

  /** The traversal both procedures start from. */
  method Traverse(src: MemoryStore) returns (walks: seq<Walked>)
    requires src.Valid()
    ensures walks == StoreWalks(src.enc, src.nodes)
  {
    var roots := src.RootIds();
    RootsApart(src.enc, src.nodes);
    walks := [];
    hide Roots, WalkOf;
    for i := 0 to |roots|
      invariant |walks| == i
      invariant forall k | 0 <= k < i ::
        roots[k] in src.nodes && walks[k] == Walked(roots[k], WalkOf(src.nodes, roots[k]))
    {
      assert roots[i] in roots;
      var walk := src.Walk(roots[i]);
      walks := walks + [Walked(roots[i], walk.value)];
    }
  }
}

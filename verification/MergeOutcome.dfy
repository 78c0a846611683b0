/** When a merge of stores is refused, and what its report counts, read off the two stores. */
module MergeOutcome {
  import opened Order
  import opened JsonValue
  import opened Forest
  import opened Store
  import opened MergeMeta
  import opened MergeNode
  import opened Merge

  /** Both stores hold `x`, and its recorded fields differ or, when merging for a replay, its results do. */
  ghost predicate Clash(src: Nodes, dst: Nodes, x: Id, replay: bool) {
    && x in src && x in dst
    && var a, b := dst[x], src[x];
       || a.parent != b.parent || a.kind != b.kind || a.attempt != b.attempt
       || a.payload.Keys != b.payload.Keys
       || (exists k | k in a.payload && k in b.payload :: !PyEq(a.payload[k], b.payload[k]))
       || (replay && b.result.Some? && b.result != a.result)
  }

  /** A merge is refused exactly when two nodes of one id clash. */
  lemma RefusedExactly(enc: Encoding, src: Nodes, dst: Nodes, replay: bool)
    requires WellFormed(enc, src)
    ensures (exists n | n in PlanOf(enc, src) :: Collides(dst, n, replay)) <==> exists x :: Clash(src, dst, x, replay)
  {
    hide WellFormed, IsPlan, PyEq, Collides, Clash, PlanOf;
    var plan := PlanOf(enc, src);
    PlanHolds(enc, src);
    if n :| n in plan && Collides(dst, n, replay) {
      CollisionIsClash(src, dst, n, replay);
      assert Clash(src, dst, n.id, replay);
    }
    if x :| Clash(src, dst, x, replay) {
      ClashIn(src, dst, x, replay);
      CollisionIsClash(src, dst, src[x], replay);
    }
  }

  lemma ClashIn(src: Nodes, dst: Nodes, x: Id, replay: bool)
    requires Clash(src, dst, x, replay)
    ensures x in src && x in dst
  {
  }

  lemma PlanHolds(enc: Encoding, src: Nodes)
    requires WellFormed(enc, src)
    ensures forall n | n in PlanOf(enc, src) :: n.id in src && src[n.id] == n
    ensures forall x | x in src :: src[x].id == x && src[x] in PlanOf(enc, src)
    ensures |PlanOf(enc, src)| == |src|
  {
    hide IsPlan, Roots, Preorder;
    PlanListsAll(enc, src);
    var plan := PlanOf(enc, src);
    forall x | x in src ensures src[x].id == x && src[x] in plan {
      assert x in Elements(PlanIds(enc, src));
      var i :| 0 <= i < |PlanIds(enc, src)| && PlanIds(enc, src)[i] == x;
      assert IdsOf(plan)[i] == x && plan[i] in plan;
    }
    DistinctCount(PlanIds(enc, src));
    assert |IdsOf(plan)| == |plan| && |src| == |src.Keys|;
  }

  lemma CollisionIsClash(src: Nodes, dst: Nodes, n: Node, replay: bool)
    requires n.id in src && src[n.id] == n
    ensures Collides(dst, n, replay) <==> Clash(src, dst, n.id, replay)
  {
    hide PyEq;
  }

  /** With injective ids only a merge for a replay is ever refused, and only for a result. */
  lemma RefusedOnlyForResults(enc: Encoding, src: Nodes, dst: Nodes, replay: bool)
    requires WellFormed(enc, src) && WellFormed(enc, dst) && enc.InjectiveIds()
    ensures (exists x :: Clash(src, dst, x, replay)) <==>
      replay && exists x | x in src && x in dst :: src[x].result.Some? && src[x].result != dst[x].result
  {
    hide WellFormed, PyEq;
    forall x
      ensures Clash(src, dst, x, replay) <==>
        replay && x in src && x in dst && src[x].result.Some? && src[x].result != dst[x].result
    {
      if x in src && x in dst { SameStoredId(enc, src, dst, x); }
    }
  }

  lemma SameStoredId(enc: Encoding, src: Nodes, dst: Nodes, x: Id)
    requires WellFormed(enc, src) && WellFormed(enc, dst) && enc.InjectiveIds() && x in src && x in dst
    ensures SameIdentity(dst[x], src[x])
  {
    assert src[x].id == x && enc.ValidForPut(src[x]);
    SameIdSameIdentity(enc, dst, src[x]);
  }

  /** A merge for a replay that is not refused notes no conflicting result. */
  lemma {:induction false} ReplayNotesNothing(enc: Encoding, t: Tally, plan: seq<Node>)
    requires enc.InjectiveTexts() && NoDuplicates(IdsOf(plan))
    requires forall n | n in plan && n.id in t.nodes :: n.result.Some? ==> n.result == t.nodes[n.id].result
    ensures MergeAll(enc, t, plan).resultConflicts == t.resultConflicts
    ensures forall n | n in plan && n.id in t.nodes :: RC !in n.meta && RC !in t.nodes[n.id].meta ==>
      n.id in MergeAll(enc, t, plan).nodes && RC !in MergeAll(enc, t, plan).nodes[n.id].meta
    decreases |plan|
  {
    hide SettledMeta, ResultCount, NewConflicts, IdsOf;
    if plan != [] {
      var n, rest := plan[0], plan[1..];
      assert n in plan && plan == [n] + rest && forall p | p in rest :: p in plan;
      PlanCons(plan);
      if n.id in t.nodes { QuietResult(enc, t.nodes[n.id], n); }
      var t1 := MergeOne(enc, t, n);
      MergeAllNodes(enc, t1, rest);
      ReplayNotesNothing(enc, t1, rest);
    }
  }

  lemma QuietResult(enc: Encoding, e: Node, n: Node)
    requires enc.InjectiveTexts() && (n.result.Some? ==> n.result == e.result)
    ensures ResultCount(enc, e, n) == 0
    ensures RC !in n.meta && RC !in e.meta ==> RC !in SettledMeta(enc, e, n)
  {
    hide MergedMeta;
    MergedAt(enc, e.meta, n.meta, RC);
  }

  /** Every plan node is counted once, as copied or as existing, and the copied ones are those the store gained. */
  lemma {:induction false} CountsExact(enc: Encoding, t: Tally, plan: seq<Node>)
    requires enc.InjectiveTexts()
    ensures
      var t' := MergeAll(enc, t, plan);
      && t'.copied + t'.existing == t.copied + t.existing + |plan|
      && |t'.nodes| - |t.nodes| == t'.copied - t.copied
    decreases |plan|
  {
    hide SettledMeta, ResultCount, NewConflicts;
    if plan != [] {
      var n, t1 := plan[0], MergeOne(enc, t, plan[0]);
      SizeOne(t.nodes, n.id, t1.nodes[n.id]);
      CountsExact(enc, t1, plan[1..]);
    }
  }

  lemma SizeOne(m: Nodes, x: Id, n: Node)
    ensures |m[x := n]| == |m| + if x in m then 0 else 1
  {
    assert m[x := n].Keys == m.Keys + {x};
    AddedCount(m.Keys, x);
  }

  /** What a merge of two stores reports: it copied the nodes only the source had, and met the others. */
  lemma ReportCounts(enc: Encoding, src: Nodes, dst: Nodes, replay: bool)
    requires WellFormed(enc, src) && enc.InjectiveTexts()
    ensures
      var t := MergeAll(enc, Start(dst), PlanOf(enc, src));
      && t.copied == |src.Keys - dst.Keys| && t.existing == |src.Keys * dst.Keys|
      && (replay && !(exists x :: Clash(src, dst, x, replay)) ==> t.resultConflicts == 0)
  {
    hide WellFormed, MergeAll, PlanOf, PyEq;
    var plan := PlanOf(enc, src);
    PlanHolds(enc, src);
    PlanDistinct(enc, src);
    CountsExact(enc, Start(dst), plan);
    MergedKeys(enc, src, dst);
    SetSplit(src.Keys, dst.Keys);
    if replay && !(exists x :: Clash(src, dst, x, replay)) {
      forall n | n in plan && n.id in dst ensures n.result.Some? ==> n.result == dst[n.id].result {
        assert !Clash(src, dst, n.id, replay);
      }
      ReplayNotesNothing(enc, Start(dst), plan);
    }
  }

  lemma PlanDistinct(enc: Encoding, src: Nodes)
    requires WellFormed(enc, src)
    ensures NoDuplicates(IdsOf(PlanOf(enc, src))) && Elements(IdsOf(PlanOf(enc, src))) == src.Keys
  {
    PlanListsAll(enc, src);
  }

  lemma MergedKeys(enc: Encoding, src: Nodes, dst: Nodes)
    requires WellFormed(enc, src) && enc.InjectiveTexts()
    ensures MergeAll(enc, Start(dst), PlanOf(enc, src)).nodes.Keys == dst.Keys + src.Keys
  {
    hide WellFormed, MergeAll, PlanOf, MergeOne;
    PlanDistinct(enc, src);
    MergeAllNodes(enc, Start(dst), PlanOf(enc, src));
  }

  lemma SetSplit<T>(a: set<T>, b: set<T>)
    ensures |b + a| == |b| + |a - b| && |a| == |a - b| + |a * b|
  {
    assert b + a == b + (a - b) && a == (a - b) + (a * b);
  }
}

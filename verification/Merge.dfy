/** Merging one store into another. */
module Merge {
  import opened Order
  import opened JsonValue
  import opened Forest
  import opened ForestChange
  import opened Store
  import opened MergeMeta
  import opened MergeNode

  // ---------------------------------------------------------------- the plan

  /** The ids of a merge plan: the walks of all roots, in root order. */
  ghost function PlanIds(enc: Encoding, m: Nodes): seq<Id>
    requires IsForest(m)
  {
    Preorder(m, Roots(enc, m))
  }

  lemma RootsApart(enc: Encoding, m: Nodes)
    requires IsForest(m)
    ensures Apart(m, Roots(enc, m)) && forall x | x in Roots(enc, m) :: x in m
  {
    RootsMembers(enc, m);
    var r := Roots(enc, m);
    forall i, j | 0 <= i < |r| && 0 <= j < |r| && i != j ensures !IsAncestor(m, r[i], r[j]) {
      assert r[i] in r && r[j] in r;
    }
  }

  /** The plan lists every node of the source once, parents first. */
  lemma PlanListsAll(enc: Encoding, m: Nodes)
    requires IsForest(m)
    ensures NoDuplicates(PlanIds(enc, m))
    ensures Elements(PlanIds(enc, m)) == m.Keys
    ensures forall j | 0 <= j < |PlanIds(enc, m)| :: PlanIds(enc, m)[j] in m
    ensures forall j | 0 <= j < |PlanIds(enc, m)| ::
      var n := m[PlanIds(enc, m)[j]];
      n.parent.Some? ==> n.parent.value in PlanIds(enc, m)[..j]
  {
    var roots, ids := Roots(enc, m), PlanIds(enc, m);
    RootsApart(enc, m);
    RootsMembers(enc, m);
    PreorderDistinct(m, roots);
    forall x ensures x in ids <==> x in m {
      PreorderMembers(m, roots, x);
      if x in m {
        var r := RootAbove(m, x);
        assert r in roots;
      }
    }
    forall j | 0 <= j < |ids| && ids[j] in m && m[ids[j]].parent.Some? ensures m[ids[j]].parent.value in ids[..j] {
      ParentsFirst(m, roots, j);
    }
    assert forall j | 0 <= j < |ids| :: ids[j] in ids;
  }

  /** Distinct valid nodes, each after its parent. */
  ghost predicate IsPlan(enc: Encoding, plan: seq<Node>) {
    && NoDuplicates(IdsOf(plan))
    && (forall j | 0 <= j < |plan| :: enc.ValidForPut(plan[j]))
    && forall j | 0 <= j < |plan| && plan[j].parent.Some? :: plan[j].parent.value in IdsOf(plan)[..j]
  }

  ghost function PlanOf(enc: Encoding, m: Nodes): (plan: seq<Node>)
    requires WellFormed(enc, m)
    ensures IdsOf(plan) == PlanIds(enc, m) && IsPlan(enc, plan)
    ensures forall n | n in plan :: n.id in m && n == m[n.id]
  {
    hide IsForest, Roots, PlanIds, IsPlan;
    PlanListsAll(enc, m);
    NodesArePlan(enc, m, PlanIds(enc, m));
    NodesAt(m, PlanIds(enc, m))
  }

  lemma NodesArePlan(enc: Encoding, m: Nodes, ids: seq<Id>)
    requires WellFormed(enc, m) && NoDuplicates(ids) && forall j | 0 <= j < |ids| :: ids[j] in m
    requires forall j | 0 <= j < |ids| :: m[ids[j]].parent.Some? ==> m[ids[j]].parent.value in ids[..j]
    ensures forall x | x in ids :: x in m
    ensures
      var plan := NodesAt(m, ids);
      IdsOf(plan) == ids && IsPlan(enc, plan) && forall n | n in plan :: n.id in m && n == m[n.id]
  {
    var plan := NodesAt(m, ids);
    assert forall j | 0 <= j < |plan| :: plan[j].id == ids[j];
    assert IdsOf(plan) == ids;
  }

  // ---------------------------------------------------------------- the fold over the plan

  datatype Tally = Tally(nodes: Nodes, copied: nat, existing: nat, resultConflicts: nat, metaConflicts: int)

  ghost function MergeOne(enc: Encoding, t: Tally, n: Node): Tally
    requires enc.InjectiveTexts()
  {
    if n.id !in t.nodes then t.(nodes := t.nodes[n.id := n], copied := t.copied + 1)
    else
      var e := t.nodes[n.id];
      Tally(t.nodes[n.id := e.(meta := SettledMeta(enc, e, n))], t.copied, t.existing + 1,
            t.resultConflicts + ResultCount(enc, e, n), t.metaConflicts + NewConflicts(enc, e.meta, n.meta))
  }

  ghost function MergeAll(enc: Encoding, t: Tally, plan: seq<Node>): Tally
    requires enc.InjectiveTexts()
    decreases |plan|
  {
    if plan == [] then t else MergeAll(enc, MergeOne(enc, t, plan[0]), plan[1..])
  }

  ghost function Start(m: Nodes): Tally {
    Tally(m, 0, 0, 0, 0)
  }

  /** What stops a merge before it writes. */
  predicate Collides(m: Nodes, n: Node, replay: bool) {
    n.id in m && (!SameIdentity(m[n.id], n) || (replay && ResultConflict(m[n.id], n)))
  }

  lemma {:induction false} MergeAllSnoc(enc: Encoding, t: Tally, plan: seq<Node>, n: Node)
    requires enc.InjectiveTexts()
    ensures MergeAll(enc, t, plan + [n]) == MergeOne(enc, MergeAll(enc, t, plan), n)
    decreases |plan|
  {
    if plan == [] {
      assert (plan + [n])[1..] == [];
    } else {
      assert (plan + [n])[1..] == plan[1..] + [n];
      MergeAllSnoc(enc, MergeOne(enc, t, plan[0]), plan[1..], n);
    }
  }

  lemma NoDuplicatesCons<T(!new)>(x: T, s: seq<T>)
    requires NoDuplicates([x] + s)
    ensures x !in s && NoDuplicates(s)
  {
    var all := [x] + s;
    forall i | 0 <= i < |s| ensures s[i] != x {
      assert all[0] == x && all[i + 1] == s[i];
    }
    forall i, j | 0 <= i < j < |s| ensures s[i] != s[j] {
      assert all[i + 1] == s[i] && all[j + 1] == s[j];
    }
  }

  lemma PlanCons(plan: seq<Node>)
    requires plan != [] && NoDuplicates(IdsOf(plan))
    ensures IdsOf(plan) == [plan[0].id] + IdsOf(plan[1..])
    ensures plan[0].id !in IdsOf(plan[1..]) && NoDuplicates(IdsOf(plan[1..]))
    ensures forall p | p in plan[1..] :: p.id in IdsOf(plan[1..])
  {
    assert IdsOf(plan) == [plan[0].id] + IdsOf(plan[1..]);
    NoDuplicatesCons(plan[0].id, IdsOf(plan[1..]));
    forall p | p in plan[1..] ensures p.id in IdsOf(plan[1..]) {
      var i :| 0 <= i < |plan[1..]| && plan[1..][i] == p;
      assert IdsOf(plan[1..])[i] == p.id;
    }
  }

  /** `m'` is `t.nodes` with every plan entry merged in, and nothing else changed. */
  ghost predicate MergedWith(enc: Encoding, t: Tally, plan: seq<Node>, m': Nodes)
    requires enc.InjectiveTexts()
  {
    && m'.Keys == t.nodes.Keys + Elements(IdsOf(plan))
    && (forall x | x in t.nodes && x !in IdsOf(plan) :: m'[x] == t.nodes[x])
    && (forall n | n in plan :: n.id in m' && m'[n.id] == MergeOne(enc, t, n).nodes[n.id])
  }

  /** The fold over a plan of distinct ids merges each entry with what was there at the start. */
  lemma {:induction false} MergeAllNodes(enc: Encoding, t: Tally, plan: seq<Node>)
    requires enc.InjectiveTexts() && NoDuplicates(IdsOf(plan))
    ensures MergedWith(enc, t, plan, MergeAll(enc, t, plan).nodes)
    decreases |plan|
  {
    if plan != [] {
      PlanCons(plan);
      MergeAllNodes(enc, MergeOne(enc, t, plan[0]), plan[1..]);
      MergedWithCons(enc, t, plan, MergeAll(enc, t, plan).nodes);
    }
  }

  lemma MergedWithCons(enc: Encoding, t: Tally, plan: seq<Node>, m': Nodes)
    requires enc.InjectiveTexts() && plan != [] && NoDuplicates(IdsOf(plan))
    requires MergedWith(enc, MergeOne(enc, t, plan[0]), plan[1..], m')
    ensures MergedWith(enc, t, plan, m')
  {
    hide SettledMeta, ResultCount, NewConflicts, IdsOf;
    PlanCons(plan);
    var n, t' := plan[0], MergeOne(enc, t, plan[0]);
    forall x ensures x in IdsOf(plan) <==> x == n.id || x in IdsOf(plan[1..]) {}
    assert m'.Keys == t.nodes.Keys + Elements(IdsOf(plan));
    forall p | p in plan ensures p.id in m' && m'[p.id] == MergeOne(enc, t, p).nodes[p.id] {
      if p != n { assert p in plan[1..]; }
    }
  }

  /** A merge adds every plan node and never changes an identity or a result the destination holds. */
  lemma MergeKeepsDestination(enc: Encoding, d: Nodes, plan: seq<Node>)
    requires enc.InjectiveTexts() && IsPlan(enc, plan) && forall x | x in d :: d[x].id == x
    ensures
      var d' := MergeAll(enc, Start(d), plan).nodes;
      && Extends(d, d') && d'.Keys == d.Keys + Elements(IdsOf(plan))
      && forall n | n in plan && n.id !in d :: n.id in d' && d'[n.id] == n
  {
    MergeAllNodes(enc, Start(d), plan);
    var d' := MergeAll(enc, Start(d), plan).nodes;
    hide MergeAll, SettledMeta, ResultCount, NewConflicts, IsPlan;
    forall x | x in d ensures x in d' && d'[x] == d[x].(meta := d'[x].meta) {
      if x in IdsOf(plan) {
        var i :| 0 <= i < |plan| && IdsOf(plan)[i] == x;
        assert plan[i] in plan && plan[i].id == x;
      }
    }
  }

  // ---------------------------------------------------------------- merging twice, and into nothing

  /** A plan whose every entry is settled changes nothing and reports nothing. */
  lemma {:induction false} SettledPlan(enc: Encoding, t: Tally, plan: seq<Node>)
    requires enc.InjectiveTexts()
    requires forall n | n in plan :: n.id in t.nodes && Settled(enc, t.nodes[n.id], n)
    ensures MergeAll(enc, t, plan) == t.(existing := t.existing + |plan|)
    decreases |plan|
  {
    if plan != [] {
      assert plan[0] in plan;
      SettledOne(enc, t, plan[0]);
      hide Settled, MergeOne;
      SettledPlan(enc, t.(existing := t.existing + 1), plan[1..]);
    }
  }

  lemma SettledOne(enc: Encoding, t: Tally, n: Node)
    requires enc.InjectiveTexts() && n.id in t.nodes && Settled(enc, t.nodes[n.id], n)
    ensures MergeOne(enc, t, n) == t.(existing := t.existing + 1)
  {
    hide SettledMeta, ResultCount, NewConflicts;
    assert t.nodes[n.id := t.nodes[n.id]] == t.nodes;
  }

  /** A second merge of `n` after a first one is a no-op that reports nothing. */
  ghost predicate Settles(enc: Encoding, d: Nodes, n: Node)
    requires enc.InjectiveTexts()
  {
    if n.id in d then !Restless(enc, d[n.id], n) else ListedOnce(enc, n.meta)
  }

  lemma MergeOneSettles(enc: Encoding, t: Tally, n: Node)
    requires enc.InjectiveTexts()
    ensures n.id in MergeOne(enc, t, n).nodes
    ensures Settled(enc, MergeOne(enc, t, n).nodes[n.id], n) <==> Settles(enc, t.nodes, n)
  {
    hide Settled, SettledMeta, Restless, ListedOnce, ResultCount, NewConflicts;
    if n.id in t.nodes { MergeSettles(enc, t.nodes[n.id], n); } else { CopySettles(enc, n); }
  }

  lemma {:induction false} CountsGrow(enc: Encoding, t: Tally, plan: seq<Node>)
    requires enc.InjectiveTexts()
    ensures
      var t' := MergeAll(enc, t, plan);
      t'.resultConflicts >= t.resultConflicts && t'.metaConflicts >= t.metaConflicts
    decreases |plan|
  {
    hide SettledMeta, ResultCount, NewConflicts;
    if plan != [] {
      if plan[0].id in t.nodes { NewConflictsCount(enc, t.nodes[plan[0].id].meta, plan[0].meta); }
      CountsGrow(enc, MergeOne(enc, t, plan[0]), plan[1..]);
    }
  }

  /** Conversely a merge that changes and reports nothing met only settled entries. */
  lemma {:induction false} NothingReported(enc: Encoding, t: Tally, plan: seq<Node>)
    requires enc.InjectiveTexts() && NoDuplicates(IdsOf(plan)) && forall n | n in plan :: n.id in t.nodes
    requires MergeAll(enc, t, plan) == t.(existing := t.existing + |plan|)
    ensures forall n | n in plan :: Settled(enc, t.nodes[n.id], n)
    decreases |plan|
  {
    hide SettledMeta, ResultCount, NewConflicts, Settled, IdsOf;
    if plan != [] {
      var n, rest := plan[0], plan[1..];
      assert n in plan && plan == [n] + rest && forall p | p in rest :: p in plan;
      PlanCons(plan);
      MergeAllNodes(enc, t, plan);
      CountsGrow(enc, MergeOne(enc, t, n), rest);
      QuietOne(enc, t, n);
      NothingReported(enc, MergeOne(enc, t, n), rest);
    }
  }

  lemma QuietOne(enc: Encoding, t: Tally, n: Node)
    requires enc.InjectiveTexts() && n.id in t.nodes && MergeOne(enc, t, n).nodes[n.id] == t.nodes[n.id]
    requires MergeOne(enc, t, n).resultConflicts <= t.resultConflicts
    requires MergeOne(enc, t, n).metaConflicts <= t.metaConflicts
    ensures Settled(enc, t.nodes[n.id], n) && MergeOne(enc, t, n) == t.(existing := t.existing + 1)
  {
    hide SettledMeta, ResultCount, NewConflicts;
    var e := t.nodes[n.id];
    NewConflictsCount(enc, e.meta, n.meta);
    assert e.(meta := SettledMeta(enc, e, n)) == e;
    assert t.nodes[n.id := e] == t.nodes;
  }

  /** Merging the same plan a second time is never refused. It copies nothing, changes no node or metadata and
      reports no conflict, exactly when every entry settles. */
  lemma MergeTwice(enc: Encoding, d: Nodes, plan: seq<Node>, replay: bool)
    requires enc.InjectiveTexts() && IsPlan(enc, plan) && forall n | n in plan :: !Collides(d, n, replay)
    ensures
      var d' := MergeAll(enc, Start(d), plan).nodes;
      && (forall n | n in plan :: !Collides(d', n, replay))
      && (MergeAll(enc, Start(d'), plan) == Tally(d', 0, |plan|, 0, 0) <==> forall n | n in plan :: Settles(enc, d, n))
  {
    hide SettledMeta, ResultCount, NewConflicts, Settled, Settles, MergeAll, Collides, MergeOne;
    MergeAllNodes(enc, Start(d), plan);
    var d' := MergeAll(enc, Start(d), plan).nodes;
    forall n | n in plan
      ensures !Collides(d', n, replay) && n.id in d'
      ensures Settled(enc, d'[n.id], n) <==> Settles(enc, d, n)
    {
      MergeOneSettles(enc, Start(d), n);
      MergeOneRemains(enc, d, n, replay);
      SameCollision(d', MergeOne(enc, Start(d), n).nodes, n, replay);
    }
    if forall n | n in plan :: Settles(enc, d, n) { SettledPlan(enc, Start(d'), plan); }
    if MergeAll(enc, Start(d'), plan) == Tally(d', 0, |plan|, 0, 0) { NothingReported(enc, Start(d'), plan); }
  }

  lemma SameCollision(m: Nodes, m': Nodes, n: Node, replay: bool)
    requires n.id in m && n.id in m' && m[n.id] == m'[n.id]
    ensures Collides(m, n, replay) == Collides(m', n, replay)
  {
  }

  /** Metadata that only put and merge wrote always settles. */
  lemma WrittenPlanSettles(enc: Encoding, d: Nodes, plan: seq<Node>)
    requires enc.InjectiveTexts() && enc.InjectiveResults() && IsPlan(enc, plan)
    requires forall n | n in plan :: WrittenMeta(enc, n.meta)
    requires forall x | x in d :: WrittenMeta(enc, d[x].meta)
    ensures forall n | n in plan :: Settles(enc, d, n)
  {
    hide Restless, ListedOnce, WrittenMeta;
    forall n | n in plan ensures Settles(enc, d, n) {
      if n.id in d { WrittenSettles(enc, d[n.id], n); } else { WrittenCopySettles(enc, n.meta); }
    }
  }

  lemma WrittenCopySettles(enc: Encoding, m: Dict)
    requires enc.InjectiveTexts() && WrittenMeta(enc, m)
    ensures ListedOnce(enc, m)
  {
    var l := ListValue(Get(m, MC));
    UnionAbsorbs(enc, l, l);
    PyEqReflexive(Arr(l));
  }

  lemma MergeOneRemains(enc: Encoding, d: Nodes, n: Node, replay: bool)
    requires enc.InjectiveTexts() && !Collides(d, n, replay)
    ensures !Collides(MergeOne(enc, Start(d), n).nodes, n, replay)
  {
    hide SettledMeta, ResultCount, NewConflicts;
    forall k | k in n.payload { PyEqReflexive(n.payload[k]); }
  }

  /** Merging a store into an empty one reproduces it, hence every walk and every seal. */
  lemma MergeIntoEmpty(enc: Encoding, m: Nodes)
    requires WellFormed(enc, m) && enc.InjectiveTexts()
    ensures MergeAll(enc, Start(map[]), PlanOf(enc, m)) == Tally(m, |m|, 0, 0, 0)
  {
    hide Preorder, IsForest, Intact, Put, SettledMeta, ResultCount, MergeAll, PlanIds, WellFormed, PlanOf, MergedWith;
    WellFormedIsForest(enc, m);
    var plan := PlanOf(enc, m);
    PlanListsAll(enc, m);
    DistinctCount(PlanIds(enc, m));
    MergeAllNodes(enc, Start(map[]), plan);
    CopiesAre(enc, m, plan, MergeAll(enc, Start(map[]), plan).nodes);
    CopyCounts(enc, Start(map[]), plan);
    assert |m| == |m.Keys|;
  }

  lemma CopiesAre(enc: Encoding, m: Nodes, plan: seq<Node>, m': Nodes)
    requires enc.InjectiveTexts() && MergedWith(enc, Start(map[]), plan, m')
    requires Elements(IdsOf(plan)) == m.Keys && forall n | n in plan :: n.id in m && n == m[n.id]
    ensures m' == m
  {
    hide SettledMeta, ResultCount, NewConflicts;
    forall x | x in m ensures x in m' && m'[x] == m[x] {
      assert x in Elements(IdsOf(plan));
      var i :| 0 <= i < |plan| && IdsOf(plan)[i] == x;
      assert plan[i] in plan;
    }
  }

  /** Entries that are new are all copied. */
  lemma {:induction false} CopyCounts(enc: Encoding, t: Tally, plan: seq<Node>)
    requires enc.InjectiveTexts() && NoDuplicates(IdsOf(plan))
    requires forall n | n in plan :: n.id !in t.nodes
    ensures
      var t' := MergeAll(enc, t, plan);
      t' == t.(nodes := t'.nodes, copied := t.copied + |plan|)
    decreases |plan|
  {
    if plan != [] {
      PlanCons(plan);
      var t1 := MergeOne(enc, t, plan[0]);
      assert plan[0] in plan;
      forall n | n in plan[1..] ensures n.id !in t1.nodes { assert n in plan; }
      CopyCounts(enc, t1, plan[1..]);
    }
  }
}

/** What was spent below an anchor: the sum of the recorded charges. */
module Spending {
  import opened Order
  import opened JsonValue
  import opened Forest
  import opened ForestChange
  import opened Store

  /** The charge entries of a node; empty when they are not a dictionary. */
  function ChargesOf(n: Node): Dict {
    match Get(n.meta, "charges")
    case Some(Obj(charges)) => charges
    case _ => map[]
  }

  /** The amount charged to a meter; entries that are not numbers do not count. */
  function ChargeOf(n: Node, meter: string): int {
    match Get(ChargesOf(n), meter)
    case Some(Num(amount)) => amount
    case _ => 0
  }

  predicate Charged(n: Node, meter: string) {
    meter in ChargesOf(n) && ChargesOf(n)[meter].Num?
  }

  /** No amount is a boolean, which `charge_to_decimal` rejects. */
  ghost predicate CleanNode(n: Node) {
    forall k | k in ChargesOf(n) :: !ChargesOf(n)[k].Bool?
  }

  /** No amount at or below the anchor is a boolean. */
  ghost predicate CleanBelow(m: Nodes, anchor: Id)
    requires IsForest(m)
  {
    forall x | x in Preorder(m, [anchor]) && x in m :: CleanNode(m[x])
  }

  function ChargeAt(m: Nodes, x: Id, meter: string): int {
    if x in m then ChargeOf(m[x], meter) else 0
  }

  // ---------------------------------------------------------------- sums

  ghost function SumOver(m: Nodes, ids: seq<Id>, meter: string): int {
    if ids == [] then 0 else SumOver(m, ids[..|ids| - 1], meter) + ChargeAt(m, ids[|ids| - 1], meter)
  }

  /** The same sum over a set of nodes. */
  ghost function SumSet(m: Nodes, s: set<Id>, meter: string): int {
    if s == {} then 0
    else
      var x :| x in s;
      SumSet(m, s - {x}, meter) + ChargeAt(m, x, meter)
  }

  lemma {:induction false} SumSetTake(m: Nodes, s: set<Id>, x: Id, meter: string)
    requires x in s
    ensures SumSet(m, s, meter) == SumSet(m, s - {x}, meter) + ChargeAt(m, x, meter)
    decreases |s|
  {
    var y :| y in s && SumSet(m, s, meter) == SumSet(m, s - {y}, meter) + ChargeAt(m, y, meter);
    if y != x {
      SumSetTake(m, s - {y}, x, meter);
      SumSetTake(m, s - {x}, y, meter);
      assert s - {y} - {x} == s - {x} - {y};
    }
  }

  lemma {:induction false} SumIsSumSet(m: Nodes, ids: seq<Id>, meter: string)
    requires NoDuplicates(ids)
    ensures SumOver(m, ids, meter) == SumSet(m, Elements(ids), meter)
  {
    if ids != [] {
      var front, last := ids[..|ids| - 1], ids[|ids| - 1];
      SumIsSumSet(m, front, meter);
      assert ids == front + [last];
      assert last !in front;
      assert Elements(ids) - {last} == Elements(front);
      SumSetTake(m, Elements(ids), last, meter);
    }
  }

  lemma {:induction false} SumSetSame(m: Nodes, m': Nodes, s: set<Id>, meter: string)
    requires forall x | x in s :: ChargeAt(m, x, meter) == ChargeAt(m', x, meter)
    ensures SumSet(m, s, meter) == SumSet(m', s, meter)
    decreases |s|
  {
    if s != {} {
      var x :| x in s;
      SumSetTake(m, s, x, meter);
      SumSetTake(m', s, x, meter);
      SumSetSame(m, m', s - {x}, meter);
    }
  }

  /** What was charged to a meter at or below the anchor. */
  ghost function Spent(m: Nodes, anchor: Id, meter: string): int
    requires IsForest(m)
  {
    SumOver(m, Preorder(m, [anchor]), meter)
  }

  lemma SpentIsSumSet(m: Nodes, anchor: Id, meter: string)
    requires IsForest(m) && anchor in m
    ensures Spent(m, anchor, meter) == SumSet(m, Elements(Preorder(m, [anchor])), meter)
  {
    SubtreeDistinct(m, anchor);
    SumIsSumSet(m, Preorder(m, [anchor]), meter);
  }

  /** A new node adds its charge exactly to the anchors it lies below. */
  lemma SpentInsert(m: Nodes, n: Node, anchor: Id, meter: string)
    requires IsForest(m) && IsNewLeaf(m, n) && anchor in m
    ensures IsForest(m[n.id := n])
    ensures Spent(m[n.id := n], anchor, meter) == Spent(m, anchor, meter) +
      if n.parent.Some? && IsAncestor(m, anchor, n.parent.value) then ChargeOf(n, meter) else 0
  {
    hide IsForest, Preorder, SumSet, IsAncestor;
    InsertForest(m, n);
    InsertSubtree(m, n, anchor);
    var m' := m[n.id := n];
    SpentIsSumSet(m, anchor, meter);
    SpentIsSumSet(m', anchor, meter);
    var below, below' := Elements(Preorder(m, [anchor])), Elements(Preorder(m', [anchor]));
    SubtreeWithin(m, anchor);
    SumSetSame(m, m', below, meter);
    if n.parent.Some? && IsAncestor(m, anchor, n.parent.value) {
      SumSetTake(m', below', n.id, meter);
      assert below' - {n.id} == below;
    } else {
      assert below' == below;
    }
  }

  /** Rewriting nodes without touching their charges changes no sum. */
  lemma SpentSame(m: Nodes, m': Nodes, anchor: Id, meter: string)
    requires IsForest(m) && SameShape(m, m') && anchor in m
    requires forall x | x in m :: ChargesOf(m[x]) == ChargesOf(m'[x])
    ensures IsForest(m') && Spent(m', anchor, meter) == Spent(m, anchor, meter)
  {
    hide Preorder, SumSet, ChargesOf;
    SameShapePreorder(m, m', [anchor]);
    SpentIsSumSet(m, anchor, meter);
    SpentIsSumSet(m', anchor, meter);
    SubtreeWithin(m, anchor);
    SumSetSame(m, m', Elements(Preorder(m, [anchor])), meter);
  }

  lemma PutKeepsCharges(enc: Encoding, m: Nodes, n: Node)
    requires WellFormed(enc, m) && Put(enc, m, n).Ok?
    ensures forall x | x in m :: x in Put(enc, m, n).value && ChargesOf(Put(enc, m, n).value[x]) == ChargesOf(m[x])
  {
    hide SameIdentity, WellFormed, ChargesOf;
    if n.id in m { AbsorbKeepsCharges(enc, m[n.id], n); }
  }

  /** A put of a clean node keeps the amounts below an anchor clean. */
  lemma PutKeepsClean(enc: Encoding, m: Nodes, n: Node, anchor: Id)
    requires WellFormed(enc, m) && Put(enc, m, n).Ok? && IsForest(m) && anchor in m && CleanBelow(m, anchor)
    requires CleanNode(n)
    ensures IsForest(Put(enc, m, n).value) && CleanBelow(Put(enc, m, n).value, anchor)
  {
    hide WellFormed, IsForest, CleanBelow, CleanNode, ChargesOf, Put;
    var m' := Put(enc, m, n).value;
    PutWellFormed(enc, m, n);
    WellFormedIsForest(enc, m');
    if n.id in m {
      PutKeepsCharges(enc, m, n);
      SameClean(m, m', anchor);
    } else {
      InsertClean(m, n, anchor);
    }
  }

  lemma SameClean(m: Nodes, m': Nodes, anchor: Id)
    requires IsForest(m) && IsForest(m') && SameShape(m, m') && anchor in m && CleanBelow(m, anchor)
    requires forall x | x in m :: x in m' && ChargesOf(m'[x]) == ChargesOf(m[x])
    ensures CleanBelow(m', anchor)
  {
    hide IsForest, Preorder, ChargesOf;
    SameShapePreorder(m, m', [anchor]);
    SubtreeWithin(m, anchor);
  }

  lemma InsertClean(m: Nodes, n: Node, anchor: Id)
    requires IsForest(m) && IsNewLeaf(m, n) && anchor in m && CleanBelow(m, anchor) && CleanNode(n)
    requires IsForest(m[n.id := n])
    ensures CleanBelow(m[n.id := n], anchor)
  {
    hide IsForest, Preorder, ChargesOf, CleanNode, IsAncestor;
    InsertSubtree(m, n, anchor);
    SubtreeWithin(m, anchor);
    var below, m' := Preorder(m, [anchor]), m[n.id := n];
    forall x | x in Preorder(m', [anchor]) && x in m' ensures CleanNode(m'[x]) {
      assert x in Elements(Preorder(m', [anchor]));
      assert x == n.id || x in Elements(below);
    }
  }

  lemma AbsorbKeepsCharges(enc: Encoding, existing: Node, incoming: Node)
    requires Absorb(enc, existing, incoming).Ok?
    ensures ChargesOf(Absorb(enc, existing, incoming).value) == ChargesOf(existing)
  {
  }

  // ---------------------------------------------------------------- recompute_charges

  type Totals = map<string, int>

  function Amount(totals: Totals, meter: string): int {
    if meter in totals then totals[meter] else 0
  }

  ghost function ChargedNames(m: Nodes, ids: seq<Id>): set<string> {
    set x, k | x in ids && x in m && k in ChargesOf(m[x]) && Charged(m[x], k) :: k
  }

  /** The totals of all charged meters below an anchor. */
  ghost function TotalsOf(m: Nodes, anchor: Id): Totals
    requires IsForest(m)
  {
    map k | k in ChargedNames(m, Preorder(m, [anchor])) :: Spent(m, anchor, k)
  }

  lemma {:induction false} UnchargedSum(m: Nodes, ids: seq<Id>, meter: string)
    requires meter !in ChargedNames(m, ids)
    ensures SumOver(m, ids, meter) == 0
  {
    if ids != [] {
      var front, last := ids[..|ids| - 1], ids[|ids| - 1];
      assert last in ids;
      assert forall x | x in front :: x in ids;
      UnchargedSum(m, front, meter);
    }
  }

  /** `spent.get(meter, 0)` is what was spent. */
  lemma TotalsAreSpent(m: Nodes, anchor: Id, meter: string)
    requires IsForest(m)
    ensures Amount(TotalsOf(m, anchor), meter) == Spent(m, anchor, meter)
  {
    if meter !in TotalsOf(m, anchor) { UnchargedSum(m, Preorder(m, [anchor]), meter); }
  }

  /** The totals of a prefix of the walk. */
  ghost predicate TotalsUpto(m: Nodes, ids: seq<Id>, totals: Totals) {
    && totals.Keys == ChargedNames(m, ids)
    && forall k :: Amount(totals, k) == SumOver(m, ids, k)
  }

  /** The charges of `n` under the names in `done` are added. */
  ghost predicate Added(totals: Totals, n: Node, done: set<string>, sums: Totals) {
    && (forall k :: Amount(sums, k) == Amount(totals, k) + if k in done then ChargeOf(n, k) else 0)
    && sums.Keys == totals.Keys + set k | k in done && Charged(n, k)
  }

  lemma AddedStep(totals: Totals, n: Node, done: set<string>, sums: Totals, name: string)
    requires Added(totals, n, done, sums) && name !in done && name in ChargesOf(n)
    ensures Added(totals, n, done + {name},
      if ChargesOf(n)[name].Num? then sums[name := Amount(sums, name) + ChargesOf(n)[name].n] else sums)
  {
    hide ChargesOf;
  }

  lemma AddedAll(totals: Totals, n: Node, sums: Totals)
    requires Added(totals, n, ChargesOf(n).Keys, sums)
    ensures forall k :: Amount(sums, k) == Amount(totals, k) + ChargeOf(n, k)
    ensures sums.Keys == totals.Keys + set k | k in ChargesOf(n) && Charged(n, k)
  {
    hide ChargesOf;
  }

  /** Adds the charges of one node. */
  method AddCharges(totals: Totals, n: Node) returns (r: Result<Totals>)
    ensures r.Err? <==> !CleanNode(n)
    ensures r.Ok? ==> forall k :: Amount(r.value, k) == Amount(totals, k) + ChargeOf(n, k)
    ensures r.Ok? ==> r.value.Keys == totals.Keys + set k | k in ChargesOf(n) && Charged(n, k)
  {
    var charges := ChargesOf(n);
    var left := charges.Keys;
    var sums := totals;
    assert Added(totals, n, {}, sums);
    hide ChargesOf, Added, Charged, Amount, ChargeOf;
    while left != {}
      invariant left <= charges.Keys
      invariant forall k | k in charges && k !in left :: !charges[k].Bool?
      invariant Added(totals, n, charges.Keys - left, sums)
      decreases left
    {
      var name :| name in left;
      AddedStep(totals, n, charges.Keys - left, sums, name);
      assert charges.Keys - left + {name} == charges.Keys - (left - {name});
      left := left - {name};
      match charges[name]
      case Num(amount) => sums := sums[name := Amount(sums, name) + amount];
      case Bool(_) => return Err(TypeError);
      case _ =>
    }
    assert charges.Keys - left == charges.Keys;
    AddedAll(totals, n, sums);
    r := Ok(sums);
  }

  lemma TotalsSnoc(m: Nodes, ids: seq<Id>, i: nat, totals: Totals, totals': Totals)
    requires i < |ids| && ids[i] in m && TotalsUpto(m, ids[..i], totals)
    requires forall k :: Amount(totals', k) == Amount(totals, k) + ChargeOf(m[ids[i]], k)
    requires totals'.Keys == totals.Keys + set k | k in ChargesOf(m[ids[i]]) && Charged(m[ids[i]], k)
    ensures TotalsUpto(m, ids[..i + 1], totals')
  {
    var front := ids[..i + 1];
    assert front[..i] == ids[..i] && front[i] == ids[i];
    assert forall x :: x in front <==> x in ids[..i] || x == ids[i];
    hide ChargeOf, ChargesOf;
    forall k ensures Amount(totals', k) == SumOver(m, front, k) {
      assert SumOver(m, front, k) == SumOver(m, ids[..i], k) + ChargeAt(m, ids[i], k);
    }
  }

  /** `recompute_charges`: raises exactly when a boolean amount is met. */
  method RecomputeCharges(store: MemoryStore, root: Id) returns (r: Result<Totals>)
    requires store.Valid() && root in store.nodes
    ensures IsForest(store.nodes) && (r.Err? <==> !CleanBelow(store.nodes, root))
    ensures r.Ok? ==> r.value == TotalsOf(store.nodes, root)
  {
    hide *;
    ValidIsForest(store);
    ghost var m := store.nodes;
    ghost var ids := Preorder(m, [root]);
    WalkIds(m, root);
    var walk := store.Walk(root);
    var totals: Totals := map[];
    NoTotals(m, ids);
    for i := 0 to |walk.value|
      invariant TotalsUpto(m, ids[..i], totals)
      invariant forall j | 0 <= j < i :: CleanNode(m[ids[j]])
    {
      assert ids[i] in ids && walk.value[i] == m[ids[i]];
      var step := AddCharges(totals, walk.value[i]);
      if step.Err? {
        NotClean(m, root, ids[i]);
        return Err(step.error);
      }
      TotalsSnoc(m, ids, i, totals, step.value);
      totals := step.value;
    }
    assert ids[..|ids|] == ids;
    FullTotals(m, root, totals);
    AllClean(m, root);
    r := Ok(totals);
  }

  lemma NotClean(m: Nodes, root: Id, x: Id)
    requires IsForest(m) && x in m && x in Preorder(m, [root]) && !CleanNode(m[x])
    ensures !CleanBelow(m, root)
  {
  }

  lemma AllClean(m: Nodes, root: Id)
    requires IsForest(m)
    requires
      var ids := Preorder(m, [root]);
      forall j | 0 <= j < |ids| :: ids[j] in m && CleanNode(m[ids[j]])
    ensures CleanBelow(m, root)
  {
  }

  lemma NoTotals(m: Nodes, ids: seq<Id>)
    ensures TotalsUpto(m, ids[..0], map[])
  {
    assert ids[..0] == [];
  }

  lemma FullTotals(m: Nodes, root: Id, totals: Totals)
    requires IsForest(m) && TotalsUpto(m, Preorder(m, [root]), totals)
    ensures totals == TotalsOf(m, root)
  {
    forall k | k in totals ensures totals[k] == Spent(m, root, k) {
      assert Amount(totals, k) == SumOver(m, Preorder(m, [root]), k);
    }
  }
}

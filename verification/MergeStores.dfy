/** The merge procedures, as the loops the source runs. */
module MergeStores {
  import opened Order
  import opened JsonValue
  import opened Forest
  import opened Store
  import opened MergeMeta
  import opened MergeNode
  import opened Merge
  import opened MergeOutcome

  datatype MergeReport = MergeReport(copied: nat, existing: nat, resultConflicts: nat, metaConflicts: int)

  function ReportOf(t: Tally): MergeReport {
    MergeReport(t.copied, t.existing, t.resultConflicts, t.metaConflicts)
  }

  /** `_union_json_lists`: values keyed by JSON text, listed in the order of the texts. */
  method UnionJsonLists(enc: Encoding, first: seq<Json>, second: seq<Json>) returns (r: seq<Json>)
    requires enc.InjectiveTexts()
    ensures r == UnionLists(enc, first, second)
  {
    var all := first + second;
    var values: map<string, Json> := map[];
    for i := 0 to |all|
      invariant forall t | t in values :: values[t] in all[..i] && enc.jsonText(values[t]) == t
      invariant forall v | v in all[..i] :: enc.jsonText(v) in values
    {
      values := values[enc.jsonText(all[i]) := all[i]];
    }
    assert all[..|all|] == all;
    StringLessTotal();
    var texts := Sort(values.Keys, StringLess);
    r := [];
    for i := 0 to |texts|
      invariant |r| == i && forall j | 0 <= j < i :: texts[j] in values && r[j] == values[texts[j]]
    {
      assert texts[i] in Elements(texts);
      r := r + [values[texts[i]]];
    }
    ListedByText(enc, all, values, texts, r);
    assert Elements(all) == Elements(first) + Elements(second);
    CanonicalIsListing(enc, r);
  }

  lemma ListedByText(enc: Encoding, all: seq<Json>, values: map<string, Json>, texts: seq<string>, r: seq<Json>)
    requires enc.InjectiveTexts() && Sorted(texts, StringLess) && Elements(texts) == values.Keys
    requires forall t | t in values :: values[t] in all && enc.jsonText(values[t]) == t
    requires forall v | v in all :: enc.jsonText(v) in values
    requires |r| == |texts| && forall j | 0 <= j < |r| :: texts[j] in values && r[j] == values[texts[j]]
    ensures Canonical(enc, r) && Elements(r) == Elements(all)
  {
    forall i, j | 0 <= i < j < |r| ensures TextLess(enc)(r[i], r[j]) {
      assert StringLess(texts[i], texts[j]);
    }
    forall v | v in all ensures v in r {
      var t := enc.jsonText(v);
      assert t in Elements(texts);
      var j :| 0 <= j < |texts| && texts[j] == t;
      assert enc.jsonText(values[t]) == enc.jsonText(v);
    }
  }

  /** The fields of `e` with the keys in `done` joined in from `i`. */
  ghost function FieldsAfter(enc: Encoding, e: Dict, i: Dict, done: set<string>): Dict
    requires enc.InjectiveTexts() && done <= i.Keys
  {
    map k | k in e.Keys + done ::
      if k !in done then e[k] else if k !in e then i[k] else Joined(enc, e[k], i[k])
  }

  lemma FieldsStep(enc: Encoding, e: Dict, i: Dict, done: set<string>, k: string)
    requires enc.InjectiveTexts() && done <= i.Keys && k in i && k !in done
    ensures
      var fields := FieldsAfter(enc, e, i, done);
      && (k in fields <==> k in e)
      && (k in e ==> fields[k] == e[k])
      && FieldsAfter(enc, e, i, done + {k}) == fields[k := if k in e then Joined(enc, e[k], i[k]) else i[k]]
  {
    hide Joined;
  }

  lemma ConflictsStep(enc: Encoding, keys: seq<string>, n: nat, e: Json, i: Json, path: seq<string>)
    requires enc.InjectiveTexts() && e.Obj? && i.Obj? && Elements(keys) <= i.fields.Keys && n < |keys|
    ensures keys[n] in i.fields && Elements(keys[n..]) <= i.fields.Keys && Elements(keys[n + 1..]) <= i.fields.Keys
    ensures RenderAll(enc, KeyConflicts(keys[n..], e, i, path)) ==
      (if keys[n] in e.fields then RenderAll(enc, Conflicts(e.fields[keys[n]], i.fields[keys[n]], path + [keys[n]]))
       else []) + RenderAll(enc, KeyConflicts(keys[n + 1..], e, i, path))
  {
    assert forall k | k in keys[n..] || k in keys[n + 1..] :: k in Elements(keys);
    assert keys[n] in Elements(keys) && keys[n..][1..] == keys[n + 1..];
    hide Conflicts, Render;
  }

  /** `_merge_meta_value`. */
  method MergeMetaValue(enc: Encoding, existing: Json, incoming: Json, path: seq<string>)
    returns (merged: Json, conflicts: seq<Json>)
    requires enc.InjectiveTexts()
    ensures merged == Joined(enc, existing, incoming)
    ensures conflicts == RenderAll(enc, Conflicts(existing, incoming, path))
    decreases existing, 1
  {
    if PyEq(existing, incoming) {
      return existing, [];
    }
    if existing.Obj? && incoming.Obj? {
      StringLessTotal();
      var keys := Sort(incoming.fields.Keys, StringLess);
      var fields;
      fields, conflicts := MergeKeys(enc, keys, existing, incoming, path);
      merged := Obj(fields);
      assert FieldsAfter(enc, existing.fields, incoming.fields, incoming.fields.Keys) ==
        Joined(enc, existing, incoming).fields;
    } else if existing.Arr? && incoming.Arr? {
      var u := UnionJsonLists(enc, existing.items, incoming.items);
      merged, conflicts := Arr(u), [];
    } else {
      var values := UnionJsonLists(enc, [existing], [incoming]);
      merged := existing;
      conflicts := [Obj(map["path" := Str(JoinDots(path)), "values" := Arr(values)])];
      assert conflicts[0] == Render(enc, Conflict(path, existing, incoming));
    }
  }

  /** The loop over sorted keys, shared by `_merge_meta` and `_merge_meta_value`. */
  method MergeKeys(enc: Encoding, keys: seq<string>, existing: Json, incoming: Json, path: seq<string>)
    returns (fields: Dict, conflicts: seq<Json>)
    requires enc.InjectiveTexts() && existing.Obj? && incoming.Obj?
    requires Sorted(keys, StringLess) && Elements(keys) <= incoming.fields.Keys
    ensures fields == FieldsAfter(enc, existing.fields, incoming.fields, Elements(keys))
    ensures conflicts == RenderAll(enc, KeyConflicts(keys, existing, incoming, path))
    decreases existing, 0
  {
    hide StrictTotal, Joined, Conflicts, KeyConflicts, FieldsAfter, Render, Sorted;
    StringLessTotal();
    SortedDistinct(keys, StringLess);
    fields, conflicts := existing.fields, [];
    ghost var done: set<string> := {};
    FieldsStart(enc, existing.fields, incoming.fields);
    for n := 0 to |keys|
      invariant done == Elements(keys[..n]) && done <= incoming.fields.Keys
      invariant fields == FieldsAfter(enc, existing.fields, incoming.fields, done)
      invariant Elements(keys[n..]) <= incoming.fields.Keys
      invariant conflicts + RenderAll(enc, KeyConflicts(keys[n..], existing, incoming, path)) ==
        RenderAll(enc, KeyConflicts(keys, existing, incoming, path))
    {
      var k := keys[n];
      ConflictsStep(enc, keys, n, existing, incoming, path);
      FieldsStep(enc, existing.fields, incoming.fields, done, k);
      var nested := [];
      ghost var before, rest := conflicts, RenderAll(enc, KeyConflicts(keys[n + 1..], existing, incoming, path));
      if k !in fields {
        fields := fields[k := incoming.fields[k]];
      } else {
        var value;
        value, nested := MergeMetaValue(enc, fields[k], incoming.fields[k], path + [k]);
        fields := fields[k := value];
      }
      conflicts := conflicts + nested;
      Associate(before, nested, rest);
      done := done + {k};
    }
    assert keys[..|keys|] == keys && keys[|keys|..] == [];
    NoKeys(enc, existing, incoming, path);
  }

  lemma FieldsStart(enc: Encoding, e: Dict, i: Dict)
    requires enc.InjectiveTexts()
    ensures FieldsAfter(enc, e, i, {}) == e
  {
  }

  lemma NoKeys(enc: Encoding, e: Json, i: Json, path: seq<string>)
    requires enc.InjectiveTexts() && e.Obj? && i.Obj?
    ensures Elements<string>([]) <= i.fields.Keys && RenderAll(enc, KeyConflicts([], e, i, path)) == []
  {
  }

  lemma FieldsAreBase(enc: Encoding, e: Dict, i: Dict)
    requires enc.InjectiveTexts()
    ensures FieldsAfter(enc, e, i, i.Keys - {MC}) == MetaBase(enc, e, i)
  {
    hide Joined;
  }

  /** `_merge_meta`. */
  method MergeMetadata(enc: Encoding, existing: Dict, incoming: Dict) returns (merged: Dict, added: int)
    requires enc.InjectiveTexts()
    ensures merged == MergedMeta(enc, existing, incoming) && added == NewConflicts(enc, existing, incoming)
  {
    StringLessTotal();
    var recorded := UnionJsonLists(enc, ListValue(Get(existing, MC)), ListValue(Get(incoming, MC)));
    var keys := Sort(incoming.Keys - {MC}, StringLess);
    var conflicts;
    merged, conflicts := MergeKeys(enc, keys, Obj(existing), Obj(incoming), []);
    FieldsAreBase(enc, existing, incoming);
    hide Joined, KeyConflicts, FieldsAfter, MetaBase, StrictTotal;
    var updated := UnionJsonLists(enc, recorded, conflicts);
    if updated != [] {
      merged := merged[MC := Arr(updated)];
    }
    added := |updated| - |recorded|;
  }

  /** `_prepare_merge`. In a valid store `_validate_for_put` accepts every node, and the check for
      nodes already seen never skips one. */
  method PrepareMerge(src: MemoryStore) returns (plan: seq<Node>)
    requires src.Valid()
    ensures plan == PlanOf(src.enc, src.nodes)
  {
    ghost var m := src.nodes;
    PlanListsAll(src.enc, m);
    RootsApart(src.enc, m);
    var seen: set<Id> := {};
    plan := [];
    var roots := src.RootIds();
    for r := 0 to |roots|
      invariant Planned(m, roots[..r], plan) && seen == Elements(IdsOf(plan))
    {
      assert roots[r] in roots;
      var walk := src.Walk(roots[r]);
      plan, seen := PlanRoot(src.enc, m, roots, r, plan, seen, walk.value);
    }
    assert roots[..|roots|] == roots;
    NodesByIds(m, plan, PlanOf(src.enc, m));
  }

  /** The plan so far: the walks of the roots already visited. */
  ghost predicate Planned(m: Nodes, roots: seq<Id>, plan: seq<Node>)
    requires IsForest(m)
  {
    IdsOf(plan) == Preorder(m, roots) && forall n | n in plan :: n.id in m && n == m[n.id]
  }

  /** The inner loop of `_prepare_merge`. */
  method PlanRoot(enc: Encoding, ghost m: Nodes, ghost roots: seq<Id>, ghost r: nat,
      planned: seq<Node>, known: set<Id>, walk: seq<Node>)
    returns (plan: seq<Node>, seen: set<Id>)
    requires WellFormed(enc, m) && r < |roots| && roots[r] in m && NoDuplicates(Preorder(m, roots))
    requires Planned(m, roots[..r], planned) && known == Elements(IdsOf(planned)) && walk == WalkOf(m, roots[r])
    ensures Planned(m, roots[..r + 1], plan) && seen == Elements(IdsOf(plan))
  {
    plan, seen := planned, known;
    PlanSplit(m, roots, r);
    ghost var all := Preorder(m, roots);
    WalkNodes(m, roots[r]);
    hide Preorder, WalkOf, IsForest, IdsOf, NoDuplicates;
    IdsOfNil(planned);
    assert walk[..0] == [];
    for j := 0 to |walk|
      invariant IdsOf(plan) == IdsOf(planned) + IdsOf(walk[..j]) && seen == Elements(IdsOf(plan))
      invariant forall n | n in plan :: n.id in m && n == m[n.id]
    {
      var incoming := walk[j];
      assert incoming in walk;
      assert enc.ValidForPut(incoming);
      PlanStep(all, planned, walk, j, plan);
      if incoming.id !in seen {
        plan := plan + [incoming];
        seen := seen + {incoming.id};
      }
    }
    assert walk[..|walk|] == walk;
  }

  lemma IdsOfNil(s: seq<Node>)
    ensures IdsOf([]) == [] && IdsOf(s) + [] == IdsOf(s)
  {
  }

  lemma PlanStep(all: seq<Id>, planned: seq<Node>, walk: seq<Node>, j: nat, plan: seq<Node>)
    requires NoDuplicates(all) && j < |walk| && IdsOf(plan) == IdsOf(planned) + IdsOf(walk[..j])
    requires exists rest :: all == IdsOf(planned) + IdsOf(walk) + rest
    ensures walk[j].id !in IdsOf(plan)
    ensures IdsOf(plan + [walk[j]]) == IdsOf(planned) + IdsOf(walk[..j + 1])
    ensures Elements(IdsOf(plan + [walk[j]])) == Elements(IdsOf(plan)) + {walk[j].id}
  {
    FirstSight(all, IdsOf(planned), walk, j);
    IdsOfSnoc(plan, walk[j]);
    IdsOfSnoc(walk[..j], walk[j]);
    assert walk[..j + 1] == walk[..j] + [walk[j]];
    hide IdsOf, NoDuplicates;
    Associate(IdsOf(planned), IdsOf(walk[..j]), [walk[j].id]);
  }

  lemma WalkNodes(m: Nodes, root: Id)
    requires IsForest(m) && root in m
    ensures forall n | n in WalkOf(m, root) :: n.id in m && n == m[n.id]
  {
    SubtreeWithin(m, root);
    var ids := Preorder(m, [root]);
    assert forall j | 0 <= j < |ids| :: ids[j] in ids;
  }

  lemma FirstSight(all: seq<Id>, before: seq<Id>, walk: seq<Node>, j: nat)
    requires NoDuplicates(all) && j < |walk|
    requires exists rest :: all == before + IdsOf(walk) + rest
    ensures walk[j].id !in before + IdsOf(walk[..j])
  {
    var rest :| all == before + IdsOf(walk) + rest;
    var first := before + IdsOf(walk[..j]);
    forall i | 0 <= i < |first| ensures first[i] != walk[j].id {
      assert all[i] == first[i] && all[|first|] == walk[j].id;
    }
  }

  lemma NodesByIds(m: Nodes, a: seq<Node>, b: seq<Node>)
    requires IdsOf(a) == IdsOf(b)
    requires forall n | n in a || n in b :: n.id in m && n == m[n.id]
    ensures a == b
  {
    assert |a| == |IdsOf(a)| == |b|;
    forall i | 0 <= i < |a| ensures a[i] == b[i] {
      assert IdsOf(a)[i] == IdsOf(b)[i] && a[i] in a && b[i] in b;
    }
  }

  lemma PlanSplit(m: Nodes, roots: seq<Id>, r: nat)
    requires IsForest(m) && r < |roots| && roots[r] in m
    ensures Preorder(m, roots[..r + 1]) == Preorder(m, roots[..r]) + IdsOf(WalkOf(m, roots[r]))
    ensures exists rest :: Preorder(m, roots) == Preorder(m, roots[..r]) + IdsOf(WalkOf(m, roots[r])) + rest
  {
    assert roots[..r + 1] == roots[..r] + [roots[r]];
    PreorderAppend(m, roots[..r], [roots[r]]);
    assert roots == roots[..r + 1] + roots[r + 1..];
    PreorderAppend(m, roots[..r + 1], roots[r + 1..]);
    IdsOfWalk(m, roots[r]);
    assert Preorder(m, roots) ==
      Preorder(m, roots[..r]) + IdsOf(WalkOf(m, roots[r])) + Preorder(m, roots[r + 1..]);
  }

  lemma IdsOfWalk(m: Nodes, root: Id)
    requires IsForest(m) && root in m
    ensures IdsOf(WalkOf(m, root)) == Preorder(m, [root])
  {
    SubtreeWithin(m, root);
    var ids := Preorder(m, [root]);
    forall i | 0 <= i < |ids| ensures IdsOf(WalkOf(m, root))[i] == ids[i] {
      assert ids[i] in ids;
    }
  }

  lemma NotedKeepsKeys(enc: Encoding, e: Node, n: Node)
    requires enc.InjectiveTexts()
    ensures e.meta + NotedMeta(enc, e, n) == NotedMeta(enc, e, n)
  {
    hide Joined, Updated;
    assert e.meta.Keys <= NotedMeta(enc, e, n).Keys;
  }

  /** The metadata computed in the second loop of `_merge_prepared`, with its two counts. */
  method MergeNodeMeta(enc: Encoding, existing: Node, incoming: Node)
    returns (merged: Dict, results: nat, metas: int)
    requires enc.InjectiveTexts()
    ensures merged == NotedMeta(enc, existing, incoming)
    ensures results == ResultCount(enc, existing, incoming)
    ensures metas == NewConflicts(enc, existing.meta, incoming.meta)
  {
    merged, metas := MergeMetadata(enc, existing.meta, incoming.meta);
    results := 0;
    hide MergedMeta, NewConflicts, UnionLists;
    if ResultConflict(existing, incoming) {
      var noted := ListValue(Get(merged, RC));
      var conflicts := UnionJsonLists(enc, noted, [ConflictEntry(incoming)]);
      if |conflicts| > |noted| {
        results := 1;
      }
      merged := merged[RC := Arr(conflicts)];
    }
  }

  /** The body of that loop, for a node the destination holds. */
  method MergeExisting(dst: MemoryStore, incoming: Node) returns (results: nat, metas: int)
    requires dst.Valid() && dst.enc.InjectiveTexts() && incoming.id in dst.nodes
    modifies dst
    ensures dst.Valid()
    ensures dst.nodes == MergeOne(dst.enc, Start(old(dst.nodes)), incoming).nodes
    ensures results == ResultCount(dst.enc, old(dst.nodes)[incoming.id], incoming)
    ensures metas == NewConflicts(dst.enc, old(dst.nodes)[incoming.id].meta, incoming.meta)
  {
    var existing := dst.nodes[incoming.id];
    assert existing.id == incoming.id;
    hide IsForest, Intact, Indexed, NewConflicts, NotedMeta, ResultCount, PyEqDict;
    var merged;
    merged, results, metas := MergeNodeMeta(dst.enc, existing, incoming);
    NotedKeepsKeys(dst.enc, existing, incoming);
    if !PyEqDict(merged, existing.meta) {
      var _ := dst.UpdateMeta(existing.id, merged);
    } else {
      assert dst.nodes[incoming.id := existing] == dst.nodes;
    }
  }

  lemma PlanPrefix(enc: Encoding, d: Nodes, plan: seq<Node>, k: nat)
    requires enc.InjectiveTexts() && k < |plan|
    ensures MergeAll(enc, Start(d), plan[..k + 1]) == MergeOne(enc, MergeAll(enc, Start(d), plan[..k]), plan[k])
  {
    assert plan[..k + 1] == plan[..k] + [plan[k]];
    MergeAllSnoc(enc, Start(d), plan[..k], plan[k]);
  }

  lemma MergeOneAny(enc: Encoding, t: Tally, n: Node)
    requires enc.InjectiveTexts()
    ensures MergeOne(enc, t, n).nodes == MergeOne(enc, Start(t.nodes), n).nodes
  {
  }

  /** The first loop of `_merge_prepared`. */
  method CheckPlan(dst: MemoryStore, plan: seq<Node>, replay: bool) returns (ok: bool)
    ensures ok <==> forall n | n in plan :: !Collides(dst.nodes, n, replay)
  {
    for k := 0 to |plan|
      invariant forall j | 0 <= j < k :: !Collides(dst.nodes, plan[j], replay)
    {
      var incoming := plan[k];
      assert incoming in plan;
      if incoming.id in dst.nodes {
        var existing := dst.nodes[incoming.id];
        if !SameIdentity(existing, incoming) { return false; }
        if replay && ResultConflict(existing, incoming) { return false; }
      }
    }
    ok := true;
  }

  /** The second loop of `_merge_prepared`. */
  method WritePlan(dst: MemoryStore, plan: seq<Node>) returns (report: MergeReport)
    requires dst.Valid() && dst.enc.InjectiveTexts() && IsPlan(dst.enc, plan)
    modifies dst
    ensures dst.Valid()
    ensures
      var t := MergeAll(dst.enc, Start(old(dst.nodes)), plan);
      dst.nodes == t.nodes && report == ReportOf(t)
  {
    hide MergeAll, IsForest, Intact, Indexed, SettledMeta, ResultCount, NewConflicts, IsPlan, Put, IdsOf;
    report := MergeReport(0, 0, 0, 0);
    ghost var d := dst.nodes;
    ghost var t := Start(d);
    assert plan[..0] == [];
    MergeNothing(dst.enc, t);
    for k := 0 to |plan|
      invariant dst.Valid() && dst.nodes == t.nodes && report == ReportOf(t)
      invariant t == MergeAll(dst.enc, Start(d), plan[..k])
      invariant forall j | 0 <= j < k :: plan[j].id in dst.nodes
    {
      var incoming := plan[k];
      PlanPrefix(dst.enc, d, plan, k);
      MergeOneAny(dst.enc, t, incoming);
      if incoming.id !in dst.nodes {
        ParentPlanned(dst.enc, plan, k, dst.nodes);
        var _ := dst.PutNode(incoming);
        report := report.(copied := report.copied + 1);
      } else {
        var results, metas := MergeExisting(dst, incoming);
        report := MergeReport(report.copied, report.existing + 1, report.resultConflicts + results,
                              report.metaConflicts + metas);
      }
      t := MergeOne(dst.enc, t, incoming);
    }
    assert plan[..|plan|] == plan;
  }

  /** `_merge_prepared`: refuses before the first write, and otherwise folds the plan into the destination. */
  method MergePrepared(dst: MemoryStore, plan: seq<Node>, replay: bool) returns (r: Result<MergeReport>)
    requires dst.Valid() && dst.enc.InjectiveTexts() && IsPlan(dst.enc, plan)
    modifies dst
    ensures dst.Valid()
    ensures r.Err? <==> exists n | n in plan :: Collides(old(dst.nodes), n, replay)
    ensures r.Err? ==> r.error == IntegrityError && dst.nodes == old(dst.nodes)
    ensures r.Ok? ==>
      var t := MergeAll(dst.enc, Start(old(dst.nodes)), plan);
      dst.nodes == t.nodes && r.value == ReportOf(t)
  {
    var ok := CheckPlan(dst, plan, replay);
    if !ok { return Err(IntegrityError); }
    var report := WritePlan(dst, plan);
    r := Ok(report);
  }

  lemma MergeNothing(enc: Encoding, t: Tally)
    requires enc.InjectiveTexts()
    ensures MergeAll(enc, t, []) == t
  {
  }

  lemma ParentPlanned(enc: Encoding, plan: seq<Node>, k: nat, m: Nodes)
    requires IsPlan(enc, plan) && k < |plan| && plan[k].id !in m
    requires forall j | 0 <= j < k :: plan[j].id in m
    ensures Put(enc, m, plan[k]) == Ok(m[plan[k].id := plan[k]])
  {
    if plan[k].parent.Some? {
      var ids := IdsOf(plan)[..k];
      var j :| 0 <= j < |ids| && ids[j] == plan[k].parent.value;
      assert ids[j] == plan[j].id;
    }
  }

  /** `merge`. */
  method MergeInto(dst: MemoryStore, src: MemoryStore, replay: bool) returns (r: Result<MergeReport>)
    requires dst.Valid() && src.Valid() && dst.enc == src.enc && dst.enc.InjectiveTexts()
    modifies dst
    ensures dst.Valid()
    ensures
      var plan := PlanOf(src.enc, old(src.nodes));
      && (r.Err? <==> exists x :: Clash(old(src.nodes), old(dst.nodes), x, replay))
      && (r.Err? ==> r.error == IntegrityError && dst.nodes == old(dst.nodes))
      && (r.Ok? ==>
          && (var t := MergeAll(dst.enc, Start(old(dst.nodes)), plan);
              dst.nodes == t.nodes && r.value == ReportOf(t))
          && r.value.copied == |old(src.nodes).Keys - old(dst.nodes).Keys|
          && r.value.existing == |old(src.nodes).Keys * old(dst.nodes).Keys|
          && (replay ==> r.value.resultConflicts == 0))
  {
    hide IsPlan, MergeAll, Clash, Collides, WellFormed, Indexed, PlanOf;
    ghost var s, d := src.nodes, dst.nodes;
    RefusedExactly(src.enc, s, d, replay);
    ReportCounts(src.enc, s, d, replay);
    var plan := PrepareMerge(src);
    r := MergePrepared(dst, plan, replay);
  }
}

/** What one merge of a node keeps, of either side, in the metadata the store holds afterwards. */
module MergeKeeps {
  import opened Order
  import opened JsonValue
  import opened Forest
  import opened Store
  import opened MergeMeta
  import opened MergeLaws
  import opened MergeNode

  /** A stored record shows a conflict: its path and both of its sides. */
  predicate Shows(r: Json, c: Conflict) {
    && r.Obj? && "path" in r.fields && "values" in r.fields && r.fields["values"].Arr?
    && r.fields["path"] == Str(JoinDots(c.path))
    && c.existing in r.fields["values"].items && c.incoming in r.fields["values"].items
  }

  /** The conflicts of this merge that metadata `s` has on record. */
  ghost function OnRecord(e: Dict, i: Dict, s: Dict): set<Conflict> {
    set c | c in MetaConflicts(e, i) && exists r | r in ListValue(Get(s, MC)) :: Shows(r, c)
  }

  /** A stored entry shows the result of `n`, and its digest. */
  predicate ShowsResult(r: Json, n: Node) {
    && r.Obj? && r.fields.Keys == {"result_digest", "result"} && n.result == Some(r.fields["result"])
    && r.fields["result_digest"] == if n.resultDigest.Some? then Str(n.resultDigest.value) else Null
  }

  lemma EntryShows(n: Node)
    requires n.result.Some?
    ensures forall r :: ShowsResult(r, n) <==> r == ConflictEntry(n)
  {
    forall r | ShowsResult(r, n) ensures r == ConflictEntry(n) {
      assert r.fields == ConflictEntry(n).fields;
    }
  }

  /** `s` holds all that `n` brings: its metadata, in place or in a recorded conflict, its conflict records, and
      its result when that differs. */
  ghost predicate Holds(e: Node, n: Node, s: Dict) {
    && (forall k | k in n.meta && k != MC :: k in s && Kept(n.meta[k], s[k], [k], OnRecord(e.meta, n.meta, s)))
    && (forall r | r in ListValue(Get(n.meta, MC)) :: r in ListValue(Get(s, MC)))
    && (n.result.Some? && n.result != e.result ==> exists r | r in ListValue(Get(s, RC)) :: ShowsResult(r, n))
  }

  /** The incoming value at `k` survives the join, and the overwriting of the result conflicts by a list. */
  ghost predicate Survives(e: Node, n: Node, k: string)
    requires k in n.meta
  {
    if k == RC && n.result.Some? && n.result != e.result then
      if k !in e.meta then n.meta[k].Arr?
      else if e.meta[k].Arr? && n.meta[k].Arr? then
        PyEq(e.meta[k], n.meta[k]) ==>
          forall y | y in n.meta[k].items :: y in e.meta[k].items || ShowsResult(y, n)
      else !PyEq(e.meta[k], n.meta[k]) && !(e.meta[k].Obj? && n.meta[k].Obj?)
    else k in e.meta ==> Distinguishable(e.meta[k], n.meta[k])
  }

  /** A merge keeps all that the incoming node brings exactly when every key survives and, where the write is
      skipped because Python sees no difference, the existing metadata held all of it before. */
  lemma MergeDiscardsNothing(enc: Encoding, e: Node, n: Node)
    requires enc.InjectiveTexts()
    ensures Holds(e, n, SettledMeta(enc, e, n)) <==>
      && (forall k | k in n.meta && k != MC :: Survives(e, n, k))
      && (PyEqDict(NotedMeta(enc, e, n), e.meta) ==> Holds(e, n, e.meta))
  {
    hide Holds, Survives, NotedMeta;
    if PyEqDict(NotedMeta(enc, e, n), e.meta) {
      if Holds(e, n, e.meta) { HeldSurvives(enc, e, n); }
    } else {
      NotedHolds(enc, e, n);
    }
  }

  /** What the existing metadata holds already survives. */
  lemma HeldSurvives(enc: Encoding, e: Node, n: Node)
    requires enc.InjectiveTexts() && PyEqDict(NotedMeta(enc, e, n), e.meta) && Holds(e, n, e.meta)
    ensures forall k | k in n.meta && k != MC :: Survives(e, n, k)
  {
    hide NotedMeta, PyEqDict, ConflictEntry, PyEq, Distinguishable, MetaConflicts, Shows;
    forall k | k in n.meta && k != MC ensures Survives(e, n, k) {
      var cs := OnRecord(e.meta, n.meta, e.meta);
      forall c | c in cs && Under(c, [k]) ensures c in Met(e.meta[k], n.meta[k], [k]) {
        MetaConflictsAtKey(e.meta, n.meta, k, c);
      }
      KeptInPlace(e.meta[k], n.meta[k], [k], cs);
      if k == RC && ResultConflict(e, n) {
        SkippedList(enc, e, n);
        ListSurvives(e.meta[k], n.meta[k]);
      }
    }
  }

  lemma ListSurvives(v: Json, w: Json)
    requires v.Arr? && Distinguishable(v, w)
    ensures if w.Arr? then PyEq(v, w) ==> forall y | y in w.items :: y in v.items else !PyEq(v, w)
  {
  }

  // ---------------------------------------------------------------- when the write happens

  /** The noted metadata holds all that survives. */
  lemma NotedHolds(enc: Encoding, e: Node, n: Node)
    requires enc.InjectiveTexts()
    ensures Holds(e, n, NotedMeta(enc, e, n)) <==> forall k | k in n.meta && k != MC :: Survives(e, n, k)
  {
    hide NotedMeta, Survives, Kept, MetaConflicts, ConflictEntry, OnRecord, ShowsResult;
    if n.result.Some? { EntryShows(n); }
    var m := NotedMeta(enc, e, n);
    AllOnRecord(enc, e, n);
    IncomingRecords(enc, e, n);
    forall k | k in n.meta && k != MC
      ensures k in m && (Kept(n.meta[k], m[k], [k], OnRecord(e.meta, n.meta, m)) <==> Survives(e, n, k))
    {
      if k == RC && ResultConflict(e, n) { ResultsSurvive(enc, e, n); } else { KeySurvives(enc, e, n, k); }
    }
    if ResultConflict(e, n) {
      NotedEntry(enc, e, n);
      assert ShowsResult(ConflictEntry(n), n);
    }
  }

  lemma IncomingRecords(enc: Encoding, e: Node, n: Node)
    requires enc.InjectiveTexts()
    ensures forall r | r in ListValue(Get(n.meta, MC)) :: r in ListValue(Get(NotedMeta(enc, e, n), MC))
  {
    hide NotedMeta, Updated;
    NotedRecords(enc, e, n);
    assert forall r | r in ListValue(Get(n.meta, MC)) :: r in Elements(ListValue(Get(n.meta, MC)));
  }

  lemma RenderShows(enc: Encoding, c: Conflict)
    requires enc.InjectiveTexts()
    ensures Shows(Render(enc, c), c)
  {
    UnionMembers(enc, [c.existing], [c.incoming]);
  }

  lemma AllOnRecord(enc: Encoding, e: Node, n: Node)
    requires enc.InjectiveTexts()
    ensures OnRecord(e.meta, n.meta, NotedMeta(enc, e, n)) == Elements(MetaConflicts(e.meta, n.meta))
  {
    hide NotedMeta, MetaConflicts, Updated, Render, Shows;
    NotedRecords(enc, e, n);
    forall c | c in MetaConflicts(e.meta, n.meta)
      ensures exists r | r in ListValue(Get(NotedMeta(enc, e, n), MC)) :: Shows(r, c)
    {
      RecordsOnRecordOf(enc, e.meta, n.meta, c);
      RenderShows(enc, c);
    }
  }

  lemma KeySurvives(enc: Encoding, e: Node, n: Node, k: string)
    requires enc.InjectiveTexts() && k in n.meta && k != MC && (k == RC ==> !ResultConflict(e, n))
    ensures
      var m := NotedMeta(enc, e, n);
      k in m && (Kept(n.meta[k], m[k], [k], Elements(MetaConflicts(e.meta, n.meta))) <==> Survives(e, n, k))
  {
    hide MergedMeta, Kept, MetaConflicts;
    MergedKeepsKey(enc, e.meta, n.meta, k);
  }

  lemma ResultsSurvive(enc: Encoding, e: Node, n: Node)
    requires enc.InjectiveTexts() && RC in n.meta && ResultConflict(e, n)
    ensures
      var m, cs := NotedMeta(enc, e, n), Elements(MetaConflicts(e.meta, n.meta));
      RC in m && (Kept(n.meta[RC], m[RC], [RC], cs) <==> Survives(e, n, RC))
  {
    hide MergedMeta, MetaConflicts, ConflictEntry, UnionLists, PyEq, ShowsResult;
    EntryShows(n);
    var w, cs := n.meta[RC], Elements(MetaConflicts(e.meta, n.meta));
    MergedAt(enc, e.meta, n.meta, RC);
    NotedList(enc, e, n);
    var noted := ListValue(Get(MergedMeta(enc, e.meta, n.meta), RC));
    UnionMembers(enc, noted, [ConflictEntry(n)]);
    ConflictAt(e.meta, n.meta, RC);
    if RC in e.meta { EqualKinds(e.meta[RC], w); }
    if w.Arr? && RC in e.meta && e.meta[RC].Arr? {
      UnionMembers(enc, e.meta[RC].items, w.items);
    }
  }

  lemma EqualKinds(v: Json, w: Json)
    ensures PyEq(v, w) ==> v.Arr? == w.Arr?
  {
  }

  /** A conflict on the whole value at a key. */
  lemma ConflictAt(e: Dict, i: Dict, k: string)
    requires k in i && k != MC
    ensures (exists c | c in Elements(MetaConflicts(e, i)) :: c.path == [k] && c.incoming == i[k]) <==>
      k in e && !PyEq(e[k], i[k]) && !(e[k].Arr? && i[k].Arr?) && !(e[k].Obj? && i[k].Obj?)
  {
    hide MetaConflicts, PyEq;
    if k in e {
      forall c | Under(c, [k]) ensures c in MetaConflicts(e, i) <==> c in Conflicts(e[k], i[k], [k]) {
        MetaConflictsAtKey(e, i, k, c);
      }
      forall c | c in Conflicts(e[k], i[k], [k]) && e[k].Obj? && i[k].Obj? ensures c.path != [k] {
        ConflictsUnder(e[k], i[k], [k], c);
      }
      var whole := Conflict([k], e[k], i[k]);
      assert Under(whole, [k]);
      if !PyEq(e[k], i[k]) && !(e[k].Arr? && i[k].Arr?) && !(e[k].Obj? && i[k].Obj?) {
        assert whole in Conflicts(e[k], i[k], [k]);
      }
      assert forall c: Conflict | c.path == [k] :: Under(c, [k]);
    } else {
      forall c | c in MetaConflicts(e, i) ensures c.path != [k] {
        MetaConflictsMembers(e, i, c);
        var x :| x in i && x in e && x != MC && c in Conflicts(e[x], i[x], [x]);
        ConflictsUnder(e[x], i[x], [x], c);
        assert c.path[0] == [x][0] == x;
        assert [k][0] == k;
      }
    }
  }

  // ---------------------------------------------------------------- the existing side

  /** The existing content stays at its path, except that a result conflict replaces result conflicts that are
      not a list; existing conflict records always stay. */
  lemma MergeKeepsExisting(enc: Encoding, e: Node, n: Node)
    requires enc.InjectiveTexts()
    ensures
      var s := SettledMeta(enc, e, n);
      && (forall k | k in e.meta && k != MC :: k in s &&
            (Kept(e.meta[k], s[k], [k], {}) <==>
              (k == RC && n.result.Some? && n.result != e.result ==> e.meta[k].Arr?)))
      && (forall r | r in ListValue(Get(e.meta, MC)) :: r in ListValue(Get(s, MC)))
  {
    hide NotedMeta, Kept, PyEqDict;
    if PyEqDict(NotedMeta(enc, e, n), e.meta) {
      if ResultConflict(e, n) { SkippedList(enc, e, n); }
      forall k | k in e.meta ensures Kept(e.meta[k], e.meta[k], [k], {}) { KeptSelf(e.meta[k], [k]); }
    } else {
      NotedRecords(enc, e, n);
      assert forall r | r in ListValue(Get(e.meta, MC)) :: r in Elements(ListValue(Get(e.meta, MC)));
      forall k | k in e.meta && k != MC
        ensures k in NotedMeta(enc, e, n)
        ensures Kept(e.meta[k], NotedMeta(enc, e, n)[k], [k], {}) <==>
          (k == RC && ResultConflict(e, n) ==> e.meta[k].Arr?)
      {
        ExistingStays(enc, e, n, k);
      }
    }
  }

  lemma KeptSelf(v: Json, path: seq<string>)
    ensures Kept(v, v, path, {})
  {
  }

  lemma ExistingStays(enc: Encoding, e: Node, n: Node, k: string)
    requires enc.InjectiveTexts() && k in e.meta && k != MC
    ensures k in NotedMeta(enc, e, n)
    ensures Kept(e.meta[k], NotedMeta(enc, e, n)[k], [k], {}) <==> (k == RC && ResultConflict(e, n) ==> e.meta[k].Arr?)
  {
    hide MergedMeta, UnionLists, PyEq, ConflictEntry;
    MergedAt(enc, e.meta, n.meta, k);
    if k in n.meta { JoinKeepsExisting(enc, e.meta[k], n.meta[k], [k]); } else { KeptSelf(e.meta[k], [k]); }
    if k == RC && ResultConflict(e, n) {
      NotedList(enc, e, n);
      UnionMembers(enc, ListValue(Get(MergedMeta(enc, e.meta, n.meta), RC)), [ConflictEntry(n)]);
      if RC in n.meta && e.meta[RC].Arr? && n.meta[RC].Arr? { UnionMembers(enc, e.meta[RC].items, n.meta[RC].items); }
    }
  }

  // ---------------------------------------------------------------- what is lost

  /** `true` against a stored `1` is lost without a conflict: the key does not survive. */
  lemma BooleanLost(enc: Encoding, e: Node, n: Node)
    requires enc.InjectiveTexts() && !ResultConflict(e, n)
    requires e.meta == map["flag" := Num(1)] && n.meta == map["flag" := Bool(true)]
    ensures !Survives(e, n, "flag") && !Holds(e, n, SettledMeta(enc, e, n))
    ensures SettledMeta(enc, e, n) == e.meta && NewConflicts(enc, e.meta, n.meta) == 0
  {
    hide Holds, SettledMeta, NotedMeta;
    MergeDiscardsNothing(enc, e, n);
    assert !Survives(e, n, "flag");
    QuietLoss(enc, e, n, "flag");
  }

  /** `[true]` against a stored `[1, 1]` is lost although the lists differ: the key survives the join, but the
      union of two entries equals the stored list for Python and is not written. */
  lemma ListLost(enc: Encoding, e: Node, n: Node)
    requires enc.InjectiveTexts() && !ResultConflict(e, n)
    requires e.meta == map["x" := Arr([Num(1), Num(1)])] && n.meta == map["x" := Arr([Bool(true)])]
    ensures (forall k | k in n.meta :: Survives(e, n, k)) && !Holds(e, n, SettledMeta(enc, e, n))
    ensures SettledMeta(enc, e, n) == e.meta && NewConflicts(enc, e.meta, n.meta) == 0
  {
    hide SettledMeta, NotedMeta, Joined, MetaConflicts, PyEq, PyEqDict, NewConflicts, Kept;
    LengthsDiffer([Num(1), Num(1)], [Bool(true)]);
    OnesEqual(enc);
    QuietLoss(enc, e, n, "x");
    TrueNotKept();
    assert OnRecord(e.meta, n.meta, e.meta) == {};
  }

  lemma TrueNotKept()
    ensures !Kept(Arr([Bool(true)]), Arr([Num(1), Num(1)]), ["x"], {})
  {
    assert Bool(true) in [Bool(true)];
  }

  lemma OnesEqual(enc: Encoding)
    requires enc.InjectiveTexts()
    ensures PyEq(Joined(enc, Arr([Num(1), Num(1)]), Arr([Bool(true)])), Arr([Num(1), Num(1)]))
  {
    hide Joined, UnionLists, Canonical, PyEq;
    var a, b := [Num(1), Num(1)], [Bool(true)];
    var u := UnionLists(enc, a, b);
    LengthsDiffer(a, b);
    UnionMembers(enc, a, b);
    CanonicalCount(enc, u);
    assert Elements(u) == {Num(1), Bool(true)};
    TwoOnes(u);
    ListJoin(enc, a, b);
  }

  lemma TwoOnes(u: seq<Json>)
    requires |u| == 2 && forall v | v in u :: v == Num(1) || v == Bool(true)
    ensures PyEq(Arr(u), Arr([Num(1), Num(1)]))
  {
    assert u[0] in u && u[1] in u;
  }

  lemma ListJoin(enc: Encoding, a: seq<Json>, b: seq<Json>)
    requires enc.InjectiveTexts() && !PyEq(Arr(a), Arr(b))
    ensures Joined(enc, Arr(a), Arr(b)) == Arr(UnionLists(enc, a, b))
  {
  }

  /** Metadata with one key at which the join is, for Python, the existing value. */
  lemma QuietLoss(enc: Encoding, e: Node, n: Node, k: string)
    requires enc.InjectiveTexts() && !ResultConflict(e, n) && k != MC
    requires e.meta.Keys == {k} && n.meta.Keys == {k} && PyEq(Joined(enc, e.meta[k], n.meta[k]), e.meta[k])
    requires PyEq(e.meta[k], n.meta[k]) || (e.meta[k].Arr? && n.meta[k].Arr?)
    ensures SettledMeta(enc, e, n) == e.meta && MetaConflicts(e.meta, n.meta) == []
    ensures NewConflicts(enc, e.meta, n.meta) == 0 && PyEqDict(NotedMeta(enc, e, n), e.meta)
  {
    hide MetaConflicts, MergedMeta, PyEq, Updated, Recorded;
    NoConflictAt(e.meta, n.meta, k);
    NoResultNoCount(enc, e, n);
    MergedAt(enc, e.meta, n.meta, k);
    NothingRecorded(enc, e.meta, n.meta);
    assert forall x: string | x != MC && x != k :: x !in MergedMeta(enc, e.meta, n.meta) by {
      forall x: string | x != MC && x != k ensures x !in MergedMeta(enc, e.meta, n.meta) {
        MergedAt(enc, e.meta, n.meta, x);
      }
    }
    NotedAtConflicts(enc, e, n);
  }

  lemma NoConflictAt(e: Dict, i: Dict, k: string)
    requires e.Keys == {k} && i.Keys == {k} && (PyEq(e[k], i[k]) || (e[k].Arr? && i[k].Arr?))
    ensures MetaConflicts(e, i) == []
  {
    hide MetaConflicts;
    forall c ensures c !in MetaConflicts(e, i) {
      MetaConflictsMembers(e, i, c);
    }
    NoElements(MetaConflicts(e, i));
  }

  lemma NothingRecorded(enc: Encoding, e: Dict, i: Dict)
    requires enc.InjectiveTexts() && MC !in e && MC !in i && MetaConflicts(e, i) == []
    ensures Updated(enc, e, i) == [] && NewConflicts(enc, e, i) == 0
  {
    NoElements(Recorded(enc, e, i));
    NoElements(Updated(enc, e, i));
  }
}

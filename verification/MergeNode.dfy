/** Merging one node into another of the same identity, and doing it twice. */
module MergeNode {
  import opened Order
  import opened JsonValue
  import opened Forest
  import opened Store
  import opened MergeMeta
  import opened MergeLaws

  // ---------------------------------------------------------------- merging one node

  predicate ResultConflict(existing: Node, incoming: Node) {
    incoming.result.Some? && incoming.result != existing.result
  }

  /** Metadata after the join, with the incoming result noted when it conflicts. */
  ghost function NotedMeta(enc: Encoding, existing: Node, incoming: Node): Dict
    requires enc.InjectiveTexts()
  {
    var m := MergedMeta(enc, existing.meta, incoming.meta);
    if ResultConflict(existing, incoming)
    then m[RC := Arr(UnionLists(enc, ListValue(Get(m, RC)), [ConflictEntry(incoming)]))]
    else m
  }

  ghost function ResultCount(enc: Encoding, existing: Node, incoming: Node): nat
    requires enc.InjectiveTexts()
  {
    var noted := ListValue(Get(MergedMeta(enc, existing.meta, incoming.meta), RC));
    if ResultConflict(existing, incoming) && |UnionLists(enc, noted, [ConflictEntry(incoming)])| > |noted|
    then 1 else 0
  }

  /** The metadata the store holds afterwards: written only when Python sees a difference. */
  ghost function SettledMeta(enc: Encoding, existing: Node, incoming: Node): Dict
    requires enc.InjectiveTexts()
  {
    var m := NotedMeta(enc, existing, incoming);
    if PyEqDict(m, existing.meta) then existing.meta else m
  }

  // ---------------------------------------------------------------- counting listings

  lemma {:induction false} DistinctCount<T(!new)>(s: seq<T>)
    ensures |Elements(s)| <= |s|
    ensures |Elements(s)| == |s| <==> NoDuplicates(s)
  {
    if s != [] {
      var rest := s[1..];
      DistinctCount(rest);
      assert s == [s[0]] + rest;
      assert Elements(s) == {s[0]} + Elements(rest);
      if s[0] in rest {
        assert Elements(s) == Elements(rest);
      }
      assert NoDuplicates(s) <==> s[0] !in rest && NoDuplicates(rest) by { HeadApart(s); }
    } else {
      assert Elements(s) == {};
    }
  }

  lemma HeadApart<T(!new)>(s: seq<T>)
    requires s != []
    ensures NoDuplicates(s) <==> s[0] !in s[1..] && NoDuplicates(s[1..])
  {
    var rest := s[1..];
    assert forall i | 0 <= i < |rest| :: rest[i] == s[i + 1];
    if s[0] !in rest && NoDuplicates(rest) {
      forall i, j | 0 <= i < j < |s| ensures s[i] != s[j] {
        assert s[j] == rest[j - 1];
        if i > 0 { assert s[i] == rest[i - 1]; }
      }
    }
  }

  lemma Smaller<T>(a: set<T>, b: set<T>)
    requires a <= b
    ensures |a| <= |b| && (|a| == |b| ==> a == b)
  {
    assert b == a + (b - a) && |b| == |a| + |b - a|;
  }

  lemma CanonicalCount(enc: Encoding, s: seq<Json>)
    requires enc.InjectiveTexts() && Canonical(enc, s)
    ensures |s| == |Elements(s)|
  {
    TextLessTotal(enc);
    SortedDistinct(s, TextLess(enc));
    DistinctCount(s);
  }

  /** A listing grows by a union exactly when the other side holds something new. */
  lemma UnionGrows(enc: Encoding, a: seq<Json>, b: seq<Json>)
    requires enc.InjectiveTexts() && Canonical(enc, a)
    ensures |UnionLists(enc, a, b)| >= |a|
    ensures |UnionLists(enc, a, b)| == |a| <==> Elements(b) <= Elements(a)
    ensures |UnionLists(enc, a, b)| == |a| <==> UnionLists(enc, a, b) == a
  {
    var u := UnionLists(enc, a, b);
    CanonicalCount(enc, a);
    CanonicalCount(enc, u);
    Smaller(Elements(a), Elements(u));
    if Elements(b) <= Elements(a) { UnionAbsorbs(enc, a, b); }
  }

  /** No merge reports a negative number of conflicts, and it reports none when all are on record. */
  lemma NewConflictsCount(enc: Encoding, e: Dict, i: Dict)
    requires enc.InjectiveTexts()
    ensures NewConflicts(enc, e, i) >= 0
    ensures NewConflicts(enc, e, i) == 0 <==> Updated(enc, e, i) == Recorded(enc, e, i)
    ensures NewConflicts(enc, e, i) == 0 <==> !UnseenConflict(enc, e, i)
  {
    hide MetaConflicts, Render;
    var recorded, cs := Recorded(enc, e, i), MetaConflicts(e, i);
    var rendered := RenderAll(enc, cs);
    UnionGrows(enc, recorded, rendered);
    RecordedMembers(enc, e, i);
    AllRendered(enc, cs, recorded);
  }

  lemma AllRendered(enc: Encoding, cs: seq<Conflict>, s: seq<Json>)
    requires enc.InjectiveTexts()
    ensures Elements(RenderAll(enc, cs)) <= Elements(s) <==> forall c | c in cs :: Render(enc, c) in s
  {
    hide Render;
    forall c | c in cs ensures Render(enc, c) in Elements(RenderAll(enc, cs)) { RenderedIn(enc, cs, c); }
    forall r | r in RenderAll(enc, cs) ensures exists c | c in cs :: r == Render(enc, c) {
      var j :| 0 <= j < |cs| && r == Render(enc, cs[j]);
      assert cs[j] in cs;
    }
  }

  lemma RecordedMembers(enc: Encoding, e: Dict, i: Dict)
    requires enc.InjectiveTexts()
    ensures forall r :: r in Recorded(enc, e, i) <==> r in ListValue(Get(e, MC)) || r in ListValue(Get(i, MC))
  {
    assert forall r :: r in Recorded(enc, e, i) <==> r in Elements(Recorded(enc, e, i));
  }

  lemma RenderedIn(enc: Encoding, cs: seq<Conflict>, c: Conflict)
    requires enc.InjectiveTexts() && c in cs
    ensures Render(enc, c) in Elements(RenderAll(enc, cs))
  {
    var j :| 0 <= j < |cs| && cs[j] == c;
    assert RenderAll(enc, cs)[j] == Render(enc, c);
  }

  /** A conflict neither side has on record. */
  ghost predicate UnseenConflict(enc: Encoding, e: Dict, i: Dict)
    requires enc.InjectiveTexts()
  {
    exists c | c in MetaConflicts(e, i) ::
      Render(enc, c) !in ListValue(Get(e, MC)) && Render(enc, c) !in ListValue(Get(i, MC))
  }

  /** The result count sees a new entry exactly when the joined list has no repetitions. */
  lemma ResultCounted(enc: Encoding, e: Node, n: Node)
    requires enc.InjectiveTexts() && ResultConflict(e, n)
    ensures
      var noted := ListValue(Get(MergedMeta(enc, e.meta, n.meta), RC));
      ResultCount(enc, e, n) == 1 <==> ConflictEntry(n) !in noted && NoDuplicates(noted)
  {
    var noted := ListValue(Get(MergedMeta(enc, e.meta, n.meta), RC));
    hide MergedMeta, ConflictEntry;
    EntryCount(enc, noted, ConflictEntry(n));
  }

  /** An existing list that repeats a value hides the new entry from the count. */
  lemma RepeatedUncounted(enc: Encoding, e: Node, n: Node)
    requires enc.InjectiveTexts() && ResultConflict(e, n)
    requires e.meta == map[RC := Arr([Num(1), Num(1)])] && n.meta == map[]
    ensures ResultCount(enc, e, n) == 0
    ensures
      var m := NotedMeta(enc, e, n);
      RC in m && m[RC].Arr? && ConflictEntry(n) in m[RC].items && ConflictEntry(n) !in e.meta[RC].items
  {
    hide MergedMeta, NotedMeta, ResultCount;
    MergedAt(enc, e.meta, n.meta, RC);
    ResultCounted(enc, e, n);
    assert [Num(1), Num(1)][0] == [Num(1), Num(1)][1];
    CountIsBit(enc, e, n);
    NotedEntry(enc, e, n);
  }

  lemma CountIsBit(enc: Encoding, e: Node, n: Node)
    requires enc.InjectiveTexts()
    ensures ResultCount(enc, e, n) <= 1
  {
    hide MergedMeta;
  }

  lemma EntryCount(enc: Encoding, noted: seq<Json>, x: Json)
    requires enc.InjectiveTexts()
    ensures |UnionLists(enc, noted, [x])| > |noted| <==> x !in noted && NoDuplicates(noted)
  {
    hide UnionLists, Canonical, NoDuplicates;
    var u := UnionLists(enc, noted, [x]);
    CanonicalCount(enc, u);
    DistinctCount(noted);
    assert Elements(u) == Elements(noted) + {x};
    AddedCount(Elements(noted), x);
  }

  lemma AddedCount<T>(s: set<T>, x: T)
    ensures |s + {x}| == |s| + if x in s then 0 else 1
  {
    if x in s { assert s + {x} == s; }
  }

  // ---------------------------------------------------------------- merging twice

  /** Nothing in `i` is news to `m`. */
  ghost predicate Absorbs(enc: Encoding, m: Dict, i: Dict)
    requires enc.InjectiveTexts()
  {
    && (forall k | k in i && k != MC :: k in m && Joined(enc, m[k], i[k]) == m[k])
    && Canonical(enc, ListValue(Get(m, MC)))
    && Elements(ListValue(Get(i, MC))) <= Elements(ListValue(Get(m, MC)))
    && Elements(RenderAll(enc, MetaConflicts(m, i))) <= Elements(ListValue(Get(m, MC)))
  }

  lemma AbsorbedMerge(enc: Encoding, m: Dict, i: Dict)
    requires enc.InjectiveTexts() && Absorbs(enc, m, i)
    ensures MergedMeta(enc, m, i) == m && NewConflicts(enc, m, i) == 0
  {
    var mc := ListValue(Get(m, MC));
    AbsorbedRecords(enc, m, i);
    AbsorbedBase(enc, m, i);
    hide Updated, Recorded, Joined, Absorbs, MetaBase;
    assert mc != [] ==> m[MC] == Arr(mc) && m[MC := Arr(mc)] == m;
  }

  lemma AbsorbedRecords(enc: Encoding, m: Dict, i: Dict)
    requires enc.InjectiveTexts() && Absorbs(enc, m, i)
    ensures Recorded(enc, m, i) == ListValue(Get(m, MC)) && Updated(enc, m, i) == ListValue(Get(m, MC))
  {
    UnionAbsorbs(enc, ListValue(Get(m, MC)), ListValue(Get(i, MC)));
    UnionAbsorbs(enc, ListValue(Get(m, MC)), RenderAll(enc, MetaConflicts(m, i)));
  }

  lemma AbsorbedBase(enc: Encoding, m: Dict, i: Dict)
    requires enc.InjectiveTexts() && Absorbs(enc, m, i)
    ensures MetaBase(enc, m, i) == m
  {
    hide Updated, Recorded, Joined;
    assert m.Keys + (i.Keys - {MC}) == m.Keys;
  }

  /** A second merge of `n` into `e` leaves it alone and reports nothing. */
  ghost predicate Settled(enc: Encoding, e: Node, n: Node)
    requires enc.InjectiveTexts()
  {
    && SettledMeta(enc, e, n) == e.meta
    && ResultCount(enc, e, n) == 0
    && NewConflicts(enc, e.meta, n.meta) == 0
  }

  lemma AbsorbedSettles(enc: Encoding, e: Node, n: Node)
    requires enc.InjectiveTexts() && Absorbs(enc, e.meta, n.meta)
    requires ResultConflict(e, n) ==> RC in e.meta && e.meta[RC].Arr? && Canonical(enc, e.meta[RC].items)
    requires ResultConflict(e, n) ==> ConflictEntry(n) in e.meta[RC].items
    ensures Settled(enc, e, n)
  {
    AbsorbedMerge(enc, e.meta, n.meta);
    if ResultConflict(e, n) { UnionAbsorbs(enc, e.meta[RC].items, [ConflictEntry(n)]); }
    NotedSame(enc, e, n);
    PyEqDictReflexive(e.meta);
    hide NotedMeta, ResultCount, NewConflicts, PyEqDict;
  }

  lemma NotedSame(enc: Encoding, e: Node, n: Node)
    requires enc.InjectiveTexts() && MergedMeta(enc, e.meta, n.meta) == e.meta
    requires ResultConflict(e, n) ==>
      && RC in e.meta && e.meta[RC].Arr?
      && UnionLists(enc, e.meta[RC].items, [ConflictEntry(n)]) == e.meta[RC].items
    ensures NotedMeta(enc, e, n) == e.meta && ResultCount(enc, e, n) == 0
  {
    hide MergedMeta, UnionLists;
    assert ResultConflict(e, n) ==> e.meta[RC := Arr(e.meta[RC].items)] == e.meta;
  }

  lemma PyEqDictReflexive(m: Dict)
    ensures PyEqDict(m, m)
  {
    forall k | k in m { PyEqReflexive(m[k]); }
  }

  // ------------------------------------------------- exactly when the second merge is not a no-op

  /** The incoming result conflicts are not yet all in the list `u` a first merge leaves, and a second one sees it:
      a list that Python tells apart and that holds something new, or no list and no such conflict on record. */
  ghost predicate LateResults(enc: Encoding, u: seq<Json>, v: Json, records: seq<Json>)
    requires enc.InjectiveTexts()
  {
    if v.Arr? then !PyEq(Arr(u), v) && exists y | y in v.items :: y !in u
    else Render(enc, Conflict([RC], Arr(u), v)) !in records
  }

  /** Two result-conflict lists whose union a skipped write drops, the new entry with them. */
  ghost predicate DroppedResults(e: Node, n: Node) {
    && ResultConflict(e, n) && RC in e.meta && RC in n.meta && e.meta[RC].Arr? && n.meta[RC].Arr?
    && !PyEq(e.meta[RC], n.meta[RC])
    && ConflictEntry(n) !in e.meta[RC].items && ConflictEntry(n) !in n.meta[RC].items
  }

  /** A second merge of `n` changes or reports something. The cases follow the write at merge.py:322. */
  ghost predicate Restless(enc: Encoding, e: Node, n: Node)
    requires enc.InjectiveTexts()
  {
    var m := NotedMeta(enc, e, n);
    if PyEqDict(m, e.meta) then UnseenConflict(enc, e.meta, n.meta) || DroppedResults(e, n)
    else ResultConflict(e, n) && RC in n.meta
         && LateResults(enc, ListValue(Get(m, RC)), n.meta[RC], Updated(enc, e.meta, n.meta))
  }

  /** Merging `n` again after a merge is a no-op that reports nothing, exactly unless `Restless`. */
  lemma MergeSettles(enc: Encoding, e: Node, n: Node)
    requires enc.InjectiveTexts()
    ensures Settled(enc, e.(meta := SettledMeta(enc, e, n)), n) <==> !Restless(enc, e, n)
  {
    hide NotedMeta, Settled, UnseenConflict, DroppedResults, LateResults, Updated;
    if PyEqDict(NotedMeta(enc, e, n), e.meta) {
      assert e.(meta := SettledMeta(enc, e, n)) == e;
      SkippedSettles(enc, e, n);
    } else if ResultConflict(e, n) && RC in n.meta
      && LateResults(enc, ListValue(Get(NotedMeta(enc, e, n), RC)), n.meta[RC], Updated(enc, e.meta, n.meta)) {
      LateUnsettled(enc, e, n);
    } else {
      NotedSettles(enc, e, n);
    }
  }

  /** After a skipped write the second merge counts what the first did. */
  lemma SkippedSettles(enc: Encoding, e: Node, n: Node)
    requires enc.InjectiveTexts() && PyEqDict(NotedMeta(enc, e, n), e.meta)
    ensures Settled(enc, e, n) <==> !UnseenConflict(enc, e.meta, n.meta) && !DroppedResults(e, n)
  {
    hide NotedMeta, UnseenConflict, DroppedResults, PyEqDict, ResultCount, NewConflicts;
    NewConflictsCount(enc, e.meta, n.meta);
    if ResultConflict(e, n) { SkippedResults(enc, e, n); } else { NoResultNoCount(enc, e, n); }
  }

  lemma NoResultNoCount(enc: Encoding, e: Node, n: Node)
    requires enc.InjectiveTexts() && !ResultConflict(e, n)
    ensures ResultCount(enc, e, n) == 0 && !DroppedResults(e, n)
    ensures NotedMeta(enc, e, n) == MergedMeta(enc, e.meta, n.meta)
  {
    hide MergedMeta;
  }

  lemma SkippedResults(enc: Encoding, e: Node, n: Node)
    requires enc.InjectiveTexts() && ResultConflict(e, n) && PyEqDict(NotedMeta(enc, e, n), e.meta)
    ensures ResultCount(enc, e, n) == 0 <==> !DroppedResults(e, n)
  {
    hide MergedMeta, ConflictEntry, PyEqDict, UnionLists, PyEq;
    var noted := ListValue(Get(MergedMeta(enc, e.meta, n.meta), RC));
    SkippedList(enc, e, n);
    var a := e.meta[RC].items;
    EntryCount(enc, noted, ConflictEntry(n));
    MergedAt(enc, e.meta, n.meta, RC);
    if RC in n.meta && n.meta[RC].Arr? && !PyEq(e.meta[RC], n.meta[RC]) {
      var b := n.meta[RC].items;
      assert noted == UnionLists(enc, a, b);
      CanonicalCount(enc, noted);
      DistinctCount(noted);
      UnionMembers(enc, a, b);
    } else {
      assert noted == a;
      PyEqArray(UnionLists(enc, noted, [ConflictEntry(n)]), e.meta[RC]);
    }
  }

  /** A skipped write with a result conflict: the existing list is as long as the noted one. */
  lemma SkippedList(enc: Encoding, e: Node, n: Node)
    requires enc.InjectiveTexts() && ResultConflict(e, n) && PyEqDict(NotedMeta(enc, e, n), e.meta)
    ensures RC in e.meta && e.meta[RC].Arr?
    ensures
      var noted := ListValue(Get(MergedMeta(enc, e.meta, n.meta), RC));
      PyEq(Arr(UnionLists(enc, noted, [ConflictEntry(n)])), e.meta[RC])
  {
    hide MergedMeta, PyEq;
    assert PyEq(NotedMeta(enc, e, n)[RC], e.meta[RC]);
    PyEqArray(NotedMeta(enc, e, n)[RC].items, e.meta[RC]);
  }

  lemma PyEqArray(a: seq<Json>, v: Json)
    requires PyEq(Arr(a), v)
    ensures v.Arr? && |v.items| == |a|
  {
  }

  // ---------------------------------------------------------------- after a written merge

  lemma NotedKeyStays(enc: Encoding, e: Node, n: Node, k: string)
    requires enc.InjectiveTexts() && k in n.meta && k != MC && (k == RC ==> !ResultConflict(e, n))
    ensures k in NotedMeta(enc, e, n)
    ensures Joined(enc, NotedMeta(enc, e, n)[k], n.meta[k]) == NotedMeta(enc, e, n)[k]
    ensures k in e.meta ==> NotedMeta(enc, e, n)[k] == Joined(enc, e.meta[k], n.meta[k])
    ensures k !in e.meta ==> NotedMeta(enc, e, n)[k] == n.meta[k]
  {
    hide MergedMeta, Conflicts;
    MergedAt(enc, e.meta, n.meta, k);
    if k in e.meta { JoinIdempotent(enc, e.meta[k], n.meta[k], []); } else { PyEqReflexive(n.meta[k]); }
  }

  lemma NotedRecords(enc: Encoding, e: Node, n: Node)
    requires enc.InjectiveTexts()
    ensures ListValue(Get(NotedMeta(enc, e, n), MC)) == Updated(enc, e.meta, n.meta)
    ensures Canonical(enc, Updated(enc, e.meta, n.meta))
    ensures Elements(ListValue(Get(n.meta, MC))) <= Elements(Updated(enc, e.meta, n.meta))
    ensures Elements(ListValue(Get(e.meta, MC))) <= Elements(Updated(enc, e.meta, n.meta))
  {
    var updated := Updated(enc, e.meta, n.meta);
    NotedAtConflicts(enc, e, n);
    assert Elements(Recorded(enc, e.meta, n.meta)) <= Elements(updated);
    if updated == [] { NoElements(ListValue(Get(e.meta, MC))); }
  }

  lemma NotedAtConflicts(enc: Encoding, e: Node, n: Node)
    requires enc.InjectiveTexts()
    ensures Get(NotedMeta(enc, e, n), MC) ==
      var updated := Updated(enc, e.meta, n.meta);
      if updated != [] then Some(Arr(updated)) else Get(e.meta, MC)
  {
    hide Updated, Joined;
  }

  lemma NotedEntry(enc: Encoding, e: Node, n: Node)
    requires enc.InjectiveTexts() && ResultConflict(e, n)
    ensures
      var m := NotedMeta(enc, e, n);
      RC in m && m[RC].Arr? && Canonical(enc, m[RC].items) && ConflictEntry(n) in m[RC].items
  {
    var u := UnionLists(enc, ListValue(Get(MergedMeta(enc, e.meta, n.meta), RC)), [ConflictEntry(n)]);
    assert ConflictEntry(n) in Elements([ConflictEntry(n)]);
    assert ConflictEntry(n) in Elements(u);
  }

  /** Where the conflicts of a second merge come from: the first merge, or the noted results. */
  lemma SecondConflict(enc: Encoding, e: Node, n: Node, c: Conflict)
    requires enc.InjectiveTexts() && c in MetaConflicts(NotedMeta(enc, e, n), n.meta)
    ensures c !in MetaConflicts(e.meta, n.meta) ==>
      && ResultConflict(e, n) && RC in n.meta && !n.meta[RC].Arr?
      && c == Conflict([RC], Arr(ListValue(Get(NotedMeta(enc, e, n), RC))), n.meta[RC])
  {
    hide NotedMeta, Conflicts, MetaConflicts, ConflictEntry, Joined;
    var m, i := NotedMeta(enc, e, n), n.meta;
    MetaConflictsMembers(m, i, c);
    var k :| k in i && k in m && k != MC && c in Conflicts(m[k], i[k], [k]);
    if k == RC && ResultConflict(e, n) {
      NotedEntry(enc, e, n);
      ListConflicts(m[RC], i[RC], c);
    } else {
      NotedKeyStays(enc, e, n, k);
      if k in e.meta {
        JoinIdempotent(enc, e.meta[k], i[k], [k]);
      } else {
        PyEqReflexive(i[k]);
        PyEqNoConflicts(i[k], i[k], [k]);
      }
      MetaConflictsMembers(e.meta, i, c);
    }
  }

  lemma ListConflicts(v: Json, w: Json, c: Conflict)
    requires v.Arr? && c in Conflicts(v, w, [RC])
    ensures !w.Arr? && c == Conflict([RC], v, w)
  {
  }

  lemma RecordsOnRecordOf(enc: Encoding, e: Dict, i: Dict, c: Conflict)
    requires enc.InjectiveTexts() && c in MetaConflicts(e, i)
    ensures Render(enc, c) in Updated(enc, e, i)
  {
    RenderedIn(enc, MetaConflicts(e, i), c);
    assert Render(enc, c) in Elements(Updated(enc, e, i));
  }

  lemma NotedSettles(enc: Encoding, e: Node, n: Node)
    requires enc.InjectiveTexts()
    requires ResultConflict(e, n) && RC in n.meta ==>
      !LateResults(enc, ListValue(Get(NotedMeta(enc, e, n), RC)), n.meta[RC], Updated(enc, e.meta, n.meta))
    ensures Settled(enc, e.(meta := NotedMeta(enc, e, n)), n)
  {
    hide NotedMeta, Absorbs, Settled, LateResults, Updated;
    NotedAbsorbs(enc, e, n);
    if ResultConflict(e, n) { NotedEntry(enc, e, n); }
    AbsorbedSettles(enc, e.(meta := NotedMeta(enc, e, n)), n);
  }

  /** After one merge the existing metadata absorbs the incoming metadata. */
  lemma NotedAbsorbs(enc: Encoding, e: Node, n: Node)
    requires enc.InjectiveTexts()
    requires ResultConflict(e, n) && RC in n.meta ==>
      !LateResults(enc, ListValue(Get(NotedMeta(enc, e, n), RC)), n.meta[RC], Updated(enc, e.meta, n.meta))
    ensures Absorbs(enc, NotedMeta(enc, e, n), n.meta)
  {
    hide Joined, MetaConflicts, NotedMeta, Updated, LateResults, Render;
    var m, i := NotedMeta(enc, e, n), n.meta;
    NotedRecords(enc, e, n);
    forall k | k in i && k != MC ensures k in m && Joined(enc, m[k], i[k]) == m[k] {
      if k == RC && ResultConflict(e, n) { NotedResultsStay(enc, e, n); } else { NotedKeyStays(enc, e, n, k); }
    }
    forall r | r in RenderAll(enc, MetaConflicts(m, i)) ensures r in Updated(enc, e.meta, i) {
      var j :| 0 <= j < |MetaConflicts(m, i)| && r == Render(enc, MetaConflicts(m, i)[j]);
      NotedConflict(enc, e, n, MetaConflicts(m, i)[j]);
    }
  }

  lemma NotedConflict(enc: Encoding, e: Node, n: Node, c: Conflict)
    requires enc.InjectiveTexts() && c in MetaConflicts(NotedMeta(enc, e, n), n.meta)
    requires ResultConflict(e, n) && RC in n.meta ==>
      !LateResults(enc, ListValue(Get(NotedMeta(enc, e, n), RC)), n.meta[RC], Updated(enc, e.meta, n.meta))
    ensures Render(enc, c) in Updated(enc, e.meta, n.meta)
  {
    hide MetaConflicts, NotedMeta, Updated, Render;
    SecondConflict(enc, e, n, c);
    if c in MetaConflicts(e.meta, n.meta) { RecordsOnRecordOf(enc, e.meta, n.meta, c); }
  }

  lemma NotedResultsStay(enc: Encoding, e: Node, n: Node)
    requires enc.InjectiveTexts() && ResultConflict(e, n) && RC in n.meta
    requires !LateResults(enc, ListValue(Get(NotedMeta(enc, e, n), RC)), n.meta[RC], Updated(enc, e.meta, n.meta))
    ensures RC in NotedMeta(enc, e, n)
    ensures Joined(enc, NotedMeta(enc, e, n)[RC], n.meta[RC]) == NotedMeta(enc, e, n)[RC]
  {
    hide NotedMeta, Updated, Render, ConflictEntry;
    NotedEntry(enc, e, n);
    var v, w := NotedMeta(enc, e, n)[RC], n.meta[RC];
    if w.Arr? && !PyEq(v, w) { UnionAbsorbs(enc, v.items, w.items); }
  }

  /** Late results: the second merge adds a list entry, or reports one more conflict. */
  lemma LateUnsettled(enc: Encoding, e: Node, n: Node)
    requires enc.InjectiveTexts() && ResultConflict(e, n) && RC in n.meta
    requires LateResults(enc, ListValue(Get(NotedMeta(enc, e, n), RC)), n.meta[RC], Updated(enc, e.meta, n.meta))
    ensures !Settled(enc, e.(meta := NotedMeta(enc, e, n)), n)
  {
    hide NotedMeta, Updated, Render, ConflictEntry, MetaConflicts, SettledMeta, NewConflicts, ResultCount;
    NotedEntry(enc, e, n);
    if n.meta[RC].Arr? { LateList(enc, e, n); } else { LateConflict(enc, e, n); }
  }

  lemma LateConflict(enc: Encoding, e: Node, n: Node)
    requires enc.InjectiveTexts() && ResultConflict(e, n) && RC in n.meta && !n.meta[RC].Arr?
    requires Render(enc, Conflict([RC], Arr(ListValue(Get(NotedMeta(enc, e, n), RC))), n.meta[RC]))
      !in Updated(enc, e.meta, n.meta)
    ensures NewConflicts(enc, NotedMeta(enc, e, n), n.meta) > 0
  {
    hide NotedMeta, Updated, Render, MetaConflicts, NewConflicts;
    var m := NotedMeta(enc, e, n);
    NotedEntry(enc, e, n);
    NotedRecords(enc, e, n);
    var c := Conflict([RC], m[RC], n.meta[RC]);
    assert c in Conflicts(m[RC], n.meta[RC], [RC]);
    MetaConflictsMembers(m, n.meta, c);
    NewConflictsCount(enc, m, n.meta);
    assert forall r | r in ListValue(Get(n.meta, MC)) :: r in Elements(ListValue(Get(n.meta, MC)));
    assert Render(enc, c) !in ListValue(Get(n.meta, MC));
  }

  lemma LateList(enc: Encoding, e: Node, n: Node)
    requires enc.InjectiveTexts() && ResultConflict(e, n) && RC in n.meta && n.meta[RC].Arr?
    requires
      var u := ListValue(Get(NotedMeta(enc, e, n), RC));
      !PyEq(Arr(u), n.meta[RC]) && exists y | y in n.meta[RC].items :: y !in u
    ensures SettledMeta(enc, e.(meta := NotedMeta(enc, e, n)), n) != NotedMeta(enc, e, n)
  {
    hide NotedMeta, ConflictEntry, MergedMeta, PyEqDict;
    NotedEntry(enc, e, n);
    var m, b := NotedMeta(enc, e, n), n.meta[RC].items;
    var u, e' := m[RC].items, e.(meta := m);
    MergedAt(enc, m, n.meta, RC);
    var noted := ListValue(Get(MergedMeta(enc, m, n.meta), RC));
    assert noted == UnionLists(enc, u, b);
    var y :| y in b && y !in u;
    assert y in Elements(b) && y !in Elements(u);
    UnionGrows(enc, u, b);
    UnionGrows(enc, noted, [ConflictEntry(n)]);
    NotedList(enc, e', n);
    LongerDiffers(NotedMeta(enc, e', n), m);
  }

  lemma NotedList(enc: Encoding, e: Node, n: Node)
    requires enc.InjectiveTexts() && ResultConflict(e, n)
    ensures Get(NotedMeta(enc, e, n), RC) ==
      Some(Arr(UnionLists(enc, ListValue(Get(MergedMeta(enc, e.meta, n.meta), RC)), [ConflictEntry(n)])))
  {
    hide MergedMeta;
  }

  lemma LongerDiffers(m: Dict, m': Dict)
    requires RC in m && RC in m' && m[RC].Arr? && m'[RC].Arr? && |m[RC].items| > |m'[RC].items|
    ensures !PyEqDict(m, m') && m != m'
  {
    assert !PyEq(m[RC], m'[RC]);
  }

  // ---------------------------------------------------------------- special cases

  /** Two result-conflict lists, written: the second merge adds to them exactly when Python calls them equal
      and the incoming one holds a value that is neither in the existing one nor the new entry. */
  lemma LateLists(enc: Encoding, e: Node, n: Node)
    requires enc.InjectiveTexts() && ResultConflict(e, n) && !PyEqDict(NotedMeta(enc, e, n), e.meta)
    requires RC in e.meta && RC in n.meta && e.meta[RC].Arr? && n.meta[RC].Arr?
    ensures
      var a, b, x := e.meta[RC].items, n.meta[RC].items, ConflictEntry(n);
      Restless(enc, e, n) <==>
        PyEq(Arr(a), Arr(b)) && (exists y | y in b :: y !in a && y != x) && !PyEq(Arr(UnionLists(enc, a, [x])), Arr(b))
  {
    hide MergedMeta, NotedMeta, ConflictEntry, PyEqDict, Updated, UnseenConflict, DroppedResults, UnionLists, PyEq;
    var a, b, x := e.meta[RC].items, n.meta[RC].items, ConflictEntry(n);
    MergedAt(enc, e.meta, n.meta, RC);
    var noted := ListValue(Get(MergedMeta(enc, e.meta, n.meta), RC));
    var u := UnionLists(enc, noted, [x]);
    NotedList(enc, e, n);
    assert noted == if PyEq(Arr(a), Arr(b)) then a else UnionLists(enc, a, b);
    UnionMembers(enc, noted, [x]);
    UnionMembers(enc, a, b);
  }

  /** Result conflicts `[1]` against an incoming `[true]`: the second merge still changes the list. */
  lemma TrueArrivesLate(enc: Encoding, e: Node, n: Node)
    requires enc.InjectiveTexts() && ResultConflict(e, n)
    requires e.meta == map[RC := Arr([Num(1)])] && n.meta == map[RC := Arr([Bool(true)])]
    ensures Restless(enc, e, n)
  {
    hide MergedMeta, Restless, NotedMeta, UnionLists, PyEqDict, PyEq, Joined, Canonical, ConflictEntry, ResultConflict;
    EntryIsObject(n);
    var a, b, x := [Num(1)], [Bool(true)], ConflictEntry(n);
    var u := UnionLists(enc, a, [x]);
    TwoEntries(enc, Num(1), x);
    MergedAt(enc, e.meta, n.meta, RC);
    OneOneJoin(enc);
    NotedList(enc, e, n);
    LongerDiffers(NotedMeta(enc, e, n), e.meta);
    LateLists(enc, e, n);
    LengthsDiffer(u, b);
    assert Bool(true) in b && Bool(true) !in a && Bool(true) != x;
  }

  lemma LengthsDiffer(a: seq<Json>, b: seq<Json>)
    requires |a| != |b|
    ensures !PyEq(Arr(a), Arr(b))
  {
  }

  lemma EntryIsObject(n: Node)
    ensures ConflictEntry(n).Obj?
  {
  }

  lemma TwoEntries(enc: Encoding, v: Json, w: Json)
    requires enc.InjectiveTexts() && v != w
    ensures |UnionLists(enc, [v], [w])| == 2
  {
    var u := UnionLists(enc, [v], [w]);
    CanonicalCount(enc, u);
    assert Elements(u) == {v, w};
  }

  lemma OneOneJoin(enc: Encoding)
    requires enc.InjectiveTexts()
    ensures PyEq(Arr([Num(1)]), Arr([Bool(true)])) && Joined(enc, Arr([Num(1)]), Arr([Bool(true)])) == Arr([Num(1)])
  {
  }

  /** Metadata as put and merge write it: a canonical conflict list, and result conflicts bound to their digest. */
  ghost predicate WrittenMeta(enc: Encoding, m: Dict) {
    && (MC in m ==> m[MC].Arr? && Canonical(enc, m[MC].items))
    && (RC in m ==> m[RC].Arr? && forall v | v in m[RC].items :: IsConflictEntry(enc, v))
  }

  ghost predicate IsConflictEntry(enc: Encoding, v: Json) {
    && v.Obj? && v.fields.Keys == {"result_digest", "result"}
    && v.fields["result_digest"] == Str(enc.resultDigest(v.fields["result"]))
  }

  lemma EntriesEqual(enc: Encoding, v: Json, w: Json)
    requires enc.InjectiveResults() && IsConflictEntry(enc, v) && IsConflictEntry(enc, w) && PyEq(v, w)
    ensures v == w
  {
    assert PyEq(v.fields["result_digest"], w.fields["result_digest"]);
    assert v.fields["result"] == w.fields["result"];
    assert v.fields == w.fields;
  }

  lemma EntryListsEqual(enc: Encoding, a: seq<Json>, b: seq<Json>)
    requires enc.InjectiveResults() && PyEq(Arr(a), Arr(b))
    requires forall v | v in a || v in b :: IsConflictEntry(enc, v)
    ensures a == b
  {
    forall i | 0 <= i < |a| ensures a[i] == b[i] {
      assert a[i] in a && b[i] in b;
      EntriesEqual(enc, a[i], b[i]);
    }
  }

  /** Metadata that only put and merge wrote is never restless. */
  lemma WrittenSettles(enc: Encoding, e: Node, n: Node)
    requires enc.InjectiveTexts() && enc.InjectiveResults() && enc.ValidForPut(n)
    requires WrittenMeta(enc, e.meta) && WrittenMeta(enc, n.meta)
    ensures !Restless(enc, e, n)
  {
    hide NotedMeta, PyEqDict, Render, LateResults, UnseenConflict, PyEq, IsConflictEntry, ConflictEntry;
    if PyEqDict(NotedMeta(enc, e, n), e.meta) {
      WrittenSkipped(enc, e, n);
      if ResultConflict(e, n) && RC in e.meta && RC in n.meta && !PyEq(e.meta[RC], n.meta[RC]) {
        WrittenKept(enc, e, n);
      }
    } else if ResultConflict(e, n) && RC in n.meta {
      WrittenInTime(enc, e, n);
    }
  }

  lemma WrittenSkipped(enc: Encoding, e: Node, n: Node)
    requires enc.InjectiveTexts() && WrittenMeta(enc, e.meta) && PyEqDict(NotedMeta(enc, e, n), e.meta)
    ensures !UnseenConflict(enc, e.meta, n.meta)
  {
    hide UnseenConflict, Render, MetaConflicts, Updated, Recorded;
    var updated := Updated(enc, e.meta, n.meta);
    NotedRecords(enc, e, n);
    NotedAtConflicts(enc, e, n);
    NewConflictsCount(enc, e.meta, n.meta);
    RecordedWithin(enc, e.meta, n.meta);
    if updated != [] {
      assert PyEq(NotedMeta(enc, e, n)[MC], e.meta[MC]);
      CanonicalWithin(enc, e.meta[MC].items, updated);
    }
    CanonicalWithin(enc, Recorded(enc, e.meta, n.meta), updated);
  }

  lemma RecordedWithin(enc: Encoding, e: Dict, i: Dict)
    requires enc.InjectiveTexts()
    ensures Canonical(enc, Recorded(enc, e, i))
    ensures Elements(ListValue(Get(e, MC))) <= Elements(Recorded(enc, e, i)) <= Elements(Updated(enc, e, i))
  {
  }

  /** A canonical listing inside another is no longer, and equal when it holds as much. */
  lemma CanonicalWithin(enc: Encoding, a: seq<Json>, b: seq<Json>)
    requires enc.InjectiveTexts() && Canonical(enc, a) && Canonical(enc, b) && Elements(a) <= Elements(b)
    ensures |a| == |b| || Elements(b) <= Elements(a) ==> a == b
  {
    UnionGrows(enc, a, b);
    assert Elements(a) + Elements(b) == Elements(b);
    CanonicalIsListing(enc, b);
  }

  lemma WrittenKept(enc: Encoding, e: Node, n: Node)
    requires enc.InjectiveTexts() && enc.InjectiveResults() && enc.ValidForPut(n)
    requires WrittenMeta(enc, e.meta) && WrittenMeta(enc, n.meta)
    requires PyEqDict(NotedMeta(enc, e, n), e.meta) && ResultConflict(e, n) && RC in e.meta && RC in n.meta
    requires !PyEq(e.meta[RC], n.meta[RC])
    ensures ConflictEntry(n) in e.meta[RC].items
  {
    hide NotedMeta, PyEqDict, MergedMeta, ConflictEntry, IsConflictEntry, PyEq, UnionLists;
    var a, b, x := e.meta[RC].items, n.meta[RC].items, ConflictEntry(n);
    MergedAt(enc, e.meta, n.meta, RC);
    SkippedList(enc, e, n);
    var noted := UnionLists(enc, a, b);
    assert Get(MergedMeta(enc, e.meta, n.meta), RC) == Some(Arr(noted));
    NewEntryBound(enc, n);
    UnionMembers(enc, a, b);
    UnionMembers(enc, noted, [x]);
    EntryListsEqual(enc, UnionLists(enc, noted, [x]), a);
  }

  lemma UnionMembers(enc: Encoding, a: seq<Json>, b: seq<Json>)
    requires enc.InjectiveTexts()
    ensures forall y :: y in UnionLists(enc, a, b) <==> y in a || y in b
  {
    assert forall y :: y in UnionLists(enc, a, b) <==> y in Elements(UnionLists(enc, a, b));
  }

  lemma NewEntryBound(enc: Encoding, n: Node)
    requires enc.ValidForPut(n) && n.result.Some?
    ensures IsConflictEntry(enc, ConflictEntry(n))
  {
  }

  lemma WrittenInTime(enc: Encoding, e: Node, n: Node)
    requires enc.InjectiveTexts() && enc.InjectiveResults() && ResultConflict(e, n) && RC in n.meta
    requires WrittenMeta(enc, e.meta) && WrittenMeta(enc, n.meta)
    ensures !LateResults(enc, ListValue(Get(NotedMeta(enc, e, n), RC)), n.meta[RC], Updated(enc, e.meta, n.meta))
  {
    hide NotedMeta, MergedMeta, ConflictEntry, IsConflictEntry, Render;
    MergedAt(enc, e.meta, n.meta, RC);
    NotedList(enc, e, n);
    var b, noted := n.meta[RC].items, ListValue(Get(MergedMeta(enc, e.meta, n.meta), RC));
    var u := UnionLists(enc, noted, [ConflictEntry(n)]);
    if RC in e.meta && PyEq(e.meta[RC], n.meta[RC]) { EntryListsEqual(enc, e.meta[RC].items, b); }
    forall y | y in b ensures y in u {
      assert y in Elements(b);
      assert y in Elements(noted);
      assert y in Elements(u);
    }
  }

  // ---------------------------------------------------------------- merging a node into its copy

  lemma NoSelfConflicts(m: Dict)
    ensures MetaConflicts(m, m) == []
  {
    forall k | k in m { PyEqReflexive(m[k]); }
    EqualValuesNoConflicts(SortedStrings(m.Keys - {MC}), Obj(m), Obj(m), []);
  }

  /** The conflict list is, for Python, its own canonical listing. */
  ghost predicate ListedOnce(enc: Encoding, m: Dict)
    requires enc.InjectiveTexts()
  {
    var l := ListValue(Get(m, MC));
    PyEq(Arr(UnionLists(enc, l, l)), Arr(l))
  }

  /** A node just copied is settled exactly when its conflict list is canonical up to Python equality. */
  lemma CopySettles(enc: Encoding, n: Node)
    requires enc.InjectiveTexts()
    ensures Settled(enc, n, n) <==> ListedOnce(enc, n.meta)
  {
    hide MergedMeta, NotedMeta, UnionLists, PyEq, NewConflicts, ResultCount, PyEqDict;
    var m, l := MergedMeta(enc, n.meta, n.meta), ListValue(Get(n.meta, MC));
    var u := UnionLists(enc, l, l);
    CopyRecords(enc, n.meta);
    NoResultNoCount(enc, n, n);
    PyEqDictReflexive(n.meta);
    UnionMembers(enc, l, l);
    if l == [] {
      NoElements(u);
      PyEqReflexive(Arr(l));
    } else {
      assert l[0] in u;
      CopySeen(n.meta, m, u, l);
    }
  }

  /** A copied conflict list that repeats a value is rewritten by the next merge. */
  lemma RepeatedRecords(enc: Encoding, n: Node, v: Json)
    requires enc.InjectiveTexts() && n.meta == map[MC := Arr([v, v])]
    ensures !Settled(enc, n, n)
  {
    hide Settled, MergedMeta;
    CopySettles(enc, n);
    var u := UnionLists(enc, [v, v], [v, v]);
    CanonicalCount(enc, u);
    assert Elements(u) == {v};
    LengthsDiffer(u, [v, v]);
  }

  lemma CopySeen(m: Dict, m': Dict, u: seq<Json>, l: seq<Json>)
    requires MC in m && m[MC] == Arr(l) && m' == m[MC := Arr(u)]
    ensures PyEqDict(m', m) <==> PyEq(Arr(u), Arr(l))
    ensures m' == m ==> PyEq(Arr(u), Arr(l))
  {
    hide PyEq;
    forall k | k in m { PyEqReflexive(m[k]); }
    if PyEqDict(m', m) { assert PyEq(m'[MC], m[MC]); }
  }

  lemma CopyRecords(enc: Encoding, m: Dict)
    requires enc.InjectiveTexts()
    ensures NewConflicts(enc, m, m) == 0
    ensures
      var l := ListValue(Get(m, MC));
      var u := UnionLists(enc, l, l);
      MergedMeta(enc, m, m) == if u != [] then m[MC := Arr(u)] else m
  {
    hide MergedMeta;
    var l := ListValue(Get(m, MC));
    var u := UnionLists(enc, l, l);
    NoSelfConflicts(m);
    UnionAbsorbs(enc, u, []);
    assert Updated(enc, m, m) == u == Recorded(enc, m, m);
    CopyBase(enc, m);
    MergedFrom(enc, m, u);
  }

  lemma MergedFrom(enc: Encoding, m: Dict, u: seq<Json>)
    requires enc.InjectiveTexts() && Updated(enc, m, m) == u && MetaBase(enc, m, m) == m
    ensures MergedMeta(enc, m, m) == if u != [] then m[MC := Arr(u)] else m
  {
    hide Updated, MetaBase;
  }

  lemma CopyBase(enc: Encoding, m: Dict)
    requires enc.InjectiveTexts()
    ensures MetaBase(enc, m, m) == m
  {
    forall k | k in m { PyEqReflexive(m[k]); }
    assert m.Keys + (m.Keys - {MC}) == m.Keys;
  }
}

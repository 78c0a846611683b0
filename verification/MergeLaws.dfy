/** What the metadata union keeps, and how it treats its two sides alike. */
module MergeLaws {
  import opened Order
  import opened JsonValue
  import opened Forest
  import opened MergeMeta

  // ---------------------------------------------------------------- conflicts, key by key

  lemma {:induction false} KeyConflictsMembers(keys: seq<string>, e: Json, i: Json, path: seq<string>, c: Conflict)
    requires e.Obj? && i.Obj? && Elements(keys) <= i.fields.Keys
    ensures forall k | k in keys :: k in i.fields
    ensures c in KeyConflicts(keys, e, i, path) <==>
      exists k | k in keys && k in e.fields :: c in Conflicts(e.fields[k], i.fields[k], path + [k])
  {
    assert forall k | k in keys :: k in Elements(keys);
    if keys != [] {
      var k := keys[0];
      assert Elements(keys[1..]) <= Elements(keys);
      var here := if k in e.fields then Conflicts(e.fields[k], i.fields[k], path + [k]) else [];
      KeyConflictsMembers(keys[1..], e, i, path, c);
      assert c in KeyConflicts(keys, e, i, path) <==> c in here || c in KeyConflicts(keys[1..], e, i, path);
      assert forall x | x in keys :: x == k || x in keys[1..];
    }
  }

  /** Where a conflict between two objects comes from. */
  lemma ObjectConflicts(e: Json, i: Json, path: seq<string>, c: Conflict)
    requires e.Obj? && i.Obj? && !PyEq(e, i)
    ensures c in Conflicts(e, i, path) <==>
      exists k | k in i.fields && k in e.fields :: c in Conflicts(e.fields[k], i.fields[k], path + [k])
  {
    var keys := SortedStrings(i.fields.Keys);
    KeyConflictsMembers(keys, e, i, path, c);
    assert forall k :: k in keys <==> k in Elements(keys);
  }

  lemma {:induction false} PyEqNoConflicts(e: Json, i: Json, path: seq<string>)
    requires PyEq(e, i)
    ensures Conflicts(e, i, path) == []
  {
  }

  lemma {:induction false} EqualValuesNoConflicts(keys: seq<string>, e: Json, i: Json, path: seq<string>)
    requires e.Obj? && i.Obj? && Elements(keys) <= i.fields.Keys
    requires forall k | k in e.fields && k in i.fields :: PyEq(e.fields[k], i.fields[k])
    ensures KeyConflicts(keys, e, i, path) == []
    decreases |keys|
  {
    if keys != [] {
      assert keys[0] in Elements(keys) && Elements(keys[1..]) <= Elements(keys);
      EqualValuesNoConflicts(keys[1..], e, i, path);
    }
  }

  // ---------------------------------------------------------------- symmetry

  function Swap(c: Conflict): Conflict {
    Conflict(c.path, c.incoming, c.existing)
  }

  lemma RenderSwap(enc: Encoding, c: Conflict)
    requires enc.InjectiveTexts()
    ensures Render(enc, c) == Render(enc, Swap(c))
  {
    UnionCommutes(enc, [c.existing], [c.incoming]);
  }

  /** The two directions of a join meet the same conflicts. */
  lemma {:induction false} ConflictsSwap(e: Json, i: Json, path: seq<string>, c: Conflict)
    requires c in Conflicts(e, i, path)
    ensures Swap(c) in Conflicts(i, e, path)
    decreases e
  {
    PyEqSymmetric(e, i);
    if e.Obj? && i.Obj? {
      ObjectConflicts(e, i, path, c);
      var k :| k in i.fields && k in e.fields && c in Conflicts(e.fields[k], i.fields[k], path + [k]);
      ConflictsSwap(e.fields[k], i.fields[k], path + [k], c);
      ObjectConflicts(i, e, path, Swap(c));
    }
  }

  /** The same key set at every object level the two values share. */
  ghost predicate SameKeys(a: Json, b: Json) {
    a.Obj? && b.Obj? ==>
      a.fields.Keys == b.fields.Keys && forall k | k in a.fields :: SameKeys(a.fields[k], b.fields[k])
  }

  lemma {:induction false} PyEqSameKeys(a: Json, b: Json)
    requires PyEq(a, b)
    ensures SameKeys(a, b)
  {
    if a.Obj? && b.Obj? {
      forall k | k in a.fields { PyEqSameKeys(a.fields[k], b.fields[k]); }
    }
  }

  lemma {:induction false} JoinSameKeys(enc: Encoding, e: Json, i: Json)
    requires enc.InjectiveTexts()
    ensures SameKeys(Joined(enc, e, i), Joined(enc, i, e))
    ensures e.Arr? && i.Arr? && !PyEq(e, i) ==> Joined(enc, e, i) == Joined(enc, i, e)
    decreases e
  {
    PyEqSymmetric(e, i);
    if PyEq(e, i) {
      PyEqSameKeys(e, i);
    } else if e.Obj? && i.Obj? {
      var a, b := Joined(enc, e, i), Joined(enc, i, e);
      forall k | k in a.fields ensures SameKeys(a.fields[k], b.fields[k]) {
        if k in e.fields && k in i.fields {
          JoinSameKeys(enc, e.fields[k], i.fields[k]);
        } else {
          PyEqReflexive(a.fields[k]);
          PyEqSameKeys(a.fields[k], a.fields[k]);
        }
      }
    } else if e.Arr? && i.Arr? {
      UnionCommutes(enc, e.items, i.items);
    }
  }

  lemma MetaConflictsMembers(e: Dict, i: Dict, c: Conflict)
    ensures c in MetaConflicts(e, i) <==>
      exists k | k in i && k in e && k != MC :: c in Conflicts(e[k], i[k], [k])
  {
    var keys := SortedStrings(i.Keys - {MC});
    KeyConflictsMembers(keys, Obj(e), Obj(i), [], c);
    assert forall k :: k in keys <==> k in Elements(keys);
    assert forall k: string :: [] + [k] == [k];
  }

  lemma MetaConflictsSwap(e: Dict, i: Dict, c: Conflict)
    requires c in MetaConflicts(e, i)
    ensures Swap(c) in MetaConflicts(i, e)
  {
    MetaConflictsMembers(e, i, c);
    var k :| k in i && k in e && k != MC && c in Conflicts(e[k], i[k], [k]);
    ConflictsSwap(e[k], i[k], [k], c);
    MetaConflictsMembers(i, e, Swap(c));
  }

  lemma RenderedSubset(enc: Encoding, e: Dict, i: Dict)
    requires enc.InjectiveTexts()
    ensures Elements(RenderAll(enc, MetaConflicts(e, i))) <= Elements(RenderAll(enc, MetaConflicts(i, e)))
  {
    var a, b := MetaConflicts(e, i), MetaConflicts(i, e);
    forall r | r in RenderAll(enc, a) ensures r in RenderAll(enc, b) {
      var n :| 0 <= n < |a| && RenderAll(enc, a)[n] == r;
      assert a[n] in a;
      MetaConflictsSwap(e, i, a[n]);
      RenderSwap(enc, a[n]);
      var j :| 0 <= j < |b| && b[j] == Swap(a[n]);
      assert RenderAll(enc, b)[j] == r;
    }
  }

  lemma UpdatedSymmetric(enc: Encoding, e: Dict, i: Dict)
    requires enc.InjectiveTexts()
    ensures Recorded(enc, e, i) == Recorded(enc, i, e) && Updated(enc, e, i) == Updated(enc, i, e)
  {
    UnionCommutes(enc, ListValue(Get(e, MC)), ListValue(Get(i, MC)));
    RenderedSubset(enc, e, i);
    RenderedSubset(enc, i, e);
    assert Elements(RenderAll(enc, MetaConflicts(e, i))) == Elements(RenderAll(enc, MetaConflicts(i, e)));
  }

  /** Merging in either direction records the same conflicts and leaves the same keys at every level below the top.
      At the top the keys agree exactly when both sides or neither have a conflict list, or a conflict is listed. */
  lemma MergeSymmetric(enc: Encoding, e: Dict, i: Dict)
    requires enc.InjectiveTexts()
    ensures Updated(enc, e, i) == Updated(enc, i, e)
    ensures NewConflicts(enc, e, i) == NewConflicts(enc, i, e)
    ensures MergedMeta(enc, e, i).Keys == MergedMeta(enc, i, e).Keys <==>
      (MC in e <==> MC in i) || Updated(enc, e, i) != []
    ensures forall k | k != MC && k in MergedMeta(enc, e, i) ::
      k in MergedMeta(enc, i, e) && SameKeys(MergedMeta(enc, e, i)[k], MergedMeta(enc, i, e)[k])
  {
    hide Updated, Recorded, MergedMeta, Joined, SameKeys;
    UpdatedSymmetric(enc, e, i);
    forall k | k != MC
      ensures k in MergedMeta(enc, e, i) <==> k in MergedMeta(enc, i, e)
      ensures k in MergedMeta(enc, e, i) ==> SameKeys(MergedMeta(enc, e, i)[k], MergedMeta(enc, i, e)[k])
    {
      MergedKeySymmetric(enc, e, i, k);
    }
    ConflictKey(enc, e, i);
    ConflictKey(enc, i, e);
    SameKeySet(MergedMeta(enc, e, i), MergedMeta(enc, i, e));
  }

  lemma ConflictKey(enc: Encoding, e: Dict, i: Dict)
    requires enc.InjectiveTexts()
    ensures MC in MergedMeta(enc, e, i) <==> MC in e || Updated(enc, e, i) != []
  {
    hide Updated, Joined;
  }

  lemma SameKeySet(m: Dict, m': Dict)
    requires forall k | k != MC :: k in m <==> k in m'
    ensures m.Keys == m'.Keys <==> (MC in m <==> MC in m')
  {
    if MC in m <==> MC in m' {
      assert forall k :: k in m <==> k in m';
    } else {
      assert (MC in m.Keys) != (MC in m'.Keys);
    }
  }

  /** An empty conflict list on one side only: one direction keeps the key, the other does not. */
  lemma EmptyListOneSided(enc: Encoding)
    requires enc.InjectiveTexts()
    ensures
      var e: Dict, i: Dict := map[MC := Arr([])], map[];
      MC in MergedMeta(enc, e, i) && MC !in MergedMeta(enc, i, e)
  {
    hide MergedMeta, Updated, MetaConflicts;
    var e: Dict, i: Dict := map[MC := Arr([])], map[];
    ConflictKey(enc, e, i);
    ConflictKey(enc, i, e);
    NothingUpdated(enc, i, e);
  }

  lemma NothingUpdated(enc: Encoding, e: Dict, i: Dict)
    requires enc.InjectiveTexts() && e == map[] && i == map[MC := Arr([])]
    ensures Updated(enc, e, i) == []
  {
    hide KeyConflicts;
    EqualValuesNoConflicts(SortedStrings(i.Keys - {MC}), Obj(e), Obj(i), []);
    NoElements(Updated(enc, e, i));
  }

  lemma MergedKeySymmetric(enc: Encoding, e: Dict, i: Dict, k: string)
    requires enc.InjectiveTexts() && k != MC
    ensures k in MergedMeta(enc, e, i) <==> k in MergedMeta(enc, i, e)
    ensures k in MergedMeta(enc, e, i) ==> SameKeys(MergedMeta(enc, e, i)[k], MergedMeta(enc, i, e)[k])
  {
    MergedAt(enc, e, i, k);
    MergedAt(enc, i, e, k);
    hide MergedMeta, Joined, SameKeys;
    if k in e && k in i {
      JoinSameKeys(enc, e[k], i[k]);
    } else if k in e || k in i {
      PyEqReflexive(MergedMeta(enc, e, i)[k]);
      PyEqSameKeys(MergedMeta(enc, e, i)[k], MergedMeta(enc, e, i)[k]);
    }
  }

  // ---------------------------------------------------------------- nothing is discarded

  /** `x` is found in `v` at its path, or is the incoming side of a conflict at its path. */
  ghost predicate Kept(x: Json, v: Json, path: seq<string>, cs: set<Conflict>) {
    || x == v
    || (x.Obj? && v.Obj? && forall k | k in x.fields ::
          k in v.fields && Kept(x.fields[k], v.fields[k], path + [k], cs))
    || (x.Arr? && v.Arr? && forall y | y in x.items :: y in v.items)
    || exists c | c in cs :: c.path == path && c.incoming == x
  }

  /** Wherever the two sides meet and Python calls them equal, the incoming content is in the existing one.
      It can fail only where a boolean meets the number it equals. */
  ghost predicate Distinguishable(e: Json, i: Json) {
    if e.Obj? && i.Obj? then
      forall k | k in e.fields && k in i.fields :: Distinguishable(e.fields[k], i.fields[k])
    else if e.Arr? && i.Arr? then PyEq(e, i) ==> forall y | y in i.items :: y in e.items
    else PyEq(e, i) ==> e == i
  }

  predicate Under(c: Conflict, path: seq<string>) {
    path <= c.path
  }

  lemma {:induction false} ConflictsUnder(e: Json, i: Json, path: seq<string>, c: Conflict)
    requires c in Conflicts(e, i, path)
    ensures Under(c, path)
    ensures e.Obj? && i.Obj? ==> |path| < |c.path|
    decreases e
  {
    if e.Obj? && i.Obj? {
      ObjectConflicts(e, i, path, c);
      var k :| k in i.fields && k in e.fields && c in Conflicts(e.fields[k], i.fields[k], path + [k]);
      ConflictsUnder(e.fields[k], i.fields[k], path + [k], c);
      assert path <= path + [k];
    }
  }

  /** Only conflicts below a path matter there. */
  lemma {:induction false} KeptLocal(x: Json, v: Json, path: seq<string>, cs: set<Conflict>, cs': set<Conflict>)
    requires forall c | Under(c, path) :: c in cs <==> c in cs'
    ensures Kept(x, v, path, cs) <==> Kept(x, v, path, cs')
    decreases x
  {
    if x.Obj? && v.Obj? {
      forall k | k in x.fields && k in v.fields
        ensures Kept(x.fields[k], v.fields[k], path + [k], cs) <==> Kept(x.fields[k], v.fields[k], path + [k], cs')
      {
        assert forall c | Under(c, path + [k]) :: Under(c, path);
        KeptLocal(x.fields[k], v.fields[k], path + [k], cs, cs');
      }
    }
    assert forall c: Conflict | c.path == path :: Under(c, path);
  }

  /** The conflicts below key `k` of two objects are those of the two values at `k`. */
  lemma ConflictsAtKey(e: Json, i: Json, path: seq<string>, k: string, c: Conflict)
    requires e.Obj? && i.Obj? && !PyEq(e, i) && k in e.fields && k in i.fields && Under(c, path + [k])
    ensures c in Conflicts(e, i, path) <==> c in Conflicts(e.fields[k], i.fields[k], path + [k])
  {
    ObjectConflicts(e, i, path, c);
    if x :| x in i.fields && x in e.fields && c in Conflicts(e.fields[x], i.fields[x], path + [x]) {
      ConflictsUnder(e.fields[x], i.fields[x], path + [x], c);
      assert c.path[|path|] == (path + [x])[|path|] == x;
      assert c.path[|path|] == (path + [k])[|path|] == k;
    }
  }

  ghost function Met(e: Json, i: Json, path: seq<string>): set<Conflict> {
    Elements(Conflicts(e, i, path))
  }

  lemma UnionHolds(enc: Encoding, a: seq<Json>, b: seq<Json>)
    requires enc.InjectiveTexts()
    ensures forall y | y in a || y in b :: y in UnionLists(enc, a, b)
  {
    forall y | y in a || y in b ensures y in UnionLists(enc, a, b) {
      assert y in Elements(UnionLists(enc, a, b));
    }
  }

  /** The join keeps all incoming content exactly when the two sides are distinguishable. */
  lemma {:induction false} JoinKeepsIncoming(enc: Encoding, e: Json, i: Json, path: seq<string>)
    requires enc.InjectiveTexts()
    ensures Kept(i, Joined(enc, e, i), path, Met(e, i, path)) <==> Distinguishable(e, i)
    decreases e
  {
    var v, cs := Joined(enc, e, i), Met(e, i, path);
    if e.Obj? && i.Obj? {
      forall k | k in e.fields && k in i.fields
        ensures Kept(i.fields[k], v.fields[k], path + [k], cs) <==> Distinguishable(e.fields[k], i.fields[k])
      {
        JoinKeepsIncoming(enc, e.fields[k], i.fields[k], path + [k]);
        if PyEq(e, i) {
          PyEqNoConflicts(e.fields[k], i.fields[k], path + [k]);
        } else {
          forall c | Under(c, path + [k]) ensures c in cs <==> c in Met(e.fields[k], i.fields[k], path + [k]) {
            ConflictsAtKey(e, i, path, k, c);
          }
          KeptLocal(i.fields[k], v.fields[k], path + [k], cs, Met(e.fields[k], i.fields[k], path + [k]));
        }
      }
      forall c | c in cs ensures c.path != path { ConflictsUnder(e, i, path, c); }
      if i == v { SameIsDistinguishable(enc, e, i); }
    } else if e.Arr? && i.Arr? {
      assert cs == {};
      UnionHolds(enc, e.items, i.items);
    } else if !PyEq(e, i) {
      var c := Conflict(path, e, i);
      assert c in cs;
    }
  }

  lemma {:induction false} SameIsDistinguishable(enc: Encoding, e: Json, i: Json)
    requires enc.InjectiveTexts() && Joined(enc, e, i) == i
    ensures Distinguishable(e, i)
    decreases e
  {
    if e.Obj? && i.Obj? && !PyEq(e, i) {
      forall k | k in e.fields && k in i.fields { SameIsDistinguishable(enc, e.fields[k], i.fields[k]); }
    } else if e.Obj? && i.Obj? {
      forall k | k in e.fields && k in i.fields ensures Distinguishable(e.fields[k], i.fields[k]) {
        assert Joined(enc, e.fields[k], i.fields[k]) == i.fields[k];
        SameIsDistinguishable(enc, e.fields[k], i.fields[k]);
      }
    }
  }

  /** Content of the existing side is always found at its path. */
  lemma {:induction false} JoinKeepsExisting(enc: Encoding, e: Json, i: Json, path: seq<string>)
    requires enc.InjectiveTexts()
    ensures Kept(e, Joined(enc, e, i), path, {})
    decreases e
  {
    if e.Obj? && i.Obj? && !PyEq(e, i) {
      forall k | k in e.fields ensures Kept(e.fields[k], Joined(enc, e, i).fields[k], path + [k], {}) {
        if k in i.fields { JoinKeepsExisting(enc, e.fields[k], i.fields[k], path + [k]); }
      }
    } else if e.Arr? && i.Arr? {
      UnionHolds(enc, e.items, i.items);
    }
  }

  /** Away from the conflict list, an incoming value is kept exactly where the sides are distinguishable. */
  lemma MergedKeepsKey(enc: Encoding, e: Dict, i: Dict, k: string)
    requires enc.InjectiveTexts() && k in i && k != MC
    ensures k in MergedMeta(enc, e, i)
    ensures Kept(i[k], MergedMeta(enc, e, i)[k], [k], Elements(MetaConflicts(e, i))) <==>
      (k in e ==> Distinguishable(e[k], i[k]))
  {
    var m, cs := MergedMeta(enc, e, i), Elements(MetaConflicts(e, i));
    MergedAt(enc, e, i, k);
    if k in e {
      JoinKeepsIncoming(enc, e[k], i[k], [k]);
      forall c | Under(c, [k]) ensures c in cs <==> c in Met(e[k], i[k], [k]) {
        MetaConflictsAtKey(e, i, k, c);
      }
      KeptLocal(i[k], m[k], [k], cs, Met(e[k], i[k], [k]));
    }
  }

  lemma MetaConflictsAtKey(e: Dict, i: Dict, k: string, c: Conflict)
    requires k in e && k in i && k != MC && Under(c, [k])
    ensures c in MetaConflicts(e, i) <==> c in Conflicts(e[k], i[k], [k])
  {
    MetaConflictsMembers(e, i, c);
    if x :| x in i && x in e && x != MC && c in Conflicts(e[x], i[x], [x]) {
      ConflictsUnder(e[x], i[x], [x], c);
      assert c.path[0] == [x][0] == [k][0];
    }
  }

  lemma {:induction false} SelfDistinguishable(v: Json)
    ensures Distinguishable(v, v)
  {
    if v.Obj? {
      forall k | k in v.fields { SelfDistinguishable(v.fields[k]); }
    }
  }

  /** What the existing value already keeps of the incoming one is distinguishable from it. */
  lemma {:induction false} KeptInPlace(e: Json, i: Json, path: seq<string>, cs: set<Conflict>)
    requires Kept(i, e, path, cs) && forall c | c in cs && Under(c, path) :: c in Met(e, i, path)
    ensures Distinguishable(e, i)
    decreases e
  {
    if i == e {
      SelfDistinguishable(e);
    } else if e.Obj? && i.Obj? {
      forall c | c in cs ensures c.path != path {
        if c.path == path {
          assert Under(c, path);
          ConflictsUnder(e, i, path, c);
          assert false;
        }
      }
      forall k | k in e.fields && k in i.fields ensures Distinguishable(e.fields[k], i.fields[k]) {
        forall c | c in cs && Under(c, path + [k]) ensures c in Met(e.fields[k], i.fields[k], path + [k]) {
          assert path <= path + [k] <= c.path;
          assert Under(c, path);
          ConflictsAtKey(e, i, path, k, c);
        }
        KeptInPlace(e.fields[k], i.fields[k], path + [k], cs);
      }
    } else {
      assert forall c: Conflict | c.path == path :: Under(c, path);
    }
  }
}

/** The conflict-aware union of JSON metadata. */
module MergeMeta {
  import opened Order
  import opened JsonValue
  import opened Forest

  // ---------------------------------------------------------------- unions of lists

  ghost function TextLess(enc: Encoding): (Json, Json) -> bool {
    (a: Json, b: Json) => Lex(enc.jsonText(a), enc.jsonText(b))
  }

  lemma TextLessTotal(enc: Encoding)
    requires enc.InjectiveTexts()
    ensures StrictTotal(TextLess(enc))
  {
    var less := TextLess(enc);
    forall a, b ensures !less(a, a) && (a == b || less(a, b) || less(b, a)) {
      LexTotal(enc.jsonText(a), enc.jsonText(b));
    }
    forall a, b, c | less(a, b) && less(b, c) ensures less(a, c) {
      LexTransitive(enc.jsonText(a), enc.jsonText(b), enc.jsonText(c));
    }
  }

  /** Distinct values in the order of their JSON texts. */
  ghost predicate Canonical(enc: Encoding, s: seq<Json>) {
    Sorted(s, TextLess(enc))
  }

  ghost function Listing(enc: Encoding, values: set<Json>): (r: seq<Json>)
    requires enc.InjectiveTexts()
    ensures Canonical(enc, r) && Elements(r) == values
  {
    TextLessTotal(enc);
    Enumerate(values, TextLess(enc))
  }

  lemma CanonicalIsListing(enc: Encoding, s: seq<Json>)
    requires enc.InjectiveTexts() && Canonical(enc, s)
    ensures Listing(enc, Elements(s)) == s
  {
    TextLessTotal(enc);
    SortedIsEnumerate(s, TextLess(enc));
  }

  /** What `_union_json_lists` returns. */
  ghost function UnionLists(enc: Encoding, first: seq<Json>, second: seq<Json>): (r: seq<Json>)
    requires enc.InjectiveTexts()
    ensures Canonical(enc, r) && Elements(r) == Elements(first) + Elements(second)
  {
    Listing(enc, Elements(first) + Elements(second))
  }

  /** Adding what is already listed changes nothing. */
  lemma UnionAbsorbs(enc: Encoding, first: seq<Json>, second: seq<Json>)
    requires enc.InjectiveTexts() && Canonical(enc, first) && Elements(second) <= Elements(first)
    ensures UnionLists(enc, first, second) == first
  {
    assert Elements(first) + Elements(second) == Elements(first);
    CanonicalIsListing(enc, first);
  }

  lemma UnionCommutes(enc: Encoding, first: seq<Json>, second: seq<Json>)
    requires enc.InjectiveTexts()
    ensures UnionLists(enc, first, second) == UnionLists(enc, second, first)
  {
    assert Elements(first) + Elements(second) == Elements(second) + Elements(first);
  }

  // ---------------------------------------------------------------- the join of two values

  /** An irreconcilable pair of values at a path. */
  datatype Conflict = Conflict(path: seq<string>, existing: Json, incoming: Json)

  /** `".".join`. */
  function JoinDots(path: seq<string>): string {
    if path == [] then ""
    else if |path| == 1 then path[0]
    else path[0] + "." + JoinDots(path[1..])
  }

  /** `split(".")`. */
  function SplitDots(s: string): (r: seq<string>)
    ensures r != []
  {
    if s == "" then [""]
    else
      var rest := SplitDots(s[1..]);
      if s[0] == '.' then [""] + rest else [[s[0]] + rest[0]] + rest[1..]
  }

  /** The path of a conflict can be read back from its text, when no key holds a dot. */
  lemma {:induction false} SplitJoined(path: seq<string>)
    requires path != [] && forall k | k in path :: '.' !in k
    ensures SplitDots(JoinDots(path)) == path
    decreases |path|
  {
    if |path| == 1 {
      SplitWord(path[0], "");
      assert path[0] + "" == path[0];
    } else {
      var rest := path[1..];
      assert forall k | k in rest :: k in path;
      SplitJoined(rest);
      var tail := "." + JoinDots(rest);
      assert tail[1..] == JoinDots(rest);
      assert path[0] + "." + JoinDots(rest) == path[0] + tail;
      SplitWord(path[0], tail);
    }
  }

  /** Splitting takes a word without dots off as it stands. */
  lemma {:induction false} SplitWord(word: string, tail: string)
    requires '.' !in word && (tail == "" || tail[0] == '.')
    ensures SplitDots(word + tail) == [word] + SplitDots(tail)[1..]
    ensures SplitDots(tail)[0] == ""
    decreases |word|
  {
    var s := word + tail;
    if word == "" {
      assert s == tail;
    } else {
      assert s[0] == word[0] && s[1..] == word[1..] + tail;
      SplitWord(word[1..], tail);
      assert [word[0]] + word[1..] == word;
    }
  }

  /** The record the source stores for a conflict. */
  ghost function Render(enc: Encoding, c: Conflict): Json
    requires enc.InjectiveTexts()
  {
    Obj(map["path" := Str(JoinDots(c.path)), "values" := Arr(UnionLists(enc, [c.existing], [c.incoming]))])
  }

  ghost function RenderAll(enc: Encoding, cs: seq<Conflict>): (r: seq<Json>)
    requires enc.InjectiveTexts()
    ensures |r| == |cs| && forall i | 0 <= i < |cs| :: r[i] == Render(enc, cs[i])
  {
    seq(|cs|, i requires 0 <= i < |cs| => Render(enc, cs[i]))
  }

  /** The value `_merge_meta_value` returns. */
  ghost function Joined(enc: Encoding, e: Json, i: Json): Json
    requires enc.InjectiveTexts()
    decreases e
  {
    if PyEq(e, i) then e
    else if e.Obj? && i.Obj? then
      Obj(map k | k in e.fields.Keys + i.fields.Keys ::
        if k !in i.fields then e.fields[k]
        else if k !in e.fields then i.fields[k]
        else Joined(enc, e.fields[k], i.fields[k]))
    else if e.Arr? && i.Arr? then Arr(UnionLists(enc, e.items, i.items))
    else e
  }

  /** The conflicts `_merge_meta_value` returns, before they are rendered. */
  ghost function Conflicts(e: Json, i: Json, path: seq<string>): seq<Conflict>
    decreases e, 1, 0
  {
    if PyEq(e, i) || (e.Arr? && i.Arr?) then []
    else if e.Obj? && i.Obj? then KeyConflicts(SortedStrings(i.fields.Keys), e, i, path)
    else [Conflict(path, e, i)]
  }

  ghost function KeyConflicts(keys: seq<string>, e: Json, i: Json, path: seq<string>): seq<Conflict>
    requires e.Obj? && i.Obj? && Elements(keys) <= i.fields.Keys
    decreases e, 0, |keys|
  {
    if keys == [] then []
    else
      var k := keys[0];
      assert k in Elements(keys) && Elements(keys[1..]) <= Elements(keys);
      (if k in e.fields then Conflicts(e.fields[k], i.fields[k], path + [k]) else [])
      + KeyConflicts(keys[1..], e, i, path)
  }

  /** A join that equals the incoming value met no conflict. */
  lemma {:induction false} EqualJoinNoConflicts(enc: Encoding, e: Json, i: Json, path: seq<string>)
    requires enc.InjectiveTexts() && PyEq(Joined(enc, e, i), i)
    ensures Conflicts(e, i, path) == []
    decreases e, 1, 0
  {
    if !PyEq(e, i) && e.Obj? && i.Obj? {
      EqualKeysNoConflicts(enc, SortedStrings(i.fields.Keys), e, i, path);
    }
  }

  lemma {:induction false} EqualKeysNoConflicts(enc: Encoding, keys: seq<string>, e: Json, i: Json, path: seq<string>)
    requires enc.InjectiveTexts() && e.Obj? && i.Obj? && Elements(keys) <= i.fields.Keys
    requires forall k | k in e.fields && k in i.fields :: PyEq(Joined(enc, e.fields[k], i.fields[k]), i.fields[k])
    ensures KeyConflicts(keys, e, i, path) == []
    decreases e, 0, |keys|
  {
    if keys != [] {
      var k := keys[0];
      assert k in Elements(keys) && Elements(keys[1..]) <= Elements(keys);
      if k in e.fields { EqualJoinNoConflicts(enc, e.fields[k], i.fields[k], path + [k]); }
      EqualKeysNoConflicts(enc, keys[1..], e, i, path);
    }
  }

  /** Joining again with the same value returns the join, with the same conflicts. */
  lemma {:induction false} JoinIdempotent(enc: Encoding, e: Json, i: Json, path: seq<string>)
    requires enc.InjectiveTexts()
    ensures Joined(enc, Joined(enc, e, i), i) == Joined(enc, e, i)
    ensures Conflicts(Joined(enc, e, i), i, path) == Conflicts(e, i, path)
    decreases e, 1, 0
  {
    var m := Joined(enc, e, i);
    if PyEq(m, i) {
      EqualJoinNoConflicts(enc, e, i, path);
    } else if e.Obj? && i.Obj? {
      forall k | k in m.fields && k in i.fields
        ensures Joined(enc, m.fields[k], i.fields[k]) == m.fields[k]
      {
        if k in e.fields {
          JoinIdempotent(enc, e.fields[k], i.fields[k], path + [k]);
        } else {
          PyEqReflexive(i.fields[k]);
        }
      }
      assert Joined(enc, m, i).fields == m.fields;
      KeysIdempotent(enc, SortedStrings(i.fields.Keys), e, i, path);
    } else if e.Arr? && i.Arr? {
      UnionAbsorbs(enc, m.items, i.items);
    }
  }

  lemma {:induction false} KeysIdempotent(enc: Encoding, keys: seq<string>, e: Json, i: Json, path: seq<string>)
    requires enc.InjectiveTexts() && e.Obj? && i.Obj? && !PyEq(e, i) && Elements(keys) <= i.fields.Keys
    ensures Joined(enc, e, i).Obj?
    ensures KeyConflicts(keys, Joined(enc, e, i), i, path) == KeyConflicts(keys, e, i, path)
    decreases e, 0, |keys|
  {
    if keys != [] {
      var k := keys[0];
      assert k in Elements(keys) && Elements(keys[1..]) <= Elements(keys);
      if k in e.fields {
        JoinIdempotent(enc, e.fields[k], i.fields[k], path + [k]);
      } else {
        PyEqReflexive(i.fields[k]);
      }
      KeysIdempotent(enc, keys[1..], e, i, path);
    }
  }

  // ---------------------------------------------------------------- the merge of two metadata objects

  const MC := "merge_conflicts"
  const RC := "result_conflicts"

  function ListValue(v: Option<Json>): seq<Json> {
    match v
    case Some(Arr(items)) => items
    case _ => []
  }

  /** The metadata before conflicts are written back. */
  ghost function MetaBase(enc: Encoding, e: Dict, i: Dict): Dict
    requires enc.InjectiveTexts()
  {
    map k | k in e.Keys + (i.Keys - {MC}) ::
      if k == MC || k !in i then e[k]
      else if k !in e then i[k]
      else Joined(enc, e[k], i[k])
  }

  ghost function MetaConflicts(e: Dict, i: Dict): seq<Conflict> {
    KeyConflicts(SortedStrings(i.Keys - {MC}), Obj(e), Obj(i), [])
  }

  /** Conflicts either side recorded before. */
  ghost function Recorded(enc: Encoding, e: Dict, i: Dict): seq<Json>
    requires enc.InjectiveTexts()
  {
    UnionLists(enc, ListValue(Get(e, MC)), ListValue(Get(i, MC)))
  }

  ghost function Updated(enc: Encoding, e: Dict, i: Dict): seq<Json>
    requires enc.InjectiveTexts()
  {
    UnionLists(enc, Recorded(enc, e, i), RenderAll(enc, MetaConflicts(e, i)))
  }

  /** The metadata `_merge_meta` returns. */
  ghost function MergedMeta(enc: Encoding, e: Dict, i: Dict): Dict
    requires enc.InjectiveTexts()
  {
    if Updated(enc, e, i) != [] then MetaBase(enc, e, i)[MC := Arr(Updated(enc, e, i))]
    else MetaBase(enc, e, i)
  }

  /** The number of new conflicts `_merge_meta` reports. */
  ghost function NewConflicts(enc: Encoding, e: Dict, i: Dict): int
    requires enc.InjectiveTexts()
  {
    |Updated(enc, e, i)| - |Recorded(enc, e, i)|
  }

  lemma {:induction false} MetaKeysIdempotent(enc: Encoding, keys: seq<string>, e: Dict, i: Dict, m: Dict)
    requires enc.InjectiveTexts() && Elements(keys) <= i.Keys
    requires forall k | k in i && k in keys :: k in m && m[k] == if k in e then Joined(enc, e[k], i[k]) else i[k]
    ensures KeyConflicts(keys, Obj(m), Obj(i), []) == KeyConflicts(keys, Obj(e), Obj(i), [])
  {
    if keys != [] {
      var k := keys[0];
      assert k in Elements(keys) && Elements(keys[1..]) <= Elements(keys);
      if k in e {
        JoinIdempotent(enc, e[k], i[k], [] + [k]);
      } else {
        PyEqReflexive(i[k]);
      }
      MetaKeysIdempotent(enc, keys[1..], e, i, m);
    }
  }

  /** Away from the conflict list, merged metadata is the join key by key. */
  lemma MergedAt(enc: Encoding, e: Dict, i: Dict, k: string)
    requires enc.InjectiveTexts() && k != MC
    ensures k in MergedMeta(enc, e, i) <==> k in e || k in i
    ensures k in MergedMeta(enc, e, i) ==>
      MergedMeta(enc, e, i)[k] == if k !in i then e[k] else if k !in e then i[k] else Joined(enc, e[k], i[k])
  {
    hide Joined, Updated;
  }

  lemma MetaConflictsIdempotent(enc: Encoding, e: Dict, i: Dict)
    requires enc.InjectiveTexts()
    ensures MetaConflicts(MergedMeta(enc, e, i), i) == MetaConflicts(e, i)
  {
    var keys := SortedStrings(i.Keys - {MC});
    assert forall k | k in keys :: k in Elements(keys);
    forall k | k in keys { MergedAt(enc, e, i, k); }
    hide MergedMeta;
    MetaKeysIdempotent(enc, keys, e, i, MergedMeta(enc, e, i));
  }

  lemma UpdatedIdempotent(enc: Encoding, e: Dict, i: Dict)
    requires enc.InjectiveTexts()
    ensures Recorded(enc, MergedMeta(enc, e, i), i) == Updated(enc, e, i)
    ensures Updated(enc, MergedMeta(enc, e, i), i) == Updated(enc, e, i)
  {
    hide MetaConflicts, Joined;
    var m, updated := MergedMeta(enc, e, i), Updated(enc, e, i);
    MetaConflictsIdempotent(enc, e, i);
    if updated != [] {
      UnionAbsorbs(enc, updated, ListValue(Get(i, MC)));
    } else {
      assert Elements(Recorded(enc, e, i)) <= Elements(updated);
      assert Get(m, MC) == Get(e, MC);
      UnionAbsorbs(enc, Recorded(enc, e, i), []);
    }
    UnionAbsorbs(enc, updated, RenderAll(enc, MetaConflicts(e, i)));
  }

  lemma BaseKeyIdempotent(enc: Encoding, e: Dict, i: Dict, m: Dict, k: string)
    requires enc.InjectiveTexts() && k != MC && m == MergedMeta(enc, e, i)
    ensures k in MetaBase(enc, m, i) <==> k in m
    ensures k in m ==> MetaBase(enc, m, i)[k] == m[k]
  {
    MergedAt(enc, e, i, k);
    if k in i && k in e {
      JoinIdempotent(enc, e[k], i[k], []);
    } else if k in i {
      PyEqReflexive(i[k]);
    }
    hide Conflicts, KeyConflicts, MergedMeta;
  }

  lemma BaseIdempotent(enc: Encoding, e: Dict, i: Dict)
    requires enc.InjectiveTexts()
    ensures MetaBase(enc, MergedMeta(enc, e, i), i) == MergedMeta(enc, e, i)
  {
    hide MergedMeta, Joined;
    var m := MergedMeta(enc, e, i);
    forall k ensures k in MetaBase(enc, m, i) <==> k in m {
      if k != MC { BaseKeyIdempotent(enc, e, i, m, k); }
    }
    forall k | k in m ensures MetaBase(enc, m, i)[k] == m[k] {
      if k != MC { BaseKeyIdempotent(enc, e, i, m, k); }
    }
  }

  /** Merging the same metadata a second time changes nothing and reports nothing new. */
  lemma MetaIdempotent(enc: Encoding, e: Dict, i: Dict)
    requires enc.InjectiveTexts()
    ensures MergedMeta(enc, MergedMeta(enc, e, i), i) == MergedMeta(enc, e, i)
    ensures NewConflicts(enc, MergedMeta(enc, e, i), i) == 0
  {
    hide Joined, KeyConflicts, MetaBase, Recorded;
    UpdatedIdempotent(enc, e, i);
    BaseIdempotent(enc, e, i);
    var m, updated := MergedMeta(enc, e, i), Updated(enc, e, i);
    if updated != [] {
      assert m[MC] == Arr(updated);
      assert m[MC := Arr(updated)] == m;
    }
  }
}

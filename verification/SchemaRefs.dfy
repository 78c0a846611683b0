/** When an expanded schema is free of reference keywords, and that expanding it again changes nothing. */
module SchemaRefs {
  import opened JsonValue
  import opened Pointer
  import opened Schema
  import opened Validation

  /** A reference or definition keyword at some schema position. */
  predicate HasRefs(v: Json) {
    v.Obj? &&
    var s := v.fields;
    || REF in s || DEFS in s || DEFINITIONS in s
    || ("properties" in s && s["properties"].Obj? &&
        exists k | k in s["properties"].fields :: HasRefs(s["properties"].fields[k]))
    || ("anyOf" in s && s["anyOf"].Arr? && exists i | 0 <= i < |s["anyOf"].items| :: HasRefs(s["anyOf"].items[i]))
    || ("items" in s && HasRefs(s["items"]))
  }

  // ---------------------------------------------------------------- the search loop

  ghost function Size(v: Json): nat
    decreases v, 1, 0
  {
    match v
    case Obj(fields) => 1 + SizeOver(v, fields.Keys)
    case Arr(items) => 1 + SizeUpTo(v, |items|)
    case _ => 1
  }

  ghost function SizeOver(v: Json, keys: set<string>): nat
    requires v.Obj? && keys <= v.fields.Keys
    decreases v, 0, |keys|
  {
    if keys == {} then 0
    else
      var k :| k in keys;
      assert |keys - {k}| < |keys|;
      Size(v.fields[k]) + SizeOver(v, keys - {k})
  }

  ghost function SizeUpTo(v: Json, n: nat): nat
    requires v.Arr? && n <= |v.items|
    decreases v, 0, n
  {
    if n == 0 then 0 else SizeUpTo(v, n - 1) + Size(v.items[n - 1])
  }

  lemma {:induction false} SizeTake(v: Json, keys: set<string>, k: string)
    requires v.Obj? && keys <= v.fields.Keys && k in keys
    ensures SizeOver(v, keys) == Size(v.fields[k]) + SizeOver(v, keys - {k})
    decreases |keys|
  {
    var x :| x in keys && SizeOver(v, keys) == Size(v.fields[x]) + SizeOver(v, keys - {x});
    if x != k {
      assert |keys - {x}| < |keys| && |keys - {k}| < |keys|;
      SizeTake(v, keys - {x}, k);
      SizeTake(v, keys - {k}, x);
      assert keys - {x} - {k} == keys - {k} - {x};
    }
  }

  ghost function Total(pending: seq<Json>): nat {
    if pending == [] then 0 else Total(pending[..|pending| - 1]) + Size(pending[|pending| - 1])
  }

  lemma TotalSnoc(pending: seq<Json>, v: Json)
    ensures Total(pending + [v]) == Total(pending) + Size(v)
  {
    assert (pending + [v])[..|pending|] == pending;
  }

  ghost predicate SomeHasRefs(pending: seq<Json>) {
    exists v | v in pending :: HasRefs(v)
  }

  lemma SomeHasRefsSnoc(pending: seq<Json>, v: Json)
    ensures SomeHasRefs(pending + [v]) <==> SomeHasRefs(pending) || HasRefs(v)
  {
    var all := pending + [v];
    assert all[|pending|] == v && forall x | x in pending :: x in all;
    assert forall x | x in all :: x in pending || x == v;
  }

  /** `pending.extend(properties.values())`. */
  method PushValues(pending: seq<Json>, v: Json) returns (r: seq<Json>)
    requires v.Obj?
    ensures SomeHasRefs(r) <==> SomeHasRefs(pending) || exists k | k in v.fields :: HasRefs(v.fields[k])
    ensures Total(r) < Total(pending) + Size(v)
  {
    hide HasRefs, SomeHasRefs, Total;
    r := pending;
    var left := v.fields.Keys;
    while left != {}
      invariant left <= v.fields.Keys
      invariant SomeHasRefs(r) <==>
        SomeHasRefs(pending) || exists k | k in v.fields && k !in left :: HasRefs(v.fields[k])
      invariant Total(r) + SizeOver(v, left) == Total(pending) + SizeOver(v, v.fields.Keys)
      decreases left
    {
      var k :| k in left;
      SizeTake(v, left, k);
      TotalSnoc(r, v.fields[k]);
      SomeHasRefsSnoc(r, v.fields[k]);
      r := r + [v.fields[k]];
      left := left - {k};
    }
  }

  /** `pending.extend(any_of)`. */
  method PushItems(pending: seq<Json>, v: Json) returns (r: seq<Json>)
    requires v.Arr?
    ensures SomeHasRefs(r) <==> SomeHasRefs(pending) || exists i | 0 <= i < |v.items| :: HasRefs(v.items[i])
    ensures Total(r) < Total(pending) + Size(v)
  {
    hide HasRefs, SomeHasRefs, Total;
    r := pending;
    for n := 0 to |v.items|
      invariant SomeHasRefs(r) <==> SomeHasRefs(pending) || exists i | 0 <= i < n :: HasRefs(v.items[i])
      invariant Total(r) == Total(pending) + SizeUpTo(v, n)
    {
      TotalSnoc(r, v.items[n]);
      SomeHasRefsSnoc(r, v.items[n]);
      r := r + [v.items[n]];
    }
  }

  ghost function SizeAt(v: Json, keys: set<string>, k: string): nat
    requires v.Obj? && keys <= v.fields.Keys
  {
    if k in keys then Size(v.fields[k]) else 0
  }

  lemma SizeSplit(v: Json, keys: set<string>, k: string)
    requires v.Obj? && keys <= v.fields.Keys
    ensures SizeOver(v, keys) == SizeAt(v, keys, k) + SizeOver(v, keys - {k})
  {
    if k in keys { SizeTake(v, keys, k); } else { assert keys - {k} == keys; }
  }

  lemma FieldsWithin(v: Json)
    requires v.Obj?
    ensures
      var keys := v.fields.Keys;
      SizeAt(v, keys, "properties") + SizeAt(v, keys, "anyOf") + SizeAt(v, keys, "items") < Size(v)
  {
    var keys := v.fields.Keys;
    SizeSplit(v, keys, "properties");
    SizeSplit(v, keys - {"properties"}, "anyOf");
    SizeSplit(v, keys - {"properties"} - {"anyOf"}, "items");
    hide SizeOver;
  }

  /** One turn of the search: the sub-schemas of `v` in place of `v`. */
  method PushSubschemas(pending: seq<Json>, v: Json) returns (r: seq<Json>)
    requires v.Obj? && REF !in v.fields && DEFS !in v.fields && DEFINITIONS !in v.fields
    ensures SomeHasRefs(r) <==> SomeHasRefs(pending) || HasRefs(v)
    ensures Total(r) < Total(pending) + Size(v)
  {
    var s := v.fields;
    r := pending;
    FieldsWithin(v);
    hide Size, SizeOver, SizeUpTo, SomeHasRefs, Total;
    if "properties" in s && s["properties"].Obj? {
      r := PushValues(r, s["properties"]);
    }
    if "anyOf" in s && s["anyOf"].Arr? {
      r := PushItems(r, s["anyOf"]);
    }
    if "items" in s {
      TotalSnoc(r, s["items"]);
      SomeHasRefsSnoc(r, s["items"]);
      r := r + [s["items"]];
    }
  }

  /** `schema_has_local_refs`. */
  method SchemaHasLocalRefs(schema: Json) returns (found: bool)
    ensures found <==> HasRefs(schema)
  {
    var pending := [schema];
    SomeHasRefsSnoc([], schema);
    assert [] + [schema] == [schema];
    while pending != []
      invariant SomeHasRefs(pending) <==> HasRefs(schema)
      decreases Total(pending)
    {
      var v := pending[|pending| - 1];
      var rest := pending[..|pending| - 1];
      SomeHasRefsSnoc(rest, v);
      assert rest + [v] == pending;
      if v.Obj? {
        if REF in v.fields || DEFS in v.fields || DEFINITIONS in v.fields { return true; }
        pending := PushSubschemas(rest, v);
      } else {
        pending := rest;
      }
    }
    found := false;
  }

  // ---------------------------------------------------------------- what expansion leaves

  /** Validation reached from `v` would meet an object with a null `$ref`. */
  ghost predicate MeetsNullRef(doc: Document, v: Json, n: nat)
    decreases n, v
  {
    v.Obj? &&
    var s := v.fields;
    if Reference(s).Some? then
      n > 0 && s[REF].Str? && Target(doc, s[REF].s).Some? && MeetsNullRef(doc, Target(doc, s[REF].s).value, n - 1)
    else
      || REF in s
      || ("properties" in s && s["properties"].Obj? &&
          exists k | k in s["properties"].fields :: MeetsNullRef(doc, s["properties"].fields[k], n))
      || ("anyOf" in s && s["anyOf"].Arr? &&
          exists i | 0 <= i < |s["anyOf"].items| :: MeetsNullRef(doc, s["anyOf"].items[i], n))
      || ("items" in s && MeetsNullRef(doc, s["items"], n))
  }

  /** An expanded schema still holds reference keywords exactly when a null `$ref` was met. */
  lemma {:induction false} ExpandedRefs(doc: Document, v: Json, active: set<string>, n: nat)
    requires Within(doc, v, active) && Resolve(doc, v, active).Some? && n >= Left(doc, active)
    ensures HasRefs(Resolve(doc, v, active).value) <==> MeetsNullRef(doc, v, n)
    decreases Left(doc, active), v, 2
  {
    if v.Obj? {
      var s, r := v.fields, Resolve(doc, v, active).value;
      if Reference(s).Some? {
        ExpandedReference(doc, v, active, n);
      } else {
        FieldResolved(doc, v, active, REF);
        FieldResolved(doc, v, active, "properties");
        FieldResolved(doc, v, active, "anyOf");
        FieldResolved(doc, v, active, "items");
        DefinitionsGone(doc, v, active);
        hide Resolve, ResolveChild, RefsIn, HasRefs, MeetsNullRef;
        if "properties" in s { ExpandedProperties(doc, s["properties"], active, n); }
        if "anyOf" in s { ExpandedAnyOf(doc, s["anyOf"], active, n); }
        if "items" in s {
          ItemsChild(doc, s["items"], active);
          ExpandedRefs(doc, s["items"], active, n);
        }
        AssembleRefs(doc, v, r, n);
      }
    }
  }

  lemma DefinitionsGone(doc: Document, v: Json, active: set<string>)
    requires Within(doc, v, active) && v.Obj? && Reference(v.fields) == None && Resolve(doc, v, active).Some?
    ensures DEFS !in Resolve(doc, v, active).value.fields && DEFINITIONS !in Resolve(doc, v, active).value.fields
  {
  }

  lemma ItemsChild(doc: Document, child: Json, active: set<string>)
    requires Within(doc, child, active)
    ensures ResolveChild(doc, "items", child, active) == Resolve(doc, child, active)
  {
  }

  lemma AssembleRefs(doc: Document, v: Json, r: Json, n: nat)
    requires v.Obj? && r.Obj? && Reference(v.fields) == None && DEFS !in r.fields && DEFINITIONS !in r.fields
    requires REF in v.fields <==> REF in r.fields
    requires "properties" in v.fields <==> "properties" in r.fields
    requires ("anyOf" in v.fields <==> "anyOf" in r.fields) && ("items" in v.fields <==> "items" in r.fields)
    requires "properties" in v.fields ==>
      var a, b := v.fields["properties"], r.fields["properties"];
      && (a.Obj? <==> b.Obj?)
      && (a.Obj? ==> ((exists k | k in a.fields :: MeetsNullRef(doc, a.fields[k], n)) <==>
                      (exists k | k in b.fields :: HasRefs(b.fields[k]))))
    requires "anyOf" in v.fields ==>
      var a, b := v.fields["anyOf"], r.fields["anyOf"];
      && (a.Arr? <==> b.Arr?)
      && (a.Arr? ==> ((exists i | 0 <= i < |a.items| :: MeetsNullRef(doc, a.items[i], n)) <==>
                      (exists i | 0 <= i < |b.items| :: HasRefs(b.items[i]))))
    requires "items" in v.fields ==> (HasRefs(r.fields["items"]) <==> MeetsNullRef(doc, v.fields["items"], n))
    ensures HasRefs(r) <==> MeetsNullRef(doc, v, n)
  {
  }

  lemma {:induction false} ExpandedReference(doc: Document, v: Json, active: set<string>, n: nat)
    requires Within(doc, v, active) && v.Obj? && Resolve(doc, v, active).Some? && n >= Left(doc, active)
    requires Reference(v.fields).Some?
    ensures HasRefs(Resolve(doc, v, active).value) <==> MeetsNullRef(doc, v, n)
    decreases Left(doc, active), v, 1
  {
    var reference := v.fields[REF].s;
    ReferenceAnnotates(doc, v, reference, active);
    var pointer := LocalPointer(doc, reference).value;
    var target := Target(doc, reference).value;
    LeftDrops(doc, active, pointer);
    var expanded := Resolve(doc, target, active + {pointer}).value;
    ExpandedRefs(doc, target, active + {pointer}, n - 1);
    ReferenceKeepsContainers(doc, v, reference, active);
    SameRefs(Resolve(doc, v, active).value, expanded);
    hide Resolve, ResolveReference, RefsIn, HasRefs;
  }

  lemma ReferenceKeepsContainers(doc: Document, v: Json, reference: string, active: set<string>)
    requires Within(doc, v, active) && v.Obj? && REF in v.fields && v.fields[REF] == Str(reference)
    requires ResolveReference(doc, v, reference, active).Some?
    requires LocalPointer(doc, reference).Some? && Target(doc, reference).Some?
    requires Within(doc, Target(doc, reference).value, active + {LocalPointer(doc, reference).value})
    requires LocalPointer(doc, reference).value !in active
    ensures
      var expanded := Resolve(doc, Target(doc, reference).value, active + {LocalPointer(doc, reference).value});
      && expanded.Some? && expanded.value.Obj?
      && forall k | k in CONTAINERS ::
          Get(ResolveReference(doc, v, reference, active).value.fields, k) == Get(expanded.value.fields, k)
  {
  }

  lemma SameRefs(a: Json, b: Json)
    requires a.Obj? && b.Obj? && SameKeywords(a.fields, b.fields)
    requires forall k | k in CONTAINERS :: Get(a.fields, k) == Get(b.fields, k)
    ensures HasRefs(a) <==> HasRefs(b)
    ensures IsExpanded(a) <==> IsExpanded(b)
  {
    assert REF in CONTAINERS && DEFS in CONTAINERS && DEFINITIONS in CONTAINERS;
    assert ("anyOf" in a.fields <==> "anyOf" in b.fields) && ("items" in a.fields <==> "items" in b.fields);
    hide SameLocally;
  }

  lemma {:induction false} ExpandedProperties(doc: Document, child: Json, active: set<string>, n: nat)
    requires Within(doc, child, active) && ResolveChild(doc, "properties", child, active).Some?
    requires n >= Left(doc, active)
    ensures
      var r := ResolveChild(doc, "properties", child, active).value;
      && (child.Obj? <==> r.Obj?)
      && (child.Obj? ==> ((exists k | k in child.fields :: MeetsNullRef(doc, child.fields[k], n)) <==>
                          (exists k | k in r.fields :: HasRefs(r.fields[k]))))
    decreases Left(doc, active), child, 3
  {
    if child.Obj? {
      var r := ResolveChild(doc, "properties", child, active).value;
      assert r.fields.Keys == child.fields.Keys;
      forall k | k in child.fields ensures MeetsNullRef(doc, child.fields[k], n) <==> HasRefs(r.fields[k]) {
        RefsOfField(child, k);
        assert Resolve(doc, child.fields[k], active) == Some(r.fields[k]);
        ExpandedRefs(doc, child.fields[k], active, n);
      }
    }
  }

  lemma {:induction false} ExpandedAnyOf(doc: Document, child: Json, active: set<string>, n: nat)
    requires Within(doc, child, active) && ResolveChild(doc, "anyOf", child, active).Some?
    requires n >= Left(doc, active)
    ensures
      var r := ResolveChild(doc, "anyOf", child, active).value;
      && (child.Arr? <==> r.Arr?)
      && (child.Arr? ==> ((exists i | 0 <= i < |child.items| :: MeetsNullRef(doc, child.items[i], n)) <==>
                          (exists i | 0 <= i < |r.items| :: HasRefs(r.items[i]))))
    decreases Left(doc, active), child, 3
  {
    if child.Arr? {
      var r := ResolveChild(doc, "anyOf", child, active).value;
      assert |r.items| == |child.items|;
      forall i | 0 <= i < |child.items| ensures MeetsNullRef(doc, child.items[i], n) <==> HasRefs(r.items[i]) {
        RefsOfItem(child, i);
        assert Resolve(doc, child.items[i], active) == Some(r.items[i]);
        ExpandedRefs(doc, child.items[i], active, n);
      }
    }
  }

  // ---------------------------------------------------------------- expanding twice

  /** At every schema position the definitions are gone, and a `$ref` is null. */
  predicate IsExpanded(v: Json) {
    v.Obj? ==>
    var s := v.fields;
    && Reference(s) == None && DEFS !in s && DEFINITIONS !in s
    && ("properties" in s && s["properties"].Obj? ==>
        forall k | k in s["properties"].fields :: IsExpanded(s["properties"].fields[k]))
    && ("anyOf" in s && s["anyOf"].Arr? ==> forall i | 0 <= i < |s["anyOf"].items| :: IsExpanded(s["anyOf"].items[i]))
    && ("items" in s ==> IsExpanded(s["items"]))
  }

  /** Expansion leaves no definition and no reference but null ones. */
  lemma {:induction false} ResultExpanded(doc: Document, v: Json, active: set<string>)
    requires Within(doc, v, active) && Resolve(doc, v, active).Some?
    ensures IsExpanded(Resolve(doc, v, active).value)
    decreases Left(doc, active), v, 2
  {
    if v.Obj? {
      var s, r := v.fields, Resolve(doc, v, active).value;
      if Reference(s).Some? {
        ReferenceExpanded(doc, v, active);
      } else {
        FieldResolved(doc, v, active, REF);
        FieldResolved(doc, v, active, "properties");
        FieldResolved(doc, v, active, "anyOf");
        FieldResolved(doc, v, active, "items");
        DefinitionsGone(doc, v, active);
        if REF in s { OtherChild(doc, REF, s[REF], active); }
        hide Resolve, ResolveChild, RefsIn, IsExpanded;
        if "properties" in s { PropertiesExpanded(doc, s["properties"], active); }
        if "anyOf" in s { AnyOfExpanded(doc, s["anyOf"], active); }
        if "items" in s {
          ItemsChild(doc, s["items"], active);
          ResultExpanded(doc, s["items"], active);
        }
        AssembleExpanded(r);
      }
    }
  }

  lemma AssembleExpanded(r: Json)
    requires r.Obj? && Reference(r.fields) == None && DEFS !in r.fields && DEFINITIONS !in r.fields
    requires "properties" in r.fields && r.fields["properties"].Obj? ==>
      forall k | k in r.fields["properties"].fields :: IsExpanded(r.fields["properties"].fields[k])
    requires "anyOf" in r.fields && r.fields["anyOf"].Arr? ==>
      forall i | 0 <= i < |r.fields["anyOf"].items| :: IsExpanded(r.fields["anyOf"].items[i])
    requires "items" in r.fields ==> IsExpanded(r.fields["items"])
    ensures IsExpanded(r)
  {
  }

  lemma {:induction false} ReferenceExpanded(doc: Document, v: Json, active: set<string>)
    requires Within(doc, v, active) && v.Obj? && Resolve(doc, v, active).Some? && Reference(v.fields).Some?
    ensures IsExpanded(Resolve(doc, v, active).value)
    decreases Left(doc, active), v, 1
  {
    var reference := v.fields[REF].s;
    ReferenceAnnotates(doc, v, reference, active);
    var pointer, target := LocalPointer(doc, reference).value, Target(doc, reference).value;
    LeftDrops(doc, active, pointer);
    ResultExpanded(doc, target, active + {pointer});
    ReferenceKeepsContainers(doc, v, reference, active);
    SameRefs(Resolve(doc, v, active).value, Resolve(doc, target, active + {pointer}).value);
    hide Resolve, ResolveReference, RefsIn, IsExpanded;
  }

  lemma {:induction false} PropertiesExpanded(doc: Document, child: Json, active: set<string>)
    requires Within(doc, child, active) && ResolveChild(doc, "properties", child, active).Some?
    ensures
      var r := ResolveChild(doc, "properties", child, active).value;
      r.Obj? ==> forall k | k in r.fields :: IsExpanded(r.fields[k])
    decreases Left(doc, active), child, 3
  {
    if child.Obj? {
      var r := ResolveChild(doc, "properties", child, active).value;
      assert r.fields.Keys == child.fields.Keys;
      forall k | k in child.fields ensures IsExpanded(r.fields[k]) {
        RefsOfField(child, k);
        assert Resolve(doc, child.fields[k], active) == Some(r.fields[k]);
        ResultExpanded(doc, child.fields[k], active);
      }
    }
  }

  lemma {:induction false} AnyOfExpanded(doc: Document, child: Json, active: set<string>)
    requires Within(doc, child, active) && ResolveChild(doc, "anyOf", child, active).Some?
    ensures
      var r := ResolveChild(doc, "anyOf", child, active).value;
      r.Arr? ==> forall i | 0 <= i < |r.items| :: IsExpanded(r.items[i])
    decreases Left(doc, active), child, 3
  {
    if child.Arr? {
      var r := ResolveChild(doc, "anyOf", child, active).value;
      assert |r.items| == |child.items|;
      forall i | 0 <= i < |child.items| ensures IsExpanded(r.items[i]) {
        RefsOfItem(child, i);
        assert Resolve(doc, child.items[i], active) == Some(r.items[i]);
        ResultExpanded(doc, child.items[i], active);
      }
    }
  }

  /** Expanding an expanded schema is the identity, in any document. */
  lemma {:induction false} ExpandedUnchanged(doc: Document, v: Json, active: set<string>)
    requires Within(doc, v, active) && IsExpanded(v)
    ensures Resolve(doc, v, active) == Some(v)
    decreases v
  {
    if v.Obj? {
      var s := v.fields;
      forall k | k in s ensures Within(doc, s[k], active) && ResolveChild(doc, k, s[k], active) == Some(s[k]) {
        RefsOfField(v, k);
        ExpandedChild(doc, v, k, active);
      }
      assert s.Keys - {DEFS, DEFINITIONS} == s.Keys && Reference(s) == None;
      hide ResolveChild, IsExpanded, RefsIn;
      var r := Resolve(doc, v, active);
      assert r.Some?;
      assert r.value.fields == s;
    }
  }

  lemma {:induction false} ExpandedChild(doc: Document, v: Json, k: string, active: set<string>)
    requires v.Obj? && k in v.fields && Within(doc, v.fields[k], active) && IsExpanded(v)
    ensures ResolveChild(doc, k, v.fields[k], active) == Some(v.fields[k])
    decreases v, 0
  {
    var child := v.fields[k];
    if k == "properties" && child.Obj? {
      forall x | x in child.fields
        ensures Within(doc, child.fields[x], active) && Resolve(doc, child.fields[x], active) == Some(child.fields[x])
      {
        RefsOfField(child, x);
        ExpandedUnchanged(doc, child.fields[x], active);
      }
      hide Resolve, RefsIn, IsExpanded;
      assert ResolveChild(doc, k, child, active).value.fields == child.fields;
    } else if k == "anyOf" && child.Arr? {
      forall i | 0 <= i < |child.items|
        ensures Within(doc, child.items[i], active) && Resolve(doc, child.items[i], active) == Some(child.items[i])
      {
        RefsOfItem(child, i);
        ExpandedUnchanged(doc, child.items[i], active);
      }
      hide Resolve, RefsIn, IsExpanded;
      assert ResolveChild(doc, k, child, active).value.items == child.items;
    } else if k == "items" {
      ExpandedUnchanged(doc, child, active);
    }
  }

  /** Resolving a resolved document is the identity. It has no reference keyword left exactly when no null `$ref`
      was met on the way. */
  lemma ResolvedDocument(doc: Document, n: nat)
    requires doc.root.Obj? && ResolveLocalRefs(doc).Some? && n >= |Pointers(doc)|
    ensures
      var r := ResolveLocalRefs(doc).value;
      && ResolveLocalRefs(doc.(root := r)) == Some(r)
      && (HasRefs(r) <==> MeetsNullRef(doc, doc.root, n))
  {
    hide Resolve, MeetsNullRef, HasRefs, IsExpanded;
    assert Left(doc, {}) <= n by { assert Pointers(doc) - {} == Pointers(doc); }
    ExpandedRefs(doc, doc.root, {}, n);
    ResultExpanded(doc, doc.root, {});
    var r := ResolveLocalRefs(doc).value;
    ExpandedUnchanged(doc.(root := r), r, {});
  }

  // ---------------------------------------------------------------- null references

  /** Some object anywhere in the value has a null `$ref`. */
  predicate HoldsNullRef(v: Json) {
    match v
    case Obj(fields) => (REF in fields && fields[REF] == Null) || exists k | k in fields :: HoldsNullRef(fields[k])
    case Arr(items) => exists i | 0 <= i < |items| :: HoldsNullRef(items[i])
    case _ => false
  }

  lemma {:induction false} DescendNullFree(v: Json, tokens: seq<string>)
    requires !HoldsNullRef(v)
    ensures Descend(v, tokens).Some? ==> !HoldsNullRef(Descend(v, tokens).value)
  {
    if tokens != [] && Pointer.Step(v, tokens[0]).Some? {
      StepNullFree(v, tokens[0]);
      DescendNullFree(Pointer.Step(v, tokens[0]).value, tokens[1..]);
    }
  }

  lemma StepNullFree(v: Json, token: string)
    requires !HoldsNullRef(v) && Pointer.Step(v, token).Some?
    ensures !HoldsNullRef(Pointer.Step(v, token).value)
  {
  }

  lemma {:induction false} NullFreeMeetsNone(doc: Document, v: Json, n: nat)
    requires !HoldsNullRef(doc.root) && !HoldsNullRef(v)
    ensures !MeetsNullRef(doc, v, n)
    decreases n, v
  {
    if v.Obj? {
      var s := v.fields;
      if Reference(s).Some? {
        if n > 0 && s[REF].Str? && Target(doc, s[REF].s).Some? {
          TargetNullFree(doc, s[REF].s);
          NullFreeMeetsNone(doc, Target(doc, s[REF].s).value, n - 1);
        }
      } else {
        if "properties" in s && s["properties"].Obj? {
          forall k | k in s["properties"].fields ensures !MeetsNullRef(doc, s["properties"].fields[k], n) {
            assert !HoldsNullRef(s["properties"]);
            NullFreeMeetsNone(doc, s["properties"].fields[k], n);
          }
        }
        if "anyOf" in s && s["anyOf"].Arr? {
          forall i | 0 <= i < |s["anyOf"].items| ensures !MeetsNullRef(doc, s["anyOf"].items[i], n) {
            assert !HoldsNullRef(s["anyOf"]);
            NullFreeMeetsNone(doc, s["anyOf"].items[i], n);
          }
        }
        if "items" in s { NullFreeMeetsNone(doc, s["items"], n); }
      }
    }
  }

  lemma TargetNullFree(doc: Document, reference: string)
    requires !HoldsNullRef(doc.root) && Target(doc, reference).Some?
    ensures !HoldsNullRef(Target(doc, reference).value)
  {
    var pointer := LocalPointer(doc, reference).value;
    if pointer != "" { DescendNullFree(doc.root, Split(RemovePrefix(pointer))); }
  }

  /** A document without a null `$ref` resolves to a schema without reference keywords. */
  lemma NullFreeDocument(doc: Document)
    requires doc.root.Obj? && ResolveLocalRefs(doc).Some? && !HoldsNullRef(doc.root)
    ensures !HasRefs(ResolveLocalRefs(doc).value)
  {
    hide MeetsNullRef, HasRefs, HoldsNullRef, Resolve;
    NullFreeMeetsNone(doc, doc.root, |Pointers(doc)|);
    ResolvedDocument(doc, |Pointers(doc)|);
  }

  /** With a null `$ref` the keyword remains: such a schema resolves to itself and still holds it. */
  lemma NullRefRemains(unquote: string -> Option<string>)
    ensures
      var doc := Document(Obj(map[REF := Null]), unquote);
      ResolveLocalRefs(doc) == Some(doc.root) && HasRefs(doc.root)
  {
    var doc := Document(Obj(map[REF := Null]), unquote);
    var s := doc.root.fields;
    assert Reference(s) == None && s.Keys - {DEFS, DEFINITIONS} == {REF};
    assert |REF| != |"properties"| && |REF| != |"items"|;
    assert Within(doc, s[REF], {}) && ResolveChild(doc, REF, s[REF], {}) == Some(s[REF]);
    hide ResolveChild, RefsIn;
    var r := Resolve(doc, doc.root, {});
    assert r.Some?;
    assert r.value.fields == s;
  }
}

/** The schema validator, and what reference expansion preserves of it. */
module Validation {
  import opened JsonValue
  import opened Schema

  // ---------------------------------------------------------------- the validator

  predicate MatchesType(value: Json, expected: string) {
    match expected
    case "object" => value.Obj?
    case "string" => value.Str?
    case "integer" => value.Num?
    case "boolean" => value.Bool?
    case "array" => value.Arr?
    case "null" => value.Null?
    case _ => false
  }

  /** An integer keyword; booleans and other values are ignored. */
  function Limit(schema: Dict, keyword: string): Option<int> {
    match Get(schema, keyword)
    case Some(Num(n)) => Some(n)
    case _ => None
  }

  predicate WithinBounds(n: int, schema: Dict) {
    && (Limit(schema, "minimum").Some? ==> n >= Limit(schema, "minimum").value)
    && (Limit(schema, "maximum").Some? ==> n <= Limit(schema, "maximum").value)
    && (Limit(schema, "exclusiveMinimum").Some? ==> n > Limit(schema, "exclusiveMinimum").value)
    && (Limit(schema, "exclusiveMaximum").Some? ==> n < Limit(schema, "exclusiveMaximum").value)
  }

  predicate WithinLength(n: nat, schema: Dict, low: string, high: string) {
    && (Limit(schema, low).Some? ==> n >= Limit(schema, low).value)
    && (Limit(schema, high).Some? ==> n <= Limit(schema, high).value)
  }

  /** The schema constrains objects: by type, or by an object keyword when it has no type. */
  predicate AboutObjects(schema: Dict) {
    || Get(schema, "type") == Some(Str("object"))
    || ((Get(schema, "type") == None || Get(schema, "type") == Some(Null)) &&
        ("properties" in schema || "required" in schema || "additionalProperties" in schema))
  }

  /** Names listed by a `properties` object; `None` when the keyword is there but is no object. */
  function PropertyNames(schema: Dict): Option<set<string>> {
    match Get(schema, "properties")
    case None => Some({})
    case Some(Obj(fields)) => Some(fields.Keys)
    case Some(_) => None
  }

  predicate RequiredPresent(value: Dict, schema: Dict) {
    match Get(schema, "required")
    case Some(Arr(names)) => forall i | 0 <= i < |names| :: names[i].Str? ==> names[i].s in value
    case _ => true
  }

  /** The checks of `_validate_value` that do not enter a sub-schema. */
  predicate LocallyValid(value: Json, schema: Dict) {
    var kind := Get(schema, "type");
    && (kind.Some? && kind.value.Str? ==> MatchesType(value, kind.value.s))
    && (match Get(schema, "enum") case Some(Arr(items)) => value in items case _ => true)
    && (kind == Some(Str("integer")) && value.Num? ==> WithinBounds(value.n, schema))
    && (kind == Some(Str("string")) && value.Str? ==> WithinLength(|value.s|, schema, "minLength", "maxLength"))
    && (kind == Some(Str("array")) && value.Arr? ==> WithinLength(|value.items|, schema, "minItems", "maxItems"))
    && (AboutObjects(schema) ==>
        && value.Obj?
        && RequiredPresent(value.fields, schema)
        && (PropertyNames(schema).Some? && Get(schema, "additionalProperties") == Some(Bool(false)) ==>
            value.fields.Keys <= PropertyNames(schema).value))
    && (kind == Some(Str("array")) ==> value.Arr?)
  }

  /** `_validate_value(...) is None`. */
  predicate Valid(value: Json, schema: Json)
    requires schema.Obj?
    decreases schema
  {
    var s := schema.fields;
    && LocallyValid(value, s)
    && ("anyOf" in s && s["anyOf"].Arr? ==>
        var branches := s["anyOf"].items;
        exists i | 0 <= i < |branches| :: branches[i].Obj? && Valid(value, branches[i]))
    && (AboutObjects(s) && "properties" in s && s["properties"].Obj? ==>
        var properties := s["properties"].fields;
        forall k | k in properties && k in value.fields && properties[k].Obj? :: Valid(value.fields[k], properties[k]))
    && (Get(s, "type") == Some(Str("array")) && "items" in s && s["items"].Obj? ==>
        forall i | 0 <= i < |value.items| :: Valid(value.items[i], s["items"]))
  }

  /** The reference semantics: a text `$ref` is followed in the original document when validation meets it.
      `n` bounds how many references may be followed one inside another; beyond it nothing is accepted. */
  ghost predicate LazilyValid(doc: Document, value: Json, schema: Json, n: nat)
    requires schema.Obj?
    decreases n, schema
  {
    var s := schema.fields;
    if REF in s && s[REF].Str? then
      n > 0 && match Target(doc, s[REF].s)
      case Some(target) => target.Obj? && LazilyValid(doc, value, target, n - 1)
      case None => false
    else
      && LocallyValid(value, s)
      && ("anyOf" in s && s["anyOf"].Arr? ==>
          var branches := s["anyOf"].items;
          exists i | 0 <= i < |branches| :: branches[i].Obj? && LazilyValid(doc, value, branches[i], n))
      && (AboutObjects(s) && "properties" in s && s["properties"].Obj? ==>
          var properties := s["properties"].fields;
          forall k | k in properties && k in value.fields && properties[k].Obj? ::
            LazilyValid(doc, value.fields[k], properties[k], n))
      && (Get(s, "type") == Some(Str("array")) && "items" in s && s["items"].Obj? ==>
          forall i | 0 <= i < |value.items| :: LazilyValid(doc, value.items[i], s["items"], n))
  }

  // ---------------------------------------------------------------- expansion preserves meaning

  /** Agreement on the keywords the local checks read. */
  ghost predicate SameLocally(a: Dict, b: Dict) {
    && Get(a, "type") == Get(b, "type") && Get(a, "enum") == Get(b, "enum")
    && Get(a, "minimum") == Get(b, "minimum") && Get(a, "maximum") == Get(b, "maximum")
    && Get(a, "exclusiveMinimum") == Get(b, "exclusiveMinimum")
    && Get(a, "exclusiveMaximum") == Get(b, "exclusiveMaximum")
    && Get(a, "minLength") == Get(b, "minLength") && Get(a, "maxLength") == Get(b, "maxLength")
    && Get(a, "minItems") == Get(b, "minItems") && Get(a, "maxItems") == Get(b, "maxItems")
    && Get(a, "required") == Get(b, "required")
    && Get(a, "additionalProperties") == Get(b, "additionalProperties")
    && ("properties" in a <==> "properties" in b)
    && PropertyNames(a) == PropertyNames(b)
  }

  lemma LocallySame(value: Json, a: Dict, b: Dict)
    requires SameLocally(a, b)
    ensures AboutObjects(a) <==> AboutObjects(b)
    ensures LocallyValid(value, a) <==> LocallyValid(value, b)
  {
    hide Get, AboutObjects, PropertyNames, MatchesType;
    AboutSame(a, b);
  }

  lemma AboutSame(a: Dict, b: Dict)
    requires SameLocally(a, b)
    ensures AboutObjects(a) <==> AboutObjects(b)
  {
    assert ("required" in a <==> "required" in b) && ("additionalProperties" in a <==> "additionalProperties" in b);
  }

  /** Keywords that say nothing about values. */
  const ANNOTATIONS: set<string> := {"default", "description", "sensitive", "title"}

  /** Agreement on everything validation reads. */
  ghost predicate SameKeywords(a: Dict, b: Dict) {
    && SameLocally(a, b)
    && Get(a, "anyOf") == Get(b, "anyOf") && Get(a, "properties") == Get(b, "properties")
    && Get(a, "items") == Get(b, "items")
  }

  lemma KeywordsNotAnnotations()
    ensures "properties" !in ANNOTATIONS && "type" !in ANNOTATIONS && "enum" !in ANNOTATIONS
    ensures "minimum" !in ANNOTATIONS && "maximum" !in ANNOTATIONS && "exclusiveMinimum" !in ANNOTATIONS
    ensures "exclusiveMaximum" !in ANNOTATIONS && "minLength" !in ANNOTATIONS && "maxLength" !in ANNOTATIONS
    ensures "minItems" !in ANNOTATIONS && "maxItems" !in ANNOTATIONS && "required" !in ANNOTATIONS
    ensures "additionalProperties" !in ANNOTATIONS && "anyOf" !in ANNOTATIONS && "items" !in ANNOTATIONS
  {
  }

  lemma UnannotatedSame(a: Dict, b: Dict)
    requires forall k | k !in ANNOTATIONS :: Get(a, k) == Get(b, k)
    ensures SameKeywords(a, b)
  {
    hide ANNOTATIONS;
    KeywordsNotAnnotations();
  }

  /** Annotations do not matter to validation. */
  lemma AnnotationsIgnored(value: Json, a: Json, b: Json)
    requires a.Obj? && b.Obj? && SameKeywords(a.fields, b.fields)
    ensures Valid(value, a) <==> Valid(value, b)
  {
    LocallySame(value, a.fields, b.fields);
    assert ("anyOf" in a.fields <==> "anyOf" in b.fields) && ("items" in a.fields <==> "items" in b.fields);
    hide LocallyValid, SameLocally;
  }

  /** Keyword by keyword, an expanded schema is the expansion of the schema. */
  lemma FieldResolved(doc: Document, v: Json, active: set<string>, k: string)
    requires Within(doc, v, active) && v.Obj? && Reference(v.fields) == None && Resolve(doc, v, active).Some?
    requires k != DEFS && k != DEFINITIONS
    ensures k in v.fields <==> k in Resolve(doc, v, active).value.fields
    ensures k in v.fields ==>
      && Within(doc, v.fields[k], active)
      && ResolveChild(doc, k, v.fields[k], active) == Some(Resolve(doc, v, active).value.fields[k])
  {
    if k in v.fields { RefsOfField(v, k); }
    hide RefsIn;
  }

  lemma ChildrenResolved(doc: Document, v: Json, active: set<string>)
    requires Within(doc, v, active) && v.Obj? && Reference(v.fields) == None && Resolve(doc, v, active).Some?
    ensures SameLocally(v.fields, Resolve(doc, v, active).value.fields)
  {
    var s, r := v.fields, Resolve(doc, v, active).value.fields;
    forall k | k != "properties" && k != "anyOf" && k != "items" && k != DEFS && k != DEFINITIONS
      ensures Get(s, k) == Get(r, k)
    {
      FieldResolved(doc, v, active, k);
      if k in s { OtherChild(doc, k, s[k], active); }
    }
    FieldResolved(doc, v, active, "properties");
    if "properties" in s { PropertiesChild(doc, s["properties"], active); }
    hide Resolve, RefsIn, ResolveChild;
    ResolvedLocally(s, r);
  }

  lemma OtherChild(doc: Document, k: string, child: Json, active: set<string>)
    requires Within(doc, child, active) && k != "properties" && k != "anyOf" && k != "items"
    ensures ResolveChild(doc, k, child, active) == Some(child)
  {
  }

  lemma PropertiesChild(doc: Document, child: Json, active: set<string>)
    requires Within(doc, child, active) && ResolveChild(doc, "properties", child, active).Some?
    ensures
      var r := ResolveChild(doc, "properties", child, active).value;
      (child.Obj? <==> r.Obj?) && (child.Obj? ==> child.fields.Keys == r.fields.Keys)
  {
  }

  lemma ResolvedLocally(s: Dict, r: Dict)
    requires forall k | k != "properties" && k != "anyOf" && k != "items" && k != DEFS && k != DEFINITIONS ::
      Get(s, k) == Get(r, k)
    requires ("properties" in s <==> "properties" in r) && PropertyNames(s) == PropertyNames(r)
    ensures SameLocally(s, r)
  {
    hide PropertyNames;
  }

  /** Expansion preserves meaning: whenever it succeeds, the expanded schema accepts exactly the values
      accepted by following references in the original, for every bound that allows each pointer once. */
  lemma {:induction false} ResolvePreserves(doc: Document, v: Json, active: set<string>, value: Json, n: nat)
    requires Within(doc, v, active) && v.Obj? && Resolve(doc, v, active).Some? && n >= Left(doc, active)
    ensures Valid(value, Resolve(doc, v, active).value) <==> LazilyValid(doc, value, v, n)
    decreases Left(doc, active), v, 2
  {
    var s, r := v.fields, Resolve(doc, v, active).value;
    if Reference(s).Some? {
      PreservesReference(doc, v, active, value, n);
    } else {
      ChildrenResolved(doc, v, active);
      LocallySame(value, s, r.fields);
      FieldResolved(doc, v, active, "anyOf");
      FieldResolved(doc, v, active, "properties");
      FieldResolved(doc, v, active, "items");
      hide LocallyValid, Resolve, ResolveChild, SameLocally, AboutObjects, RefsIn, Valid, LazilyValid;
      if "anyOf" in s { PreservesAnyOf(doc, s["anyOf"], active, value, n); }
      if "properties" in s && value.Obj? { PreservesProperties(doc, s["properties"], active, value, n); }
      if "items" in s && value.Arr? { PreservesItems(doc, s["items"], active, value, n); }
      Assemble(doc, value, v, r, n);
    }
  }

  /** Two schemas that agree locally and on every kind of sub-schema agree. */
  lemma Assemble(doc: Document, value: Json, v: Json, r: Json, n: nat)
    requires v.Obj? && r.Obj? && Reference(v.fields) == None
    requires (LocallyValid(value, v.fields) <==> LocallyValid(value, r.fields))
    requires (AboutObjects(v.fields) <==> AboutObjects(r.fields)) && Get(v.fields, "type") == Get(r.fields, "type")
    requires ("anyOf" in v.fields <==> "anyOf" in r.fields) && ("items" in v.fields <==> "items" in r.fields)
    requires "properties" in v.fields <==> "properties" in r.fields
    requires "anyOf" in v.fields ==>
      var a, b := v.fields["anyOf"], r.fields["anyOf"];
      && (a.Arr? <==> b.Arr?)
      && (a.Arr? ==>
          ((exists i | 0 <= i < |a.items| :: a.items[i].Obj? && LazilyValid(doc, value, a.items[i], n)) <==>
           (exists i | 0 <= i < |b.items| :: b.items[i].Obj? && Valid(value, b.items[i]))))
    requires "properties" in v.fields && value.Obj? ==>
      var a, b := v.fields["properties"], r.fields["properties"];
      && (a.Obj? <==> b.Obj?)
      && (a.Obj? ==>
          ((forall k | k in a.fields && k in value.fields && a.fields[k].Obj? ::
              LazilyValid(doc, value.fields[k], a.fields[k], n)) <==>
           (forall k | k in b.fields && k in value.fields && b.fields[k].Obj? :: Valid(value.fields[k], b.fields[k]))))
    requires "items" in v.fields && value.Arr? ==>
      var a, b := v.fields["items"], r.fields["items"];
      && (a.Obj? <==> b.Obj?)
      && (a.Obj? ==>
          ((forall i | 0 <= i < |value.items| :: LazilyValid(doc, value.items[i], a, n)) <==>
           (forall i | 0 <= i < |value.items| :: Valid(value.items[i], b))))
    ensures Valid(value, r) <==> LazilyValid(doc, value, v, n)
  {
    hide LocallyValid, AboutObjects;
    LocalShape(value, v.fields);
  }

  lemma LocalShape(value: Json, schema: Dict)
    ensures LocallyValid(value, schema) && AboutObjects(schema) ==> value.Obj?
    ensures LocallyValid(value, schema) && Get(schema, "type") == Some(Str("array")) ==> value.Arr?
  {
  }

  lemma {:induction false} PreservesReference(doc: Document, v: Json, active: set<string>, value: Json, n: nat)
    requires Within(doc, v, active) && v.Obj? && Resolve(doc, v, active).Some? && n >= Left(doc, active)
    requires Reference(v.fields).Some?
    ensures Valid(value, Resolve(doc, v, active).value) <==> LazilyValid(doc, value, v, n)
    decreases Left(doc, active), v, 1
  {
    var reference := v.fields[REF].s;
    var pointer := LocalPointer(doc, reference).value;
    var target := Target(doc, reference).value;
    assert reference in RefsIn(v) && pointer in Pointers(doc);
    LeftDrops(doc, active, pointer);
    var expanded := Resolve(doc, target, active + {pointer}).value;
    ResolvePreserves(doc, target, active + {pointer}, value, n - 1);
    ReferenceAnnotates(doc, v, reference, active);
    AnnotationsIgnored(value, Resolve(doc, v, active).value, expanded);
    hide Valid, Resolve, ResolveReference, RefsIn;
  }

  /** A resolved reference differs from its target in annotations only. */
  lemma ReferenceAnnotates(doc: Document, v: Json, reference: string, active: set<string>)
    requires Within(doc, v, active) && v.Obj? && REF in v.fields && v.fields[REF] == Str(reference)
    requires ResolveReference(doc, v, reference, active).Some?
    ensures
      var pointer := LocalPointer(doc, reference);
      && pointer.Some? && pointer.value !in active && Target(doc, reference).Some?
      && pointer.value in Pointers(doc)
      && Within(doc, Target(doc, reference).value, active + {pointer.value})
      && var expanded := Resolve(doc, Target(doc, reference).value, active + {pointer.value});
         && expanded.Some? && expanded.value.Obj?
         && SameKeywords(ResolveReference(doc, v, reference, active).value.fields, expanded.value.fields)
  {
    var pointer := LocalPointer(doc, reference).value;
    assert reference in RefsIn(v) && pointer in Pointers(doc);
    LeftDrops(doc, active, pointer);
    var expanded := Resolve(doc, Target(doc, reference).value, active + {pointer}).value;
    var combined := ResolveReference(doc, v, reference, active).value;
    var names := v.fields.Keys - CONTAINERS;
    assert names <= ANNOTATIONS;
    forall k | k !in ANNOTATIONS ensures Get(combined.fields, k) == Get(expanded.fields, k) {
      assert k !in names;
    }
    hide Resolve, ResolveReference, RefsIn;
    UnannotatedSame(combined.fields, expanded.fields);
  }

  lemma {:induction false} PreservesAnyOf(doc: Document, child: Json, active: set<string>, value: Json, n: nat)
    requires Within(doc, child, active) && ResolveChild(doc, "anyOf", child, active).Some? && n >= Left(doc, active)
    ensures
      var r := ResolveChild(doc, "anyOf", child, active).value;
      && (child.Arr? <==> r.Arr?)
      && (child.Arr? ==>
          ((exists i | 0 <= i < |child.items| :: child.items[i].Obj? && LazilyValid(doc, value, child.items[i], n)) <==>
           (exists i | 0 <= i < |r.items| :: r.items[i].Obj? && Valid(value, r.items[i]))))
    decreases Left(doc, active), child, 3
  {
    if child.Arr? {
      var r := ResolveChild(doc, "anyOf", child, active).value;
      assert |r.items| == |child.items|;
      forall i | 0 <= i < |child.items|
        ensures child.items[i].Obj? <==> r.items[i].Obj?
        ensures child.items[i].Obj? ==> (LazilyValid(doc, value, child.items[i], n) <==> Valid(value, r.items[i]))
      {
        RefsOfItem(child, i);
        assert Resolve(doc, child.items[i], active) == Some(r.items[i]);
        if child.items[i].Obj? { ResolvePreserves(doc, child.items[i], active, value, n); }
      }
    }
  }

  lemma {:induction false} PreservesProperties(doc: Document, child: Json, active: set<string>, value: Json, n: nat)
    requires Within(doc, child, active) && ResolveChild(doc, "properties", child, active).Some?
    requires n >= Left(doc, active) && value.Obj?
    ensures
      var r := ResolveChild(doc, "properties", child, active).value;
      && (child.Obj? <==> r.Obj?)
      && (child.Obj? ==>
          ((forall k | k in child.fields && k in value.fields && child.fields[k].Obj? ::
              LazilyValid(doc, value.fields[k], child.fields[k], n)) <==>
           (forall k | k in r.fields && k in value.fields && r.fields[k].Obj? :: Valid(value.fields[k], r.fields[k]))))
    decreases Left(doc, active), child, 3
  {
    if child.Obj? {
      var r := ResolveChild(doc, "properties", child, active).value;
      assert r.fields.Keys == child.fields.Keys;
      forall k | k in child.fields
        ensures child.fields[k].Obj? <==> r.fields[k].Obj?
        ensures child.fields[k].Obj? && k in value.fields ==>
          (LazilyValid(doc, value.fields[k], child.fields[k], n) <==> Valid(value.fields[k], r.fields[k]))
      {
        RefsOfField(child, k);
        assert Resolve(doc, child.fields[k], active) == Some(r.fields[k]);
        if child.fields[k].Obj? && k in value.fields {
          ResolvePreserves(doc, child.fields[k], active, value.fields[k], n);
        }
      }
    }
  }

  lemma {:induction false} PreservesItems(doc: Document, child: Json, active: set<string>, value: Json, n: nat)
    requires Within(doc, child, active) && ResolveChild(doc, "items", child, active).Some?
    requires n >= Left(doc, active) && value.Arr?
    ensures
      var r := ResolveChild(doc, "items", child, active).value;
      && (child.Obj? <==> r.Obj?)
      && (child.Obj? ==>
          ((forall i | 0 <= i < |value.items| :: LazilyValid(doc, value.items[i], child, n)) <==>
           (forall i | 0 <= i < |value.items| :: Valid(value.items[i], r))))
    decreases Left(doc, active), child, 3
  {
    if child.Obj? {
      forall i | 0 <= i < |value.items|
        ensures LazilyValid(doc, value.items[i], child, n) <==>
          Valid(value.items[i], ResolveChild(doc, "items", child, active).value)
      {
        ResolvePreserves(doc, child, active, value.items[i], n);
      }
    }
  }

  /** For the whole document: the expanded schema is the lazy meaning of the original, once the bound
      admits every reference pointer of the document. */
  lemma ExpansionPreservesMeaning(doc: Document, value: Json, n: nat)
    requires doc.root.Obj? && ResolveLocalRefs(doc).Some? && n >= |Pointers(doc)|
    ensures Valid(value, ResolveLocalRefs(doc).value) <==> LazilyValid(doc, value, doc.root, n)
  {
    assert Left(doc, {}) <= n by { assert Pointers(doc) - {} == Pointers(doc); }
    ResolvePreserves(doc, doc.root, {}, value, n);
  }
}

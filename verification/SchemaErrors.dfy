/** What expansion puts in place of a reference, and exactly when it fails. */
module SchemaErrors {
  import opened JsonValue
  import opened Schema

  // ---------------------------------------------------------------- one reference

  /** The object's own keywords, without the reference and the definitions. */
  function Own(v: Json): set<string>
    requires v.Obj?
  {
    v.fields.Keys - {"$ref", "$defs", "definitions"}
  }

  /** The reference of `v` can be followed: it stands beside annotations only, and points locally, not into a circle,
      at an object of the document. */
  predicate Followable(doc: Document, v: Json, active: set<string>) {
    && v.Obj? && REF in v.fields && v.fields[REF].Str?
    && (forall k | k in v.fields ::
          k in {"$ref", "$defs", "definitions", "default", "description", "sensitive", "title"})
    && var pointer, target := LocalPointer(doc, v.fields[REF].s), Target(doc, v.fields[REF].s);
       pointer.Some? && pointer.value !in active && target.Some? && target.value.Obj?
  }

  /** Where the reference points, and the references followed by then. */
  function Followed(doc: Document, v: Json, active: set<string>): (r: (Json, set<string>))
    requires Within(doc, v, active) && Followable(doc, v, active)
    ensures Within(doc, r.0, r.1) && Left(doc, r.1) < Left(doc, active)
  {
    var reference := v.fields[REF].s;
    var pointer := LocalPointer(doc, reference).value;
    assert reference in RefsIn(v) && pointer in Pointers(doc);
    LeftDrops(doc, active, pointer);
    (Target(doc, reference).value, active + {pointer})
  }

  lemma FieldsWithin(doc: Document, v: Json, active: set<string>)
    requires v.Obj? && Within(doc, v, active)
    ensures forall k | k in v.fields :: Within(doc, v.fields[k], active)
  {
    forall k | k in v.fields ensures Within(doc, v.fields[k], active) { RefsOfField(v, k); }
  }

  /** What a followed reference gives, from what its target gives. */
  ghost predicate Overlaid(doc: Document, v: Json, active: set<string>, base: Option<Json>, out: Option<Json>)
    requires v.Obj? && forall k | k in v.fields :: Within(doc, v.fields[k], active)
  {
    && (out.Some? <==> base.Some? && forall k | k in Own(v) :: Resolve(doc, v.fields[k], active).Some?)
    && (out.Some? ==>
        && base.value.Obj? && out.value.Obj? && out.value.fields.Keys == base.value.fields.Keys + Own(v)
        && (forall k | k in Own(v) :: out.value.fields[k] == Resolve(doc, v.fields[k], active).value)
        && (forall k | k in base.value.fields && k !in Own(v) :: out.value.fields[k] == base.value.fields[k]))
  }

  /** A text reference expands exactly when it can be followed and its target and its own keywords expand. The result
      has the target's keywords and its own, and its own win. */
  lemma ReferenceFields(doc: Document, v: Json, active: set<string>)
    requires Within(doc, v, active) && v.Obj? && REF in v.fields && v.fields[REF].Str?
    ensures forall k | k in v.fields :: Within(doc, v.fields[k], active)
    ensures
      if Followable(doc, v, active) then
        var (target, followed) := Followed(doc, v, active);
        Overlaid(doc, v, active, Resolve(doc, target, followed), Resolve(doc, v, active))
      else Resolve(doc, v, active) == None
  {
    hide RefsIn, LocalPointer, Within, Left, Resolve, Target, Overlaid, Followed;
    FieldsWithin(doc, v, active);
    if Followable(doc, v, active) {
      FollowedOverlays(doc, v, active);
    } else {
      NotFollowed(doc, v, active);
    }
  }

  lemma FollowedOverlays(doc: Document, v: Json, active: set<string>)
    requires Within(doc, v, active) && Followable(doc, v, active)
    ensures forall k | k in v.fields :: Within(doc, v.fields[k], active)
    ensures
      var (target, followed) := Followed(doc, v, active);
      Overlaid(doc, v, active, Resolve(doc, target, followed), Resolve(doc, v, active))
  {
    hide RefsIn, LocalPointer, Within, Left, Resolve, Target;
    FieldsWithin(doc, v, active);
    IsReference(doc, v, active);
    assert v.fields.Keys <= BESIDE_REF;
    assert Own(v) == v.fields.Keys - CONTAINERS;
  }

  lemma NotFollowed(doc: Document, v: Json, active: set<string>)
    requires Within(doc, v, active) && v.Obj? && REF in v.fields && v.fields[REF].Str?
    requires !Followable(doc, v, active)
    ensures Resolve(doc, v, active) == None
  {
    hide RefsIn, LocalPointer, Within, Left, Resolve, Target;
    IsReference(doc, v, active);
    assert v.fields.Keys <= BESIDE_REF ==> forall k | k in v.fields :: k in BESIDE_REF;
  }

  lemma IsReference(doc: Document, v: Json, active: set<string>)
    requires Within(doc, v, active) && v.Obj? && REF in v.fields && v.fields[REF].Str?
    ensures Resolve(doc, v, active) == ResolveReference(doc, v, v.fields[REF].s, active)
  {
    hide RefsIn, LocalPointer, Within, Left, ResolveReference, ResolveChild;
  }

  // ---------------------------------------------------------------- when expansion fails

  /** A step of the expansion from a schema to one it needs. */
  datatype Hop = Property(name: string) | Choice(i: nat) | Items | Beside(name: string) | Follow

  function Subschema(v: Json, hop: Hop): (r: Option<Json>)
    requires v.Obj?
    ensures r.Some? ==> RefsIn(r.value) <= RefsIn(v)
  {
    match hop
    case Property(name) =>
      (match Get(v.fields, "properties")
       case Some(Obj(schemas)) =>
         RefsOfField(v, "properties");
         if name in schemas then (RefsOfField(v.fields["properties"], name); Some(schemas[name])) else None
       case _ => None)
    case Choice(i) =>
      (match Get(v.fields, "anyOf")
       case Some(Arr(schemas)) =>
         RefsOfField(v, "anyOf");
         if i < |schemas| then (RefsOfItem(v.fields["anyOf"], i); Some(schemas[i])) else None
       case _ => None)
    case Items => if "items" in v.fields then (RefsOfField(v, "items"); Some(v.fields["items"])) else None
    case _ => None
  }

  /** Where a step leads, and the references followed by then. */
  function After(doc: Document, v: Json, active: set<string>, hop: Hop): (r: Option<(Json, set<string>)>)
    requires Within(doc, v, active)
    ensures r.Some? ==> Within(doc, r.value.0, r.value.1)
  {
    if !v.Obj? then None
    else if Reference(v.fields).Some? then
      if hop.Follow? && Followable(doc, v, active) then Some(Followed(doc, v, active))
      else if hop.Beside? && hop.name in Own(v) && Followable(doc, v, active) then
        FieldsWithin(doc, v, active);
        Some((v.fields[hop.name], active))
      else None
    else
      match Subschema(v, hop)
      case None => None
      case Some(schema) => Some((schema, active))
  }

  function Arrive(doc: Document, v: Json, active: set<string>, hops: seq<Hop>): Option<(Json, set<string>)>
    requires Within(doc, v, active)
    decreases |hops|
  {
    if hops == [] then Some((v, active))
    else
      match After(doc, v, active, hops[0])
      case None => None
      case Some(next) => Arrive(doc, next.0, next.1, hops[1..])
  }

  /** The steps lead to an object whose reference cannot be followed. */
  ghost predicate LeadsToStuck(doc: Document, v: Json, active: set<string>, hops: seq<Hop>)
    requires Within(doc, v, active)
  {
    match Arrive(doc, v, active, hops)
    case None => false
    case Some(at) => at.0.Obj? && Reference(at.0.fields).Some? && !Followable(doc, at.0, at.1)
  }

  ghost predicate Fails(doc: Document, at: (Json, set<string>))
    requires Within(doc, at.0, at.1)
  {
    Resolve(doc, at.0, at.1) == None
  }

  /** A failure one step on is a failure here. */
  lemma StepFails(doc: Document, v: Json, active: set<string>, hop: Hop)
    requires Within(doc, v, active) && After(doc, v, active, hop).Some? && Fails(doc, After(doc, v, active, hop).value)
    ensures Resolve(doc, v, active) == None
  {
    if Reference(v.fields).Some? {
      ReferenceFields(doc, v, active);
    } else {
      SubschemaFails(doc, v, active, hop);
    }
  }

  lemma SubschemaFails(doc: Document, v: Json, active: set<string>, hop: Hop)
    requires Within(doc, v, active) && v.Obj? && Reference(v.fields) == None && Subschema(v, hop).Some?
    requires Resolve(doc, Subschema(v, hop).value, active) == None
    ensures Resolve(doc, v, active) == None
  {
    FieldsWithin(doc, v, active);
    var k := match hop case Property(_) => "properties" case Choice(_) => "anyOf" case _ => "items";
    assert ResolveChild(doc, k, v.fields[k], active) == None;
    assert k in v.fields.Keys - {DEFS, DEFINITIONS};
  }

  lemma {:induction false} PathFails(doc: Document, v: Json, active: set<string>, hops: seq<Hop>)
    requires Within(doc, v, active) && LeadsToStuck(doc, v, active, hops)
    ensures Resolve(doc, v, active) == None
    decreases |hops|
  {
    hide Resolve, Followable, After;
    if hops == [] {
      StuckFails(doc, v, active);
    } else {
      var next := After(doc, v, active, hops[0]).value;
      PathFails(doc, next.0, next.1, hops[1..]);
      StepFails(doc, v, active, hops[0]);
    }
  }

  lemma StuckFails(doc: Document, v: Json, active: set<string>)
    requires Within(doc, v, active) && v.Obj? && Reference(v.fields).Some? && !Followable(doc, v, active)
    ensures Resolve(doc, v, active) == None
  {
    if v.fields[REF].Str? { ReferenceFields(doc, v, active); }
  }

  /** A step that fails, where the schema itself is not stuck. */
  lemma FailingStep(doc: Document, v: Json, active: set<string>) returns (hop: Hop)
    requires Within(doc, v, active) && Resolve(doc, v, active) == None
    requires v.Obj? && (Reference(v.fields).Some? ==> Followable(doc, v, active))
    ensures After(doc, v, active, hop).Some? && Fails(doc, After(doc, v, active, hop).value)
    ensures
      var next := After(doc, v, active, hop).value;
      Left(doc, next.1) < Left(doc, active) || (next.1 == active && next.0 < v)
  {
    if Reference(v.fields).Some? {
      ReferenceFields(doc, v, active);
      if Fails(doc, Followed(doc, v, active)) {
        hop := Follow;
      } else {
        var k :| k in Own(v) && Resolve(doc, v.fields[k], active) == None;
        hop := Beside(k);
      }
    } else {
      hop := FailingSubschema(doc, v, active);
    }
  }

  lemma FailingSubschema(doc: Document, v: Json, active: set<string>) returns (hop: Hop)
    requires Within(doc, v, active) && v.Obj? && Reference(v.fields) == None && Resolve(doc, v, active) == None
    ensures Subschema(v, hop).Some? && Within(doc, Subschema(v, hop).value, active) && Subschema(v, hop).value < v
    ensures Resolve(doc, Subschema(v, hop).value, active) == None
  {
    hide RefsIn, Left, ResolveReference, LocalPointer;
    FieldsWithin(doc, v, active);
    var k :| k in v.fields && k != DEFS && k != DEFINITIONS && ResolveChild(doc, k, v.fields[k], active) == None;
    var child := v.fields[k];
    if k == "properties" && child.Obj? {
      FieldsWithin(doc, child, active);
      var name :| name in child.fields && Resolve(doc, child.fields[name], active) == None;
      hop := Property(name);
    } else if k == "anyOf" && child.Arr? {
      forall i | 0 <= i < |child.items| ensures Within(doc, child.items[i], active) { RefsOfItem(child, i); }
      var i :| 0 <= i < |child.items| && Resolve(doc, child.items[i], active) == None;
      hop := Choice(i);
    } else {
      hop := Items;
    }
  }

  lemma {:induction false} FailingPath(doc: Document, v: Json, active: set<string>) returns (hops: seq<Hop>)
    requires Within(doc, v, active) && Resolve(doc, v, active) == None
    ensures LeadsToStuck(doc, v, active, hops)
    decreases Left(doc, active), v
  {
    hide Followable, After, RefsIn, Within, Left, LocalPointer;
    NonObjectsResolve(doc, v, active);
    if Reference(v.fields).Some? && !Followable(doc, v, active) {
      hops := [];
    } else {
      hide Resolve;
      var hop := FailingStep(doc, v, active);
      var next := After(doc, v, active, hop).value;
      var rest := FailingPath(doc, next.0, next.1);
      hops := [hop] + rest;
      assert hops[1..] == rest;
    }
  }

  lemma NonObjectsResolve(doc: Document, v: Json, active: set<string>)
    requires Within(doc, v, active)
    ensures Resolve(doc, v, active) == None ==> v.Obj?
  {
  }

  /** Expansion fails exactly when some chain of needed schemas leads to a reference that cannot be followed. */
  lemma FailsExactly(doc: Document, v: Json, active: set<string>)
    requires Within(doc, v, active)
    ensures Resolve(doc, v, active) == None <==> exists hops :: LeadsToStuck(doc, v, active, hops)
  {
    hide Resolve, LeadsToStuck;
    if Resolve(doc, v, active) == None { var hops := FailingPath(doc, v, active); }
    if hops :| LeadsToStuck(doc, v, active, hops) { PathFails(doc, v, active, hops); }
  }

  /** The same for a whole document. */
  lemma DocumentFails(doc: Document)
    requires doc.root.Obj?
    ensures ResolveLocalRefs(doc) == None <==> exists hops :: LeadsToStuck(doc, doc.root, {}, hops)
  {
    hide Resolve, LeadsToStuck;
    FailsExactly(doc, doc.root, {});
  }
}

/** Expansion of local schema references. */
module Schema {
  import opened JsonValue
  import opened Pointer

  /** A schema document, with the percent-decoder the source calls on reference fragments. */
  datatype Document = Document(root: Json, unquote: string -> Option<string>)

  const REF := "$ref"
  const DEFS := "$defs"
  const DEFINITIONS := "definitions"

  /** Keywords that may stand beside a reference. */
  const BESIDE_REF: set<string> := {DEFS, REF, "default", DEFINITIONS, "description", "sensitive", "title"}

  const CONTAINERS: set<string> := {REF, DEFS, DEFINITIONS}

  predicate IsHex(c: char) {
    '0' <= c <= '9' || 'a' <= c <= 'f' || 'A' <= c <= 'F'
  }

  predicate EscapesOk(fragment: string) {
    forall i | 0 <= i < |fragment| && fragment[i] == '%' ::
      i + 2 < |fragment| && IsHex(fragment[i + 1]) && IsHex(fragment[i + 2])
  }

  /** `_local_pointer`. */
  function LocalPointer(doc: Document, reference: string): Option<string> {
    if reference == "#" then Some("")
    else if |reference| < 2 || reference[0] != '#' || reference[1] != '/' then None
    else if !EscapesOk(reference[1..]) then None
    else doc.unquote(reference[1..])
  }

  // ---------------------------------------------------------------- the termination measure

  /** Every text under a `$ref` key anywhere in a value. */
  function RefsIn(v: Json): set<string> {
    match v
    case Obj(fields) =>
      (if REF in fields && fields[REF].Str? then {fields[REF].s} else {})
      + (set k, r | k in fields && r in RefsIn(fields[k]) :: r)
    case Arr(items) => set i, r | 0 <= i < |items| && r in RefsIn(items[i]) :: r
    case _ => {}
  }

  /** The pointers references of the document resolve to. */
  function Pointers(doc: Document): set<string> {
    set r | r in RefsIn(doc.root) && LocalPointer(doc, r).Some? :: LocalPointer(doc, r).value
  }

  /** `v` occurs in the document, and the active pointers are distinct pointers of the document. */
  predicate Within(doc: Document, v: Json, active: set<string>) {
    RefsIn(v) <= RefsIn(doc.root) && active <= Pointers(doc)
  }

  function Left(doc: Document, active: set<string>): nat
    requires active <= Pointers(doc)
  {
    assert |Pointers(doc)| == |Pointers(doc) - active| + |active|;
    |Pointers(doc)| - |active|
  }

  lemma RefsOfField(v: Json, k: string)
    requires v.Obj? && k in v.fields
    ensures RefsIn(v.fields[k]) <= RefsIn(v)
  {
  }

  lemma RefsOfItem(v: Json, i: nat)
    requires v.Arr? && i < |v.items|
    ensures RefsIn(v.items[i]) <= RefsIn(v)
  {
  }

  lemma StepWithin(v: Json, token: string)
    ensures Pointer.Step(v, token).Some? ==> RefsIn(Pointer.Step(v, token).value) <= RefsIn(v)
  {
    if Pointer.Step(v, token).Some? {
      var name := DecodeToken(token).value;
      if v.Obj? { RefsOfField(v, name); } else { RefsOfItem(v, ParseIndex(name).value); }
    }
  }

  lemma {:induction false} DescendWithin(v: Json, tokens: seq<string>)
    ensures Descend(v, tokens).Some? ==> RefsIn(Descend(v, tokens).value) <= RefsIn(v)
  {
    if tokens != [] {
      StepWithin(v, tokens[0]);
      if Pointer.Step(v, tokens[0]).Some? { DescendWithin(Pointer.Step(v, tokens[0]).value, tokens[1..]); }
    }
  }

  /** What a reference in the document points at. */
  function Target(doc: Document, reference: string): (r: Option<Json>)
    ensures r.Some? ==> RefsIn(r.value) <= RefsIn(doc.root) && LocalPointer(doc, reference).Some?
  {
    match LocalPointer(doc, reference)
    case None => None
    case Some(pointer) =>
      if pointer == "" then Some(doc.root)
      else
        DescendWithin(doc.root, Split(RemovePrefix(pointer)));
        PointerTarget(doc.root, pointer)
  }

  // ---------------------------------------------------------------- resolve

  /** The value under `$ref`, unless it is absent or null. */
  function Reference(fields: Dict): Option<Json> {
    if REF in fields && fields[REF] != Null then Some(fields[REF]) else None
  }

  /** `resolve`: the expanded value, or `None` where the source raises `UnsupportedSchema`.
      It ends on every document: each followed reference uses up a pointer, anything else shrinks the value. */
  function Resolve(doc: Document, v: Json, active: set<string>): (r: Option<Json>)
    requires Within(doc, v, active)
    ensures r.Some? ==> (r.value.Obj? <==> v.Obj?)
    decreases Left(doc, active), v, 1
  {
    if !v.Obj? then Some(v)
    else
      match Reference(v.fields)
      case Some(Str(reference)) => ResolveReference(doc, v, reference, active)
      case Some(_) => None
      case None =>
        var names := v.fields.Keys - {DEFS, DEFINITIONS};
        assert forall k | k in names :: k in v.fields;
        if forall k | k in names :: (RefsOfField(v, k); ResolveChild(doc, k, v.fields[k], active).Some?) then
          Some(Obj(map k | k in names :: (RefsOfField(v, k); ResolveChild(doc, k, v.fields[k], active).value)))
        else None
  }

  /** The reference branch: the expanded target with the annotations beside the reference laid over it. */
  function ResolveReference(doc: Document, v: Json, reference: string, active: set<string>): (r: Option<Json>)
    requires Within(doc, v, active) && v.Obj? && REF in v.fields && v.fields[REF] == Str(reference)
    ensures r.Some? ==> r.value.Obj?
    decreases Left(doc, active), v, 0
  {
    var names := v.fields.Keys - CONTAINERS;
    assert forall k | k in names :: k in v.fields;
    if !(v.fields.Keys <= BESIDE_REF) then None
    else
      match LocalPointer(doc, reference)
      case None => None
      case Some(pointer) =>
        if pointer in active then None
        else
          match Target(doc, reference)
          case None => None
          case Some(target) =>
            assert reference in RefsIn(v);
            assert pointer in Pointers(doc);
            LeftDrops(doc, active, pointer);
            match Resolve(doc, target, active + {pointer})
            case None => None
            case Some(expanded) =>
              if !expanded.Obj? then None
              else if forall k | k in names :: (RefsOfField(v, k); Resolve(doc, v.fields[k], active).Some?) then
                Some(Obj(expanded.fields +
                         map k | k in names :: (RefsOfField(v, k); Resolve(doc, v.fields[k], active).value)))
              else None
  }

  lemma LeftDrops(doc: Document, active: set<string>, pointer: string)
    requires active <= Pointers(doc) && pointer in Pointers(doc) && pointer !in active
    ensures active + {pointer} <= Pointers(doc) && Left(doc, active + {pointer}) < Left(doc, active)
  {
    assert |active + {pointer}| == |active| + 1;
  }

  /** One keyword of a schema without a reference. */
  function ResolveChild(doc: Document, name: string, child: Json, active: set<string>): (r: Option<Json>)
    requires Within(doc, child, active)
    decreases Left(doc, active), child, 2
  {
    if name == "properties" && child.Obj? then
      if forall k | k in child.fields :: (RefsOfField(child, k); Resolve(doc, child.fields[k], active).Some?) then
        Some(Obj(map k | k in child.fields :: (RefsOfField(child, k); Resolve(doc, child.fields[k], active).value)))
      else None
    else if name == "anyOf" && child.Arr? then
      if forall i | 0 <= i < |child.items| :: (RefsOfItem(child, i); Resolve(doc, child.items[i], active).Some?) then
        Some(Arr(seq(|child.items|, i requires 0 <= i < |child.items| =>
          (RefsOfItem(child, i); Resolve(doc, child.items[i], active).value))))
      else None
    else if name == "items" then Resolve(doc, child, active)
    else Some(child)
  }

  /** `resolve_local_refs`. */
  function ResolveLocalRefs(doc: Document): (r: Option<Json>)
    requires doc.root.Obj?
    ensures r.Some? ==> r.value.Obj?
  {
    Resolve(doc, doc.root, {})
  }
}

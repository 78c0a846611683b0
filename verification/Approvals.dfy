/** Durable approval records: requests, decision slots and decisions, as nodes of a store. */
module Approvals {
  import opened JsonValue
  import opened Forest
  import opened Store

  /** `agentIdentity` is the identity document, or null. */
  datatype ApprovalRequest = ApprovalRequest(
    id: Id,
    rootId: Id,
    parentId: Id,
    name: string,
    toolVersion: string,
    argsDigest: Digest,
    specDigest: Digest,
    registryDigest: Digest,
    agentIdentity: Json,
    attempt: nat)

  /** The hash functions and the text checks of team_context.py. */
  datatype Rules = Rules(enc: Encoding, validName: string -> bool, validIdentity: Json -> bool)
  {
    /** Node ids pass the format check, and identify their fields. */
    ghost predicate GoodIds() {
      && enc.InjectiveIds()
      && forall k, p, a, d :: enc.isDigest(enc.nodeId(k, p, a, d))
    }
  }

  const RESERVED := "_pollard"

  function Event(name: string, document: Dict): Dict {
    map[RESERVED := Obj(map[name := Obj(document)])]
  }

  /** `_event`: the document of a reserved note, or `None` when it raises. */
  function EventOf(n: Node, name: string): Option<Dict> {
    match Get(n.payload, RESERVED)
    case Some(Obj(wrapper)) =>
      (match Get(wrapper, name)
       case Some(Obj(document)) =>
         if n.kind == Note && Get(document, "version") == Some(Num(1)) then Some(document) else None
       case _ => None)
    case _ => None
  }

  function Document(r: ApprovalRequest): Dict {
    map["version" := Num(1), "root_id" := Str(r.rootId), "name" := Str(r.name),
        "tool_version" := Str(r.toolVersion), "args_digest" := Str(r.argsDigest),
        "spec_digest" := Str(r.specDigest), "registry_digest" := Str(r.registryDigest),
        "agent_identity" := r.agentIdentity]
  }

  function RequestNode(rules: Rules, r: ApprovalRequest): Node {
    rules.enc.Make(Note, Some(r.parentId), r.attempt, Event("approval_request", Document(r)), None, map[])
  }

  /** The checks of `ApprovalRequest.__post_init__`. */
  predicate ValidRequest(rules: Rules, r: ApprovalRequest) {
    && rules.enc.isDigest(r.id) && rules.enc.isDigest(r.rootId) && rules.enc.isDigest(r.parentId)
    && rules.enc.isDigest(r.argsDigest) && rules.enc.isDigest(r.specDigest) && rules.enc.isDigest(r.registryDigest)
    && r.name != "" && r.toolVersion != ""
    && (r.agentIdentity == Null || rules.validIdentity(r.agentIdentity))
    && RequestNode(rules, r).id == r.id
  }

  const REQUEST_FIELDS: set<string> := {
    "version", "id", "root_id", "parent_id", "attempt", "name", "tool_version",
    "args_digest", "spec_digest", "registry_digest", "agent_identity"}

  function Text(document: Dict, name: string): Option<string> {
    match Get(document, name)
    case Some(Str(s)) => Some(s)
    case _ => None
  }

  /** `ApprovalRequest.from_dict` on the document of a note, before validation. */
  function ParseRequest(n: Node, document: Dict): Option<ApprovalRequest> {
    if document.Keys + {"id", "parent_id", "attempt"} != REQUEST_FIELDS || n.parent == None then None
    else
      match (Text(document, "root_id"), Text(document, "name"), Text(document, "tool_version"),
             Text(document, "args_digest"), Text(document, "spec_digest"), Text(document, "registry_digest"))
      case (Some(root), Some(name), Some(version), Some(args), Some(spec), Some(registry)) =>
        Some(ApprovalRequest(n.id, root, n.parent.value, name, version, args, spec, registry,
                             document["agent_identity"], n.attempt))
      case _ => None
  }

  /** `_request_from_node`, `None` when it raises. */
  function RequestFrom(rules: Rules, n: Node): Option<ApprovalRequest> {
    match EventOf(n, "approval_request")
    case None => None
    case Some(document) =>
      match ParseRequest(n, document)
      case None => None
      case Some(r) =>
        if ValidRequest(rules, r) && SameIdentity(n, RequestNode(rules, r)) && n.result == None then Some(r) else None
  }

  // ---------------------------------------------------------------- slots and decisions

  function Slot(rules: Rules, r: ApprovalRequest): Node {
    rules.enc.Make(Note, Some(r.id), 0,
                   Event("approval_decision_slot", map["version" := Num(1), "request_id" := Str(r.id)]), None, map[])
  }

  function DecisionDocument(r: ApprovalRequest, approved: bool, reviewer: string): Dict {
    map["version" := Num(1), "request_id" := Str(r.id), "root_id" := Str(r.rootId),
        "approved" := Bool(approved), "reviewer" := Str(reviewer)]
  }

  const DECISION_FIELDS: set<string> := {"version", "request_id", "root_id", "approved", "reviewer"}

  function DecisionNode(rules: Rules, r: ApprovalRequest, approved: bool, reviewer: string): Node {
    rules.enc.Make(Note, Some(Slot(rules, r).id), 0,
                   Event("approval_decision", DecisionDocument(r, approved, reviewer)), None, map[])
  }

  function Binding(id: Id): Json {
    Obj(map["decision_id" := Str(id)])
  }

  /** The slot filled with the id of a decision. */
  function BindingNode(rules: Rules, r: ApprovalRequest, id: Id): Node {
    var slot := Slot(rules, r);
    rules.enc.Make(Note, slot.parent, 0, slot.payload, Some(Binding(id)), map[])
  }

  /** The stored slot holds that binding. */
  predicate Bound(rules: Rules, r: ApprovalRequest, m: Nodes, id: Id) {
    var slot := Slot(rules, r).id;
    slot in m && m[slot].result == Some(Binding(id))
  }

  /** `_validate_binding` succeeds; in a store of valid nodes `verify` only fails for a missing node. */
  predicate BindingHolds(rules: Rules, r: ApprovalRequest, m: Nodes, id: Id) {
    var expected := BindingNode(rules, r, id);
    && expected.id in m
    && SameIdentity(m[expected.id], expected)
    && m[expected.id].result.Some? && PyEq(m[expected.id].result.value, Binding(id))
  }

  lemma BindingIsExact(v: Json, id: Id)
    ensures PyEq(v, Binding(id)) <==> v == Binding(id)
  {
    var b := Binding(id);
    if v.Obj? && PyEq(v, b) {
      assert v.fields.Keys == b.fields.Keys && PyEq(v.fields["decision_id"], b.fields["decision_id"]);
      assert v.fields == b.fields;
    }
    PyEqReflexive(b);
  }

  lemma HoldsIsBound(rules: Rules, r: ApprovalRequest, m: Nodes, id: Id)
    requires WellFormed(rules.enc, m) && rules.GoodIds()
    ensures BindingHolds(rules, r, m, id) <==> Bound(rules, r, m, id)
  {
    var expected := BindingNode(rules, r, id);
    if expected.id in m {
      SameIdSameIdentity(rules.enc, m, expected);
      if m[expected.id].result.Some? { BindingIsExact(m[expected.id].result.value, id); }
    }
  }

  /** The decision id in a binding; `None` when it is malformed. */
  function ParseBinding(rules: Rules, result: Option<Json>): Option<Id> {
    match result
    case Some(Obj(fields)) =>
      if fields.Keys != {"decision_id"} then None
      else
        (match fields["decision_id"]
         case Str(id) => if rules.enc.isDigest(id) then Some(id) else None
         case _ => None)
    case _ => None
  }

  lemma ParseBindingExact(rules: Rules, result: Option<Json>, id: Id)
    requires rules.enc.isDigest(id)
    ensures ParseBinding(rules, result) == Some(id) <==> result == Some(Binding(id))
  {
    var b := Binding(id);
    assert b.fields.Keys == {"decision_id"} && b.fields["decision_id"] == Str(id);
    if ParseBinding(rules, result) == Some(id) {
      assert result.value.fields == b.fields;
    }
  }

  /** The first half of `_read_decision`: the id the slot is bound to; `None` when it raises or finds no slot. */
  function BoundId(rules: Rules, r: ApprovalRequest, m: Nodes): Option<Id> {
    var slot := Slot(rules, r);
    if slot.id !in m || !SameIdentity(m[slot.id], slot) then None else ParseBinding(rules, m[slot.id].result)
  }

  predicate DecisionFields(rules: Rules, r: ApprovalRequest, document: Dict) {
    && document.Keys == DECISION_FIELDS
    && PyEq(document["request_id"], Str(r.id)) && PyEq(document["root_id"], Str(r.rootId))
    && document["approved"].Bool?
    && document["reviewer"].Str? && rules.validName(document["reviewer"].s)
  }

  /** The second half: the decision document of a node, `None` when a check raises. */
  function DecisionOf(rules: Rules, r: ApprovalRequest, n: Node): Option<Dict> {
    match EventOf(n, "approval_decision")
    case None => None
    case Some(document) =>
      if DecisionFields(rules, r, document) && n.parent == Some(Slot(rules, r).id) then Some(document) else None
  }

  /** `_read_decision`; every exception it raises counts as an integrity error. */
  function ReadDecision(rules: Rules, r: ApprovalRequest, m: Nodes): Result<Option<Node>> {
    if Slot(rules, r).id !in m then Ok(None)
    else
      match BoundId(rules, r, m)
      case None => Err(IntegrityError)
      case Some(id) =>
        if id !in m then Ok(None)
        else if DecisionOf(rules, r, m[id]).Some? then Ok(Some(m[id]))
        else Err(IntegrityError)
  }

  lemma DocumentFields(rules: Rules, r: ApprovalRequest, approved: bool, reviewer: string)
    requires rules.validName(reviewer)
    ensures
      var document := DecisionDocument(r, approved, reviewer);
      DecisionFields(rules, r, document) && Get(document, "version") == Some(Num(1))
  {
    assert DecisionDocument(r, approved, reviewer).Keys == DECISION_FIELDS;
  }

  lemma BoundIdExact(rules: Rules, r: ApprovalRequest, m: Nodes, id: Id)
    requires WellFormed(rules.enc, m) && rules.GoodIds() && rules.enc.isDigest(id)
    ensures BoundId(rules, r, m) == Some(id) <==> Bound(rules, r, m, id)
  {
    var slot := Slot(rules, r);
    if slot.id in m {
      SameIdSameIdentity(rules.enc, m, slot);
      ParseBindingExact(rules, m[slot.id].result, id);
    }
    hide SameIdentity, ParseBinding, Binding;
  }

  /** Whatever the store holds under the id of a well-formed decision reads back as that decision. */
  lemma DecisionReadsBack(rules: Rules, r: ApprovalRequest, m: Nodes, approved: bool, reviewer: string)
    requires WellFormed(rules.enc, m) && rules.GoodIds() && rules.validName(reviewer)
    requires DecisionNode(rules, r, approved, reviewer).id in m
    ensures
      var d := DecisionNode(rules, r, approved, reviewer);
      && m[d.id].id == d.id && m[d.id].Identity() == d.Identity()
      && DecisionOf(rules, r, m[d.id]) == Some(DecisionDocument(r, approved, reviewer))
  {
    var d := DecisionNode(rules, r, approved, reviewer);
    SameIdSameIdentity(rules.enc, m, d);
    DocumentFields(rules, r, approved, reviewer);
    hide DecisionFields, DecisionDocument, SameIdentity, WellFormed, EventOf;
    EventReadsBack(m[d.id], "approval_decision", DecisionDocument(r, approved, reviewer));
  }

  lemma DecisionDigest(rules: Rules, r: ApprovalRequest, approved: bool, reviewer: string)
    requires rules.GoodIds()
    ensures rules.enc.isDigest(DecisionNode(rules, r, approved, reviewer).id)
  {
    var d := DecisionNode(rules, r, approved, reviewer);
    assert rules.enc.isDigest(rules.enc.nodeId(d.kind, d.parent, d.attempt, d.payload));
  }

  lemma EventReadsBack(n: Node, name: string, document: Dict)
    requires n.kind == Note && n.payload == Event(name, document) && Get(document, "version") == Some(Num(1))
    ensures EventOf(n, name) == Some(document)
  {
    assert n.payload[RESERVED].fields[name] == Obj(document);
  }

  // ---------------------------------------------------------------- requests in a store

  ghost function RootOf(m: Nodes, x: Id): Id
    requires IsForest(m) && x in m
    decreases Ceiling(Height(m)) - Height(m)[x]
  {
    if m[x].parent == None then x else RootOf(m, m[x].parent.value)
  }

  /** `_load_request` succeeds. */
  ghost predicate Loads(rules: Rules, m: Nodes, r: ApprovalRequest)
    requires IsForest(m)
  {
    && r.id in m
    && RootOf(m, r.id) == r.rootId
    && RequestFrom(rules, m[r.id]) == Some(r)
  }

  lemma {:induction false} RootStays(m: Nodes, m': Nodes, x: Id)
    requires IsForest(m) && IsForest(m') && Extends(m, m') && x in m
    ensures x in m' && RootOf(m', x) == RootOf(m, x)
    decreases Ceiling(Height(m)) - Height(m)[x]
  {
    if m[x].parent.Some? { RootStays(m, m', m[x].parent.value); }
  }

  /** A request that loads keeps loading while the store only grows. */
  lemma LoadsStays(rules: Rules, m: Nodes, m': Nodes, r: ApprovalRequest)
    requires IsForest(m) && IsForest(m') && Extends(m, m') && Loads(rules, m, r)
    ensures Loads(rules, m', r)
  {
    RootStays(m, m', r.id);
    RequestIgnoresMeta(rules, m[r.id], m'[r.id].meta);
  }

  lemma RequestIgnoresMeta(rules: Rules, n: Node, meta: Dict)
    ensures RequestFrom(rules, n.(meta := meta)) == RequestFrom(rules, n)
  {
    hide ValidRequest, RequestNode;
    hide REQUEST_FIELDS;
  }

  lemma BoundStays(rules: Rules, r: ApprovalRequest, m: Nodes, m': Nodes, id: Id)
    requires Extends(m, m') && Bound(rules, r, m, id)
    ensures Bound(rules, r, m', id)
  {
  }

  lemma BoundOnce(rules: Rules, r: ApprovalRequest, m: Nodes, a: Id, b: Id)
    requires Bound(rules, r, m, a) && Bound(rules, r, m, b)
    ensures a == b
  {
    assert Binding(a).fields["decision_id"] == Binding(b).fields["decision_id"];
  }
}

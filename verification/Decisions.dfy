/** Recording one approval decision in a store nobody else writes to meanwhile. */
module Decisions {
  import opened JsonValue
  import opened Forest
  import opened Store
  import opened Approvals

  /** `verify`: the loop up the ancestry. In a valid store it fails only for a missing node. */
  method Verify(store: MemoryStore, id: Id) returns (ok: bool)
    requires store.Valid()
    ensures ok <==> id in store.nodes
  {
    var current, seen := Some(id), {};
    ghost var m := store.nodes;
    ghost var height := Height(m);
    assert Intact(store.enc, m);
    while current.Some?
      invariant current.Some? ==> current == Some(id) || current.value in m
      invariant current != Some(id) ==> id in m
      invariant current.Some? && current.value in m ==>
        forall x | x in seen :: x in m && height[x] < height[current.value]
      invariant current == Some(id) && id !in m ==> seen == {}
      decreases
        if current.None? then 0
        else if current.value !in m then 1
        else Ceiling(height) - height[current.value] + 1
    {
      if current.value in seen { return false; }
      seen := seen + {current.value};
      var found := store.GetNode(current.value);
      if found.Err? { return false; }
      var node := found.value;
      if node.id != store.enc.ExpectedId(node) { return false; }
      if node.result.Some? && node.resultDigest != Some(store.enc.resultDigest(node.result.value)) { return false; }
      current := node.parent;
    }
    ok := true;
  }

  /** `_verified_root`. */
  method VerifiedRoot(store: MemoryStore, id: Id) returns (r: Option<Id>)
    requires store.Valid()
    ensures id in store.nodes ==> r == Some(RootOf(store.nodes, id))
    ensures id !in store.nodes ==> r == None
  {
    var ok := Verify(store, id);
    if !ok { return None; }
    ghost var m := store.nodes;
    ghost var height := Height(m);
    var x := id;
    while true
      invariant x in m && RootOf(m, x) == RootOf(m, id)
      decreases Ceiling(height) - height[x]
    {
      var node := store.GetNode(x);
      if node.value.parent.None? { return Some(x); }
      x := node.value.parent.value;
    }
  }

  /** `_load_request`. */
  method LoadRequest(rules: Rules, store: MemoryStore, r: ApprovalRequest) returns (ok: bool)
    requires store.Valid() && store.enc == rules.enc
    ensures ok <==> Loads(rules, store.nodes, r)
  {
    var root := VerifiedRoot(store, r.id);
    if root != Some(r.rootId) { return false; }
    hide RequestFrom;
    ok := RequestFrom(rules, store.nodes[r.id]) == Some(r);
  }

  /** `_validate_binding`. */
  method ValidateBinding(rules: Rules, store: MemoryStore, r: ApprovalRequest, id: Id) returns (ok: bool)
    requires store.Valid() && store.enc == rules.enc
    ensures ok <==> BindingHolds(rules, r, store.nodes, id)
  {
    var expected := BindingNode(rules, r, id);
    var verified := Verify(store, expected.id);
    if !verified { return false; }
    hide SameIdentity, PyEq;
    var stored := store.nodes[expected.id];
    ok := SameIdentity(stored, expected) && stored.result.Some? && PyEq(stored.result.value, Binding(id));
  }

  /** The store after a decision was recorded in full. */
  function Recorded(m: Nodes, binding: Node, decision: Node): Nodes {
    var bound := if binding.id in m then m else m[binding.id := binding];
    if decision.id in bound then bound else bound[decision.id := decision]
  }

  lemma BindingPut(rules: Rules, r: ApprovalRequest, m: Nodes, id: Id)
    requires WellFormed(rules.enc, m) && rules.GoodIds() && Loads(rules, m, r)
    requires Slot(rules, r).id !in m || Bound(rules, r, m, id)
    ensures
      var b := BindingNode(rules, r, id);
      && Put(rules.enc, m, b) == Ok(if b.id in m then m else m[b.id := b])
      && Bound(rules, r, Put(rules.enc, m, b).value, id)
  {
    hide WellFormed, Put, RequestFrom;
    var b := BindingNode(rules, r, id);
    SlotOfBinding(rules, r, id);
    PutOutcome(rules.enc, m, b);
  }

  lemma DecisionPut(rules: Rules, r: ApprovalRequest, m: Nodes, approved: bool, reviewer: string)
    requires WellFormed(rules.enc, m) && rules.GoodIds() && Slot(rules, r).id in m
    ensures
      var d := DecisionNode(rules, r, approved, reviewer);
      Put(rules.enc, m, d) == Ok(if d.id in m then m else m[d.id := d])
  {
    hide WellFormed, Put, Slot;
    PutOutcome(rules.enc, m, DecisionNode(rules, r, approved, reviewer));
  }

  lemma ReadsOwnDecision(rules: Rules, r: ApprovalRequest, m: Nodes, approved: bool, reviewer: string)
    requires WellFormed(rules.enc, m) && rules.GoodIds() && rules.validName(reviewer)
    requires Bound(rules, r, m, DecisionNode(rules, r, approved, reviewer).id)
    requires DecisionNode(rules, r, approved, reviewer).id in m
    ensures
      var d := DecisionNode(rules, r, approved, reviewer);
      ReadDecision(rules, r, m) == Ok(Some(m[d.id])) && m[d.id].id == d.id && m[d.id].Identity() == d.Identity()
  {
    hide WellFormed, DecisionNode, DecisionOf, BoundId;
    var id := DecisionNode(rules, r, approved, reviewer).id;
    DecisionDigest(rules, r, approved, reviewer);
    BoundIdExact(rules, r, m, id);
    DecisionReadsBack(rules, r, m, approved, reviewer);
  }

  /** `decide_approval`, run to its end: it succeeds exactly when the slot is free or already bound to this decision,
      completes what an interrupted call left undone, and otherwise changes nothing. */
  method DecideApproval(rules: Rules, store: MemoryStore, r: ApprovalRequest, approved: bool, reviewer: string)
    returns (res: Result<Node>)
    requires store.Valid() && store.enc == rules.enc && rules.GoodIds()
    modifies store
    ensures store.Valid()
    ensures
      var d := DecisionNode(rules, r, approved, reviewer);
      && (res.Ok? <==>
          && Loads(rules, old(store.nodes), r) && rules.validName(reviewer)
          && (Slot(rules, r).id !in old(store.nodes) || Bound(rules, r, old(store.nodes), d.id)))
      && (res.Ok? ==>
          && store.nodes == Recorded(old(store.nodes), BindingNode(rules, r, d.id), d)
          && d.id in store.nodes && res.value == store.nodes[d.id]
          && res.value.id == d.id && res.value.Identity() == d.Identity()
          && Bound(rules, r, store.nodes, d.id))
      && (res.Err? ==> store.nodes == old(store.nodes))
  {
    hide WellFormed, DecisionNode, Slot, Loads, Bound, BindingHolds, ReadDecision, Put, Indexed;
    hide rules.GoodIds;
    ghost var m := store.nodes;
    var loaded := LoadRequest(rules, store, r);
    if !loaded || !rules.validName(reviewer) { return Err(ValueError); }
    var slot, decision := Slot(rules, r), DecisionNode(rules, r, approved, reviewer);
    var binding := BindingNode(rules, r, decision.id);
    HoldsIsBound(rules, r, m, decision.id);
    SlotOfBinding(rules, r, decision.id);
    if slot.id in store.nodes {
      var holds := ValidateBinding(rules, store, r, decision.id);
      if !holds { return Err(IntegrityError); }
      if decision.id in store.nodes {
        ReadsOwnDecision(rules, r, m, approved, reviewer);
        return Ok(ReadDecision(rules, r, store.nodes).value.value);
      }
    }
    BindingPut(rules, r, m, decision.id);
    var _ := store.PutNode(binding);
    ghost var bound := store.nodes;
    HoldsIsBound(rules, r, bound, decision.id);
    var again := ValidateBinding(rules, store, r, decision.id);
    BoundSlot(rules, r, bound, decision.id);
    DecisionPut(rules, r, bound, approved, reviewer);
    PutExtends(rules.enc, bound, decision);
    BoundStays(rules, r, bound, Put(rules.enc, bound, decision).value, decision.id);
    var _ := store.PutNode(decision);
    ReadsOwnDecision(rules, r, store.nodes, approved, reviewer);
    res := Ok(ReadDecision(rules, r, store.nodes).value.value);
  }

  lemma SlotOfBinding(rules: Rules, r: ApprovalRequest, id: Id)
    ensures BindingNode(rules, r, id).id == Slot(rules, r).id
  {
  }

  lemma BoundSlot(rules: Rules, r: ApprovalRequest, m: Nodes, id: Id)
    requires Bound(rules, r, m, id)
    ensures Slot(rules, r).id in m
  {
  }
}

/** Exactly when the approval policy grants an action, read off the stored nodes. */
module ApprovalGrants {
  import opened JsonValue
  import opened Forest
  import opened Store
  import opened Approvals
  import opened ApprovalPolicy
  import opened Decisions

  // ---------------------------------------------------------------- requests and decisions, as stored

  /** A request loads exactly when a valid request is stored under its id without a result, below its root. */
  lemma LoadsExactly(rules: Rules, m: Nodes, r: ApprovalRequest)
    requires WellFormed(rules.enc, m) && rules.GoodIds()
    ensures Loads(rules, m, r) <==>
      r.id in m && m[r.id].result == None && ValidRequest(rules, r) && RootOf(m, r.id) == r.rootId
  {
    hide ValidRequest, RootOf, SameIdentity, RequestNode, ParseRequest, EventOf;
    if r.id in m {
      StoredId(rules.enc, m, r.id);
      RequestFromParts(rules, m[r.id], r);
      if ValidRequest(rules, r) && m[r.id].result == None { RequestReadsBack(rules, m, r); }
    }
  }

  lemma StoredId(enc: Encoding, m: Nodes, x: Id)
    requires WellFormed(enc, m) && x in m
    ensures m[x].id == x && enc.ValidForPut(m[x])
  {
  }

  lemma RequestFromParts(rules: Rules, n: Node, r: ApprovalRequest)
    ensures RequestFrom(rules, n) == Some(r) ==> r.id == n.id && ValidRequest(rules, r) && n.result == None
  {
    hide ValidRequest, SameIdentity, RequestNode;
  }

  /** Whatever the store holds under the id of a valid request, without a result, reads back as that request. */
  lemma RequestReadsBack(rules: Rules, m: Nodes, r: ApprovalRequest)
    requires WellFormed(rules.enc, m) && rules.GoodIds() && ValidRequest(rules, r)
    requires r.id in m && m[r.id].result == None
    ensures RequestFrom(rules, m[r.id]) == Some(r)
  {
    var n, expected := m[r.id], RequestNode(rules, r);
    RequestIdentity(rules, m, r);
    DocumentVersion(r);
    hide ValidRequest, SameIdentity, WellFormed, EventOf, Document;
    EventReadsBack(n, "approval_request", Document(r));
    ParsesBack(n, r);
  }

  lemma RequestIdentity(rules: Rules, m: Nodes, r: ApprovalRequest)
    requires WellFormed(rules.enc, m) && rules.GoodIds() && ValidRequest(rules, r) && r.id in m
    ensures
      var n := m[r.id];
      && SameIdentity(n, RequestNode(rules, r)) && n.id == r.id && n.kind == Note && n.parent == Some(r.parentId)
      && n.attempt == r.attempt && n.payload == Event("approval_request", Document(r))
  {
    hide SameIdentity, Document, Event;
    SameIdSameIdentity(rules.enc, m, RequestNode(rules, r));
  }

  lemma DocumentVersion(r: ApprovalRequest)
    ensures Get(Document(r), "version") == Some(Num(1))
  {
  }

  lemma ParsesBack(n: Node, r: ApprovalRequest)
    requires n.id == r.id && n.parent == Some(r.parentId) && n.attempt == r.attempt
    ensures ParseRequest(n, Document(r)) == Some(r)
  {
    assert Document(r).Keys + {"id", "parent_id", "attempt"} == REQUEST_FIELDS;
  }

  /** The node is a decision note on the slot of `r`: `reviewer` approved or rejected it. */
  predicate Says(rules: Rules, r: ApprovalRequest, n: Node, approved: bool, reviewer: string) {
    && n.kind == Note && n.parent == Some(Slot(rules, r).id)
    && match Get(n.payload, "_pollard")
       case Some(Obj(wrapper)) =>
         Get(wrapper, "approval_decision") ==
           Some(Obj(map["version" := Num(1), "request_id" := Str(r.id), "root_id" := Str(r.rootId),
                        "approved" := Bool(approved), "reviewer" := Str(reviewer)]))
       case _ => false
  }

  /** A node is accepted as an approving or rejecting decision exactly when it says so, for a valid reviewer name. */
  lemma DecisionOfExact(rules: Rules, r: ApprovalRequest, n: Node, approved: bool)
    ensures
      (DecisionOf(rules, r, n).Some? && Get(DecisionOf(rules, r, n).value, "approved") == Some(Bool(approved))) <==>
      exists reviewer :: rules.validName(reviewer) && Says(rules, r, n, approved, reviewer)
  {
    hide Slot, DecisionFields, DECISION_FIELDS;
    if DecisionOf(rules, r, n).Some? && Get(DecisionOf(rules, r, n).value, "approved") == Some(Bool(approved)) {
      var document := DecisionOf(rules, r, n).value;
      var reviewer := FieldsAreDocument(rules, r, document, approved);
      assert Says(rules, r, n, approved, reviewer);
    }
    if reviewer :| rules.validName(reviewer) && Says(rules, r, n, approved, reviewer) {
      DocumentFields(rules, r, approved, reviewer);
      assert EventOf(n, "approval_decision") == Some(DecisionDocument(r, approved, reviewer));
    }
  }

  lemma FieldsAreDocument(rules: Rules, r: ApprovalRequest, document: Dict, approved: bool) returns (reviewer: string)
    requires DecisionFields(rules, r, document) && Get(document, "version") == Some(Num(1))
    requires Get(document, "approved") == Some(Bool(approved))
    ensures rules.validName(reviewer) && document == DecisionDocument(r, approved, reviewer)
  {
    reviewer := document["reviewer"].s;
    assert document.Keys == DecisionDocument(r, approved, reviewer).Keys;
    TextEqual(document["request_id"], r.id);
    TextEqual(document["root_id"], r.rootId);
    forall k | k in document ensures document[k] == DecisionDocument(r, approved, reviewer)[k] {}
  }

  lemma TextEqual(v: Json, s: string)
    ensures PyEq(v, Str(s)) <==> v == Str(s)
  {
  }

  // ---------------------------------------------------------------- the nearest request

  /** The nearest request is the one carrier at or above the cursor with neither a dispatch nor another below it. */
  lemma {:induction false} NearestExactly(m: Nodes, x: Id, q: Id)
    requires IsForest(m) && x in m
    ensures Nearest(m, x) == Some(q) <==>
      && q in m && IsAncestor(m, q, x) && CarriesRequest(m[q])
      && forall y | y in m && IsAncestor(m, q, y) && IsAncestor(m, y, x) ::
           !IsDispatch(m[y]) && (y != q ==> !CarriesRequest(m[y]))
    decreases Ceiling(Height(m)) - Height(m)[x]
  {
    hide IsDispatch, CarriesRequest;
    OnlySelf(m, x);
    if !IsDispatch(m[x]) && !CarriesRequest(m[x]) && m[x].parent.Some? {
      var p := m[x].parent.value;
      NearestExactly(m, p, q);
      ParentStep(m, x, p);
    }
  }

  lemma OnlySelf(m: Nodes, x: Id)
    requires IsForest(m) && x in m
    ensures IsAncestor(m, x, x)
    ensures forall y | IsAncestor(m, x, y) && IsAncestor(m, y, x) :: y == x
  {
    forall y | IsAncestor(m, x, y) && IsAncestor(m, y, x) ensures y == x {
      AncestorIn(m, x, y);
      AncestorIn(m, y, x);
    }
  }

  lemma ParentStep(m: Nodes, x: Id, p: Id)
    requires IsForest(m) && x in m && m[x].parent == Some(p)
    ensures forall a :: IsAncestor(m, a, x) <==> a == x || IsAncestor(m, a, p)
  {
  }

  // ---------------------------------------------------------------- when an action is granted

  /** No call, and no record of a call with an unknown outcome, at or below `q`. */
  ghost predicate NothingDispatched(m: Nodes, q: Id)
    requires IsForest(m)
  {
    forall x | x in m && IsAncestor(m, q, x) ::
      && m[x].kind != ModelCall && m[x].kind != ToolCall
      && (m[x].kind == Note ==>
          && Get(m[x].payload, "event") != Some(Str("call_outcome_unknown"))
          && Get(m[x].payload, "event") != Some(Str("call_recording_failed")))
  }

  /** `q` is at or above the cursor, and no other node on the way carries a request. */
  ghost predicate ClosestRequest(m: Nodes, cursor: Id, q: Id)
    requires IsForest(m)
  {
    && cursor in m && q in m && IsAncestor(m, q, cursor)
    && forall y | y in m && y != q && IsAncestor(m, q, y) && IsAncestor(m, y, cursor) :: !CarriesRequest(m[y])
  }

  /** The request is for this action, field by field, and belongs to the cursor's root. */
  ghost predicate SameAction(m: Nodes, r: ApprovalRequest, ctx: Context)
    requires IsForest(m) && ctx.cursorId in m
  {
    && r.rootId == RootOf(m, ctx.cursorId)
    && r.name == ctx.name && r.toolVersion == ctx.version && r.specDigest == ctx.specDigest
    && ctx.registryDigest == Some(r.registryDigest)
    && r.agentIdentity == ctx.agentIdentity && r.argsDigest == ctx.argsDigest
  }

  /** The slot of `r` is bound to a stored decision by which `reviewer` approved or rejected the request. */
  ghost predicate Decided(rules: Rules, m: Nodes, r: ApprovalRequest, d: Id, approved: bool, reviewer: string) {
    && Slot(rules, r).id in m && m[Slot(rules, r).id].result == Some(Obj(map["decision_id" := Str(d)]))
    && d in m && rules.validName(reviewer) && Says(rules, r, m[d], approved, reviewer)
  }

  ghost predicate Permits(rules: Rules, m: Nodes, ctx: Context, q: Id, r: ApprovalRequest, d: Id, reviewer: string)
    requires IsForest(m) && ctx.cursorId in m
  {
    r.id == q && Loads(rules, m, r) && SameAction(m, r, ctx) && Decided(rules, m, r, d, true, reviewer)
  }

  lemma ApprovedExact(rules: Rules, m: Nodes, r: ApprovalRequest)
    requires WellFormed(rules.enc, m) && rules.GoodIds()
    ensures Approved(rules, m, r) <==> exists d, reviewer :: Decided(rules, m, r, d, true, reviewer)
  {
    hide WellFormed, BoundId, DecisionOf, Says, Slot;
    if Approved(rules, m, r) {
      var d := BoundId(rules, r, m).value;
      StoredDigest(rules, m, d);
      BoundIdExact(rules, r, m, d);
      DecisionOfExact(rules, r, m[d], true);
      ApprovedHas(rules, r, m[d]);
      var reviewer :| rules.validName(reviewer) && Says(rules, r, m[d], true, reviewer);
      assert Decided(rules, m, r, d, true, reviewer);
    }
    if d, reviewer :| Decided(rules, m, r, d, true, reviewer) {
      StoredDigest(rules, m, d);
      BoundIdExact(rules, r, m, d);
      DecisionOfExact(rules, r, m[d], true);
    }
  }

  lemma ApprovedHas(rules: Rules, r: ApprovalRequest, n: Node)
    ensures DecisionOf(rules, r, n).Some? ==> "approved" in DecisionOf(rules, r, n).value
  {
  }

  lemma StoredDigest(rules: Rules, m: Nodes, x: Id)
    requires WellFormed(rules.enc, m) && rules.GoodIds() && x in m
    ensures rules.enc.isDigest(x)
  {
    var n := m[x];
    assert rules.enc.isDigest(rules.enc.nodeId(n.kind, n.parent, n.attempt, n.payload));
  }

  lemma {:induction false} SameRoot(m: Nodes, a: Id, x: Id)
    requires IsForest(m) && x in m && IsAncestor(m, a, x)
    ensures a in m && RootOf(m, a) == RootOf(m, x)
    decreases Ceiling(Height(m)) - Height(m)[x]
  {
    if a != x { SameRoot(m, a, m[x].parent.value); }
  }

  lemma CarriesLoaded(rules: Rules, n: Node)
    ensures RequestFrom(rules, n).Some? ==> CarriesRequest(n)
  {
    hide ParseRequest, ValidRequest, SameIdentity;
  }

  /** An action that needs an approval is granted exactly when the closest request above the cursor loads, is for this
      action, was approved, and has no dispatch below it. */
  lemma GrantsExactly(rules: Rules, sideEffectsOnly: bool, m: Nodes, ctx: Context, q: Id)
    requires WellFormed(rules.enc, m) && rules.GoodIds()
    ensures Decide(rules, sideEffectsOnly, m, ctx) == Ok(Verdict.Granted(q)) <==>
      && (sideEffectsOnly ==> ctx.sideEffects)
      && ClosestRequest(m, ctx.cursorId, q) && NothingDispatched(m, q)
      && exists r, d, reviewer :: Permits(rules, m, ctx, q, r, d, reviewer)
  {
    hide WellFormed, IsForest, RequestFrom, Approved, Decided, RootOf, Nearest, CarriesRequest, ReadDecision;
    WellFormedIsForest(rules.enc, m);
    if ctx.cursorId in m {
      NearestExactly(m, ctx.cursorId, q);
      DispatchedExactly(m, q);
      if Decide(rules, sideEffectsOnly, m, ctx) == Ok(Verdict.Granted(q)) {
        NearestAbove(m, ctx.cursorId);
        var r := RequestFrom(rules, m[q]).value;
        LoadedId(rules, m, r);
        RequestFromParts(rules, m[q], r);
        StoredId(rules.enc, m, q);
        ApprovedExact(rules, m, r);
        var d, reviewer :| Decided(rules, m, r, d, true, reviewer);
        assert Permits(rules, m, ctx, q, r, d, reviewer);
      }
      if ClosestRequest(m, ctx.cursorId, q) && NothingDispatched(m, q) {
        if r, d, reviewer :| Permits(rules, m, ctx, q, r, d, reviewer) {
          LoadedId(rules, m, r);
          CarriesLoaded(rules, m[q]);
          NoDispatchBetween(m, ctx.cursorId, q);
          ApprovedExact(rules, m, r);
          ApprovedReads(rules, m, r);
        }
      }
    }
  }

  lemma LoadedId(rules: Rules, m: Nodes, r: ApprovalRequest)
    requires IsForest(m)
    ensures Loads(rules, m, r) ==> r.id in m && RequestFrom(rules, m[r.id]) == Some(r)
  {
  }

  lemma ApprovedReads(rules: Rules, m: Nodes, r: ApprovalRequest)
    ensures Approved(rules, m, r) ==> ReadDecision(rules, r, m).Ok?
  {
    hide ReadDecision;
  }

  lemma DispatchedExactly(m: Nodes, q: Id)
    requires IsForest(m)
    ensures NothingDispatched(m, q) <==> !Exhausted(m, q)
  {
    hide IsForest, IsAncestor;
  }

  lemma NoDispatchBetween(m: Nodes, x: Id, q: Id)
    requires IsForest(m) && NothingDispatched(m, q)
    ensures forall y | y in m && IsAncestor(m, q, y) :: !IsDispatch(m[y])
  {
    hide IsForest, IsAncestor;
  }

  // ---------------------------------------------------------------- after a decision was recorded

  lemma DecidedOnce(rules: Rules, m: Nodes, r: ApprovalRequest, r': ApprovalRequest, approved: bool, reviewer: string,
      d: Id, reviewer': string)
    requires WellFormed(rules.enc, m) && rules.GoodIds() && r.id == r'.id
    requires Bound(rules, r, m, DecisionNode(rules, r, approved, reviewer).id)
    requires DecisionNode(rules, r, approved, reviewer).id in m && Decided(rules, m, r', d, true, reviewer')
    ensures approved
  {
    hide WellFormed, Slot, DecisionNode;
    SameSlot(rules, r, r');
    BoundOnce(rules, r, m, DecisionNode(rules, r, approved, reviewer).id, d);
    StoredSays(rules, m, r, approved, reviewer);
    var document := m[d].payload["_pollard"].fields["approval_decision"].fields;
    assert document["approved"] == Bool(approved) && document["approved"] == Bool(true);
  }

  lemma SameSlot(rules: Rules, r: ApprovalRequest, r': ApprovalRequest)
    requires r.id == r'.id
    ensures Slot(rules, r) == Slot(rules, r')
  {
  }

  /** A request bound to a stored rejection never grants an action again, however the store grows. */
  lemma RejectedNeverGrants(rules: Rules, sideEffectsOnly: bool, m: Nodes, m': Nodes, r: ApprovalRequest,
      reviewer: string, ctx: Context)
    requires WellFormed(rules.enc, m) && WellFormed(rules.enc, m') && rules.GoodIds() && Extends(m, m')
    requires
      var d := DecisionNode(rules, r, false, reviewer).id;
      d in m && Bound(rules, r, m, d)
    ensures Decide(rules, sideEffectsOnly, m', ctx) != Ok(Verdict.Granted(r.id))
  {
    hide WellFormed, Decide, DecisionNode, Bound, Decided, Extends, Loads, SameAction, ClosestRequest,
      NothingDispatched;
    GrantsExactly(rules, sideEffectsOnly, m', ctx, r.id);
    var d := DecisionNode(rules, r, false, reviewer).id;
    BoundStays(rules, r, m, m', d);
    StaysIn(m, m', d);
    WellFormedIsForest(rules.enc, m');
    ClosestIn(m', ctx.cursorId, r.id);
    if ctx.cursorId in m' {
      if r', d', reviewer' :| Permits(rules, m', ctx, r.id, r', d', reviewer') {
        DecidedOnce(rules, m', r, r', false, reviewer, d', reviewer');
      }
    }
  }

  lemma StaysIn(m: Nodes, m': Nodes, x: Id)
    requires Extends(m, m') && x in m
    ensures x in m'
  {
  }

  lemma ClosestIn(m: Nodes, cursor: Id, q: Id)
    requires IsForest(m)
    ensures ClosestRequest(m, cursor, q) ==> cursor in m && q in m
  {
  }

  /** A request bound to a stored approval grants the action it names, until something is dispatched below it. */
  lemma ApprovedGrants(rules: Rules, sideEffectsOnly: bool, m: Nodes, r: ApprovalRequest, reviewer: string,
      ctx: Context)
    requires WellFormed(rules.enc, m) && rules.GoodIds() && rules.validName(reviewer)
    requires
      var d := DecisionNode(rules, r, true, reviewer).id;
      d in m && Bound(rules, r, m, d)
    requires (sideEffectsOnly ==> ctx.sideEffects) && ClosestRequest(m, ctx.cursorId, r.id)
    requires Loads(rules, m, r) && SameAction(m, r, ctx) && NothingDispatched(m, r.id)
    ensures Decide(rules, sideEffectsOnly, m, ctx) == Ok(Verdict.Granted(r.id))
  {
    hide WellFormed, IsForest, Decide, Loads, SameAction, ClosestRequest, NothingDispatched, Slot, Says, DecisionNode;
    var d := DecisionNode(rules, r, true, reviewer).id;
    WellFormedIsForest(rules.enc, m);
    ClosestIn(m, ctx.cursorId, r.id);
    StoredSays(rules, m, r, true, reviewer);
    assert Permits(rules, m, ctx, r.id, r, d, reviewer);
    GrantsExactly(rules, sideEffectsOnly, m, ctx, r.id);
  }

  lemma StoredSays(rules: Rules, m: Nodes, r: ApprovalRequest, approved: bool, reviewer: string)
    requires WellFormed(rules.enc, m) && rules.GoodIds() && DecisionNode(rules, r, approved, reviewer).id in m
    ensures Says(rules, r, m[DecisionNode(rules, r, approved, reviewer).id], approved, reviewer)
  {
    hide WellFormed, Slot, SameIdentity;
    SameIdSameIdentity(rules.enc, m, DecisionNode(rules, r, approved, reviewer));
  }

  /** A reviewer decides, and the policy is asked about an action on that request: after a rejection it denies, after
      an approval it allows the action the request names unless something was dispatched below it. */
  method DecideThenAsk(rules: Rules, sideEffectsOnly: bool, store: MemoryStore, r: ApprovalRequest, approved: bool,
      reviewer: string, ctx: Context) returns (decided: Result<Node>, answer: Result<Decision>)
    requires store.Valid() && store.enc == rules.enc && rules.GoodIds()
    requires ctx.cursorId in store.nodes && (sideEffectsOnly ==> ctx.sideEffects)
    modifies store
    ensures store.Valid() && IsForest(store.nodes) && ctx.cursorId in store.nodes
    ensures decided.Ok? && ClosestRequest(store.nodes, ctx.cursorId, r.id) && CarriesRequest(store.nodes[r.id]) ==>
      && (!approved ==> answer != Ok(Allow))
      && (approved && SameAction(store.nodes, r, ctx) && NothingDispatched(store.nodes, r.id) ==> answer == Ok(Allow))
  {
    hide WellFormed, IsForest, Decide, DecisionNode, Bound, Loads, SameAction, ClosestRequest, NothingDispatched, Slot;
    hide Indexed, Recorded, Extends;
    ghost var m := store.nodes;
    ValidIsForest(store);
    decided := DecideApproval(rules, store, r, approved, reviewer);
    ValidIsForest(store);
    if decided.Ok? {
      RecordedExtends(m, BindingNode(rules, r, DecisionNode(rules, r, approved, reviewer).id),
                      DecisionNode(rules, r, approved, reviewer));
      LoadsStays(rules, m, store.nodes, r);
      StaysIn(m, store.nodes, ctx.cursorId);
      answer := DecideAction(rules, sideEffectsOnly, store, ctx);
      AnswerOf(rules, sideEffectsOnly, store.nodes, r, approved, reviewer, ctx);
    } else {
      answer := DecideAction(rules, sideEffectsOnly, store, ctx);
    }
  }

  lemma RecordedExtends(m: Nodes, binding: Node, decision: Node)
    ensures Extends(m, Recorded(m, binding, decision))
  {
  }

  lemma AnswerOf(rules: Rules, sideEffectsOnly: bool, m: Nodes, r: ApprovalRequest, approved: bool, reviewer: string,
      ctx: Context)
    requires WellFormed(rules.enc, m) && IsForest(m) && rules.GoodIds() && rules.validName(reviewer)
    requires Loads(rules, m, r) && ctx.cursorId in m && (sideEffectsOnly ==> ctx.sideEffects)
    requires
      var d := DecisionNode(rules, r, approved, reviewer).id;
      d in m && Bound(rules, r, m, d)
    ensures
      var verdict := Decide(rules, sideEffectsOnly, m, ctx);
      ClosestRequest(m, ctx.cursorId, r.id) && CarriesRequest(m[r.id]) ==>
        && (!approved ==> verdict.Err? || verdict.value == Denied)
        && (approved && SameAction(m, r, ctx) && NothingDispatched(m, r.id) ==> verdict == Ok(Verdict.Granted(r.id)))
  {
    hide WellFormed, IsForest, DecisionNode, Bound, Loads, SameAction, NothingDispatched, Slot, ClosestRequest;
    hide Matches, RequestFrom, ReadDecision, Approved, Exhausted, Nearest, CarriesRequest;
    ClosestIn(m, ctx.cursorId, r.id);
    if ClosestRequest(m, ctx.cursorId, r.id) && CarriesRequest(m[r.id]) {
      ClosestIsNearest(m, ctx.cursorId, r.id);
      if approved {
        if SameAction(m, r, ctx) && NothingDispatched(m, r.id) {
          ApprovedGrants(rules, sideEffectsOnly, m, r, reviewer, ctx);
        }
      } else {
        ExtendsAll(m);
        RejectedNeverGrants(rules, sideEffectsOnly, m, m, r, reviewer, ctx);
      }
    }
  }

  lemma ExtendsAll(m: Nodes)
    ensures Extends(m, m)
  {
  }

  lemma ClosestIsNearest(m: Nodes, x: Id, q: Id)
    requires IsForest(m) && ClosestRequest(m, x, q) && CarriesRequest(m[q])
    ensures Nearest(m, x) == None || Nearest(m, x) == Some(q)
  {
    hide IsForest, CarriesRequest, IsDispatch, Nearest;
    if Nearest(m, x).Some? {
      var p := Nearest(m, x).value;
      NearestExactly(m, x, p);
      AncestorsComparable(m, p, q, x);
    }
  }
}

/** The policy that lets one governed action through per approved request. */
module ApprovalPolicy {
  import opened JsonValue
  import opened Forest
  import opened Store
  import opened Approvals
  import opened Decisions

  /** The action about to run; `argsDigest` is the digest of its redacted arguments. */
  datatype Context = Context(
    cursorId: Id,
    name: string,
    version: string,
    specDigest: Digest,
    registryDigest: Option<Digest>,
    argsDigest: Digest,
    agentIdentity: Json,
    sideEffects: bool)

  datatype Decision = Allow | Deny

  /** A decision, with the request it rests on. */
  datatype Verdict = Exempt | Granted(request: Id) | Denied

  function DecisionOfVerdict(v: Verdict): Decision {
    if v == Denied then Deny else Allow
  }

  /** `_is_dispatch`: a call, or the record of one whose outcome is unknown. */
  predicate IsDispatch(n: Node) {
    || n.kind == ModelCall || n.kind == ToolCall
    || (n.kind == Note &&
        (Get(n.payload, "event") == Some(Str("call_outcome_unknown")) ||
         Get(n.payload, "event") == Some(Str("call_recording_failed"))))
  }

  /** The node carries a request entry, well formed or not. */
  predicate CarriesRequest(n: Node) {
    match Get(n.payload, RESERVED)
    case Some(Obj(wrapper)) => "approval_request" in wrapper
    case _ => false
  }

  /** The nearest request at or above `x` with no dispatch on the way. */
  ghost function Nearest(m: Nodes, x: Id): Option<Id>
    requires IsForest(m) && x in m
    decreases Ceiling(Height(m)) - Height(m)[x]
  {
    if IsDispatch(m[x]) then None
    else if CarriesRequest(m[x]) then Some(x)
    else if m[x].parent == None then None
    else Nearest(m, m[x].parent.value)
  }

  predicate Matches(r: ApprovalRequest, root: Id, ctx: Context) {
    && r.rootId == root
    && r.name == ctx.name && r.toolVersion == ctx.version
    && r.specDigest == ctx.specDigest && Some(r.registryDigest) == ctx.registryDigest
    && r.agentIdentity == ctx.agentIdentity && r.argsDigest == ctx.argsDigest
  }

  /** A governed call, or its unknown outcome, is recorded at or below `q`. */
  ghost predicate Exhausted(m: Nodes, q: Id)
    requires IsForest(m)
  {
    exists x | x in m && IsAncestor(m, q, x) :: IsDispatch(m[x])
  }

  ghost predicate Approved(rules: Rules, m: Nodes, r: ApprovalRequest) {
    match ReadDecision(rules, r, m)
    case Ok(Some(n)) => DecisionOf(rules, r, n).Some? && DecisionOf(rules, r, n).value["approved"] == Bool(true)
    case _ => false
  }

  /** What `decide` answers; `Err` where it raises. */
  ghost function Decide(rules: Rules, sideEffectsOnly: bool, m: Nodes, ctx: Context): Result<Verdict>
    requires IsForest(m)
  {
    if sideEffectsOnly && !ctx.sideEffects then Ok(Exempt)
    else if ctx.cursorId !in m then Err(IntegrityError)
    else
      match Nearest(m, ctx.cursorId)
      case None => Ok(Denied)
      case Some(q) =>
        NearestAbove(m, ctx.cursorId);
        match RequestFrom(rules, m[q])
        case None => Err(IntegrityError)
        case Some(r) =>
          if !Matches(r, RootOf(m, ctx.cursorId), ctx) then Ok(Denied)
          else if !Loads(rules, m, r) || ReadDecision(rules, r, m).Err? then Err(IntegrityError)
          else if !Approved(rules, m, r) || Exhausted(m, q) then Ok(Denied)
          else Ok(Granted(q))
  }

  lemma {:induction false} NearestAbove(m: Nodes, x: Id)
    requires IsForest(m) && x in m
    ensures Nearest(m, x).Some? ==> Nearest(m, x).value in m && IsAncestor(m, Nearest(m, x).value, x)
    decreases Ceiling(Height(m)) - Height(m)[x]
  {
    if !IsDispatch(m[x]) && !CarriesRequest(m[x]) && m[x].parent.Some? {
      NearestAbove(m, m[x].parent.value);
    }
  }

  // ---------------------------------------------------------------- the loops

  /** The walk up from the cursor. */
  method FindRequest(store: MemoryStore, cursorId: Id) returns (r: Option<Id>)
    requires store.Valid() && cursorId in store.nodes
    ensures r == Nearest(store.nodes, cursorId)
  {
    ghost var m := store.nodes;
    ghost var height := Height(m);
    var current := cursorId;
    while true
      invariant current in m && Nearest(m, current) == Nearest(m, cursorId)
      decreases Ceiling(height) - height[current]
    {
      var found := store.GetNode(current);
      var node := found.value;
      if IsDispatch(node) { return None; }
      if CarriesRequest(node) { return Some(current); }
      if node.parent.None? { return None; }
      current := node.parent.value;
    }
  }

  /** Half-way through the walk below a request: what was seen holds no dispatch, the rest lies below the stack. */
  ghost predicate Searching(m: Nodes, q: Id, seen: set<Id>, pending: seq<Id>)
    requires IsForest(m)
  {
    && (forall p | p in pending :: p in m && IsAncestor(m, q, p))
    && Apart(m, pending)
    && (forall x | x in m && IsAncestor(m, q, x) :: x in seen || exists p | p in pending :: IsAncestor(m, p, x))
    && (forall s | s in seen :: s in m && IsAncestor(m, q, s) && !IsDispatch(m[s]))
    && (forall s, p | s in seen && p in pending :: !IsAncestor(m, p, s))
  }

  lemma SearchStart(m: Nodes, q: Id)
    requires IsForest(m) && q in m
    ensures Searching(m, q, {}, [q])
  {
    assert q in [q];
  }

  lemma SearchFresh(m: Nodes, q: Id, seen: set<Id>, pending: seq<Id>)
    requires IsForest(m) && Searching(m, q, seen, pending) && pending != []
    ensures
      var top := pending[|pending| - 1];
      top in m && top !in seen && IsAncestor(m, q, top)
  {
    assert pending[|pending| - 1] in pending;
  }

  lemma SearchStep(m: Nodes, q: Id, seen: set<Id>, pending: seq<Id>)
    requires IsForest(m) && q in m && Searching(m, q, seen, pending) && pending != []
    requires !IsDispatch(m[pending[|pending| - 1]])
    ensures
      var top := pending[|pending| - 1];
      Searching(m, q, seen + {top}, pending[..|pending| - 1] + Children(m, top))
  {
    hide IsForest, Children, IsDispatch;
    var top, below := pending[|pending| - 1], pending[..|pending| - 1];
    var kids := Children(m, top);
    var next := below + kids;
    SearchFresh(m, q, seen, pending);
    assert forall p | p in below :: p in pending;
    forall c | c in kids ensures IsChild(m, top, c) && c in m && IsAncestor(m, top, c) && IsAncestor(m, q, c) {
      AncestorTransitive(m, q, top, c);
    }
    SearchApart(m, pending);
    forall x | x in m && IsAncestor(m, q, x) ensures x in seen + {top} || exists p | p in next :: IsAncestor(m, p, x) {
      SearchCovers(m, pending, x);
      assert forall p | p in below || p in kids :: p in next;
    }
    forall s, p | s in seen + {top} && p in next ensures !IsAncestor(m, p, s) {
      SearchBelow(m, pending, s, p);
    }
  }

  lemma SearchCovers(m: Nodes, pending: seq<Id>, x: Id)
    requires IsForest(m) && pending != [] && pending[|pending| - 1] in m
    ensures
      var top, below := pending[|pending| - 1], pending[..|pending| - 1];
      (exists p | p in pending :: IsAncestor(m, p, x)) ==>
        || x == top
        || (exists p | p in below :: IsAncestor(m, p, x))
        || exists c | c in Children(m, top) :: IsAncestor(m, c, x)
  {
    var top, below := pending[|pending| - 1], pending[..|pending| - 1];
    SubtreeStep(m, top, x);
    assert forall p | p in pending :: p in below || p == top;
  }

  /** Nothing on the new stack lies above the popped node, nor above anything the popped node was not above. */
  lemma SearchBelow(m: Nodes, pending: seq<Id>, s: Id, p: Id)
    requires IsForest(m) && pending != [] && Apart(m, pending) && s in m
    requires forall a | a in pending :: a in m
    requires s == pending[|pending| - 1] || forall a | a in pending :: !IsAncestor(m, a, s)
    requires p in pending[..|pending| - 1] + Children(m, pending[|pending| - 1])
    ensures !IsAncestor(m, p, s)
  {
    hide IsForest, Children;
    var top, below := pending[|pending| - 1], pending[..|pending| - 1];
    assert top in pending;
    if p in below {
      var i :| 0 <= i < |below| && below[i] == p;
      assert p == pending[i] && p in pending;
      assert !IsAncestor(m, pending[i], pending[|pending| - 1]);
    } else {
      assert p in Children(m, top);
      ChildStrictlyBelow(m, top, p);
      if IsAncestor(m, p, s) { AncestorTransitive(m, top, p, s); }
    }
  }

  lemma ChildStrictlyBelow(m: Nodes, p: Id, c: Id)
    requires IsForest(m) && p in m && c in Children(m, p)
    ensures IsAncestor(m, p, c) && !IsAncestor(m, c, p)
  {
    assert IsChild(m, p, c);
    if IsAncestor(m, c, p) {
      AncestorIn(m, c, p);
    }
  }

  lemma SearchApart(m: Nodes, pending: seq<Id>)
    requires IsForest(m) && pending != [] && Apart(m, pending) && forall p | p in pending :: p in m
    ensures Apart(m, pending[..|pending| - 1] + Children(m, pending[|pending| - 1]))
  {
    hide IsForest, Children;
    var top, below := pending[|pending| - 1], pending[..|pending| - 1];
    var kids := Children(m, top);
    var next := below + kids;
    ChildrenApart(m, top);
    forall i, j | 0 <= i < |next| && 0 <= j < |next| && i != j ensures !IsAncestor(m, next[i], next[j]) {
      if i < |below| && j < |below| {
        assert !IsAncestor(m, pending[i], pending[j]);
      } else if i >= |below| && j >= |below| {
        assert !IsAncestor(m, kids[i - |below|], kids[j - |below|]);
      } else if i < |below| {
        KidApart(m, pending, i, kids[j - |below|]);
      } else {
        KidApart(m, pending, j, kids[i - |below|]);
      }
    }
  }

  lemma KidApart(m: Nodes, pending: seq<Id>, i: nat, c: Id)
    requires IsForest(m) && Apart(m, pending) && i < |pending| - 1 && forall p | p in pending :: p in m
    requires c in Children(m, pending[|pending| - 1])
    ensures !IsAncestor(m, pending[i], c) && !IsAncestor(m, c, pending[i])
  {
    hide IsForest, Children;
    var top := pending[|pending| - 1];
    assert top in pending && pending[i] in pending;
    ChildStrictlyBelow(m, top, c);
    var p := pending[i];
    if IsAncestor(m, p, c) { AncestorsComparable(m, p, top, c); }
    if IsAncestor(m, c, p) { AncestorTransitive(m, top, c, p); }
  }

  lemma SearchEnd(m: Nodes, q: Id, seen: set<Id>)
    requires IsForest(m) && Searching(m, q, seen, [])
    ensures !Exhausted(m, q)
  {
  }

  lemma SearchFound(m: Nodes, q: Id, x: Id)
    requires IsForest(m) && x in m && IsAncestor(m, q, x) && IsDispatch(m[x])
    ensures Exhausted(m, q)
  {
  }

  /** The explicit-stack search below the request; in a forest it never meets a node twice. */
  method FindDispatch(store: MemoryStore, q: Id) returns (r: Result<bool>)
    requires store.Valid() && q in store.nodes
    ensures r == Ok(Exhausted(store.nodes, q))
  {
    hide *;
    ghost var m := store.nodes;
    var pending, seen := [q], {};
    ValidIsForest(store);
    SearchStart(m, q);
    while pending != []
      invariant IsForest(m) && Searching(m, q, seen, pending) && seen <= m.Keys
      decreases |m.Keys - seen|
    {
      SearchFresh(m, q, seen, pending);
      var id := pending[|pending| - 1];
      if id in seen { return Err(IntegrityError); }
      Shrinks(m.Keys, seen, id);
      var ok := Verify(store, id);
      if !ok { return Err(IntegrityError); }
      if IsDispatch(store.nodes[id]) {
        SearchFound(m, q, id);
        return Ok(true);
      }
      SearchStep(m, q, seen, pending);
      seen := seen + {id};
      var kids := store.ChildrenOf(id);
      pending := pending[..|pending| - 1] + kids;
    }
    SearchEnd(m, q, seen);
    r := Ok(false);
  }

  lemma Shrinks<T(!new)>(all: set<T>, seen: set<T>, x: T)
    requires x in all && x !in seen
    ensures |all - (seen + {x})| < |all - seen|
  {
    assert all - (seen + {x}) == (all - seen) - {x};
  }

  /** `ApprovalPolicy.decide`. */
  method DecideAction(rules: Rules, sideEffectsOnly: bool, store: MemoryStore,
      ctx: Context) returns (r: Result<Decision>)
    requires store.Valid() && store.enc == rules.enc
    ensures r == match Decide(rules, sideEffectsOnly, store.nodes, ctx)
      case Ok(v) => Ok(DecisionOfVerdict(v))
      case Err(e) => Err(e)
  {
    hide Loads, RequestFrom, ReadDecision, Nearest, RootOf, Matches, Exhausted, IsAncestor, DecisionOf;
    if sideEffectsOnly && !ctx.sideEffects { return Ok(Allow); }
    var root := VerifiedRoot(store, ctx.cursorId);
    if root == None { return Err(IntegrityError); }
    var q := FindRequest(store, ctx.cursorId);
    if q == None { return Ok(Deny); }
    NearestAbove(store.nodes, ctx.cursorId);
    var request := RequestFrom(rules, store.nodes[q.value]);
    if request == None { return Err(IntegrityError); }
    if !Matches(request.value, root.value, ctx) { return Ok(Deny); }
    var loaded := LoadRequest(rules, store, request.value);
    var decision := ReadDecision(rules, request.value, store.nodes);
    if !loaded || decision.Err? { return Err(IntegrityError); }
    if decision.value == None { return Ok(Deny); }
    DecisionRead(rules, request.value, store.nodes);
    if DecisionOf(rules, request.value, decision.value.value).value["approved"] != Bool(true) { return Ok(Deny); }
    var used := FindDispatch(store, q.value);
    if used.value { return Ok(Deny); }
    r := Ok(Allow);
  }

  lemma DecisionRead(rules: Rules, r: ApprovalRequest, m: Nodes)
    ensures match ReadDecision(rules, r, m)
      case Ok(Some(n)) => DecisionOf(rules, r, n).Some? && "approved" in DecisionOf(rules, r, n).value
      case _ => true
  {
    hide BoundId;
  }

  // ---------------------------------------------------------------- single use

  lemma ExhaustedStays(m: Nodes, m': Nodes, q: Id)
    requires IsForest(m) && IsForest(m') && Extends(m, m') && Exhausted(m, q)
    ensures Exhausted(m', q)
  {
    var x :| x in m && IsAncestor(m, q, x) && IsDispatch(m[x]);
    AncestorSame(m, m', q, x);
    assert m'[x] == m[x].(meta := m'[x].meta);
  }

  /** A dispatch recorded anywhere below a request exhausts it for good, wherever the cursor moves. */
  lemma ExhaustedNeverGrants(
    rules: Rules, sideEffectsOnly: bool, m: Nodes, m': Nodes, q: Id, ctx: Context)
    requires IsForest(m) && IsForest(m') && Extends(m, m') && Exhausted(m, q)
    ensures Decide(rules, sideEffectsOnly, m', ctx) != Ok(Granted(q))
  {
    hide Loads, RequestFrom, ReadDecision, Nearest, RootOf, Matches, Exhausted, DecisionOf, IsForest;
    ExhaustedStays(m, m', q);
  }

  /** An action is granted only below its request. */
  lemma GrantedBelow(rules: Rules, sideEffectsOnly: bool, m: Nodes, ctx: Context, q: Id)
    requires IsForest(m) && Decide(rules, sideEffectsOnly, m, ctx) == Ok(Granted(q))
    ensures ctx.cursorId in m && IsAncestor(m, q, ctx.cursorId) && !Exhausted(m, q)
  {
    hide Loads, RequestFrom, ReadDecision, Nearest, RootOf, Matches, Exhausted, DecisionOf, IsForest;
    if ctx.cursorId in m { NearestAbove(m, ctx.cursorId); }
  }

  lemma DispatchByIdentity(a: Node, b: Node)
    requires SameIdentity(a, b)
    ensures IsDispatch(a) == IsDispatch(b)
  {
    if "event" in a.payload { assert PyEq(a.payload["event"], b.payload["event"]); }
  }
}

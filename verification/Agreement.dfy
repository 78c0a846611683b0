/** Concurrent reviewers: every interleaving of the store steps of `decide_approval` on one request. */
module Agreement {
  import opened JsonValue
  import opened Forest
  import opened ForestChange
  import opened Store
  import opened Approvals

  /** Where a call stands: the next store operation it performs. */
  datatype Stage =
    | Loading
    | CheckingSlot
    | ValidatingFirst
    | CheckingDecision
    | PuttingBinding
    | ValidatingAgain
    | PuttingDecision
    | ReadingSlot
    | ReadingDecision(id: Id)
    | Returned(decision: Node)
    | Raised

  datatype Call = Call(approved: bool, reviewer: string, stage: Stage)

  /** The shared store and the calls made so far; a call that stops is one that is never advanced again. */
  datatype System = System(nodes: Nodes, calls: map<nat, Call>)

  datatype Action =
    | Begin(call: nat, approved: bool, reviewer: string)
    | Advance(call: nat)
    | ForeignPut(node: Node)
    | ForeignMeta(id: Id, patch: Dict)

  function DecisionFor(rules: Rules, r: ApprovalRequest, c: Call): Node {
    DecisionNode(rules, r, c.approved, c.reviewer)
  }

  /** One store operation of one call. */
  ghost function Work(rules: Rules, r: ApprovalRequest, m: Nodes, c: Call): (Nodes, Stage)
    requires IsForest(m)
  {
    var d := DecisionFor(rules, r, c);
    match c.stage
    case Loading => (m, if Loads(rules, m, r) && rules.validName(c.reviewer) then CheckingSlot else Raised)
    case CheckingSlot => (m, if Slot(rules, r).id in m then ValidatingFirst else PuttingBinding)
    case ValidatingFirst => (m, if BindingHolds(rules, r, m, d.id) then CheckingDecision else Raised)
    case CheckingDecision => (m, if d.id in m then ReadingSlot else PuttingBinding)
    case PuttingBinding => Write(rules, m, BindingNode(rules, r, d.id), ValidatingAgain)
    case ValidatingAgain => (m, if BindingHolds(rules, r, m, d.id) then PuttingDecision else Raised)
    case PuttingDecision => Write(rules, m, d, ReadingSlot)
    case ReadingSlot =>
      (m, match BoundId(rules, r, m) case Some(id) => ReadingDecision(id) case None => Raised)
    case ReadingDecision(id) =>
      (m, if id in m && DecisionOf(rules, r, m[id]).Some? then Returned(m[id]) else Raised)
    case _ => (m, c.stage)
  }

  function Write(rules: Rules, m: Nodes, n: Node, next: Stage): (Nodes, Stage) {
    match Put(rules.enc, m, n) case Ok(m') => (m', next) case Err(_) => (m, Raised)
  }

  ghost function Act(rules: Rules, r: ApprovalRequest, s: System, action: Action): System
    requires IsForest(s.nodes)
  {
    match action
    case Begin(p, approved, reviewer) =>
      if p in s.calls then s else s.(calls := s.calls[p := Call(approved, reviewer, Loading)])
    case Advance(p) =>
      if p !in s.calls then s
      else
        var w := Work(rules, r, s.nodes, s.calls[p]);
        System(w.0, s.calls[p := s.calls[p].(stage := w.1)])
    case ForeignPut(n) => s.(nodes := Write(rules, s.nodes, n, Raised).0)
    case ForeignMeta(x, patch) =>
      if x in s.nodes then s.(nodes := s.nodes[x := s.nodes[x].(meta := s.nodes[x].meta + patch)]) else s
  }

  // ---------------------------------------------------------------- what every step keeps

  lemma WriteGrows(rules: Rules, m: Nodes, n: Node, next: Stage)
    requires WellFormed(rules.enc, m)
    ensures WellFormed(rules.enc, Write(rules, m, n, next).0) && Extends(m, Write(rules, m, n, next).0)
    ensures IsForest(Write(rules, m, n, next).0)
  {
    if Put(rules.enc, m, n).Ok? {
      PutWellFormed(rules.enc, m, n);
      PutExtends(rules.enc, m, n);
    }
  }

  lemma WriteForest(rules: Rules, r: ApprovalRequest, m: Nodes, c: Call)
    requires WellFormed(rules.enc, m)
    ensures IsForest(m) && IsForest(Work(rules, r, m, c).0)
    ensures WellFormed(rules.enc, Work(rules, r, m, c).0) && Extends(m, Work(rules, r, m, c).0)
  {
    hide IsForest, WellFormed, Slot, DecisionNode, DecisionFor, Loads, BindingHolds, BoundId, DecisionOf;
    hide Put, Write, BindingNode, Extends;
    var d := DecisionFor(rules, r, c);
    WellFormedIsForest(rules.enc, m);
    ExtendsSelf(m);
    WriteGrows(rules, m, BindingNode(rules, r, d.id), ValidatingAgain);
    WriteGrows(rules, m, d, ReadingSlot);
  }

  lemma ExtendsSelf(m: Nodes)
    ensures Extends(m, m)
  {
  }

  /** The store stays well formed and never loses an identity or a result. */
  lemma ActGrows(rules: Rules, r: ApprovalRequest, s: System, action: Action)
    requires WellFormed(rules.enc, s.nodes)
    ensures WellFormed(rules.enc, Act(rules, r, s, action).nodes)
    ensures Extends(s.nodes, Act(rules, r, s, action).nodes) && IsForest(Act(rules, r, s, action).nodes)
  {
    hide Work, Put;
    match action
    case Begin(_, _, _) =>
    case Advance(p) =>
      if p in s.calls { WriteForest(rules, r, s.nodes, s.calls[p]); }
    case ForeignPut(n) => WriteGrows(rules, s.nodes, n, Raised);
    case ForeignMeta(x, patch) =>
      if x in s.nodes { SameShapeForest(s.nodes, Act(rules, r, s, action).nodes); }
  }

  predicate ReadingBack(stage: Stage) {
    stage.ReadingSlot? || stage.ReadingDecision? || stage.Returned?
  }

  predicate Owning(stage: Stage) {
    stage.CheckingDecision? || stage.PuttingDecision? || ReadingBack(stage)
  }

  /** A call past validation owns the slot, and one that reads back has its decision stored. */
  ghost predicate Sound(rules: Rules, r: ApprovalRequest, m: Nodes, c: Call)
    requires IsForest(m)
  {
    var d := DecisionFor(rules, r, c);
    && (!c.stage.Loading? && !c.stage.Raised? ==> Loads(rules, m, r) && rules.validName(c.reviewer))
    && (Owning(c.stage) ==> Bound(rules, r, m, d.id))
    && (ReadingBack(c.stage) ==> d.id in m)
    && (c.stage.ReadingDecision? ==> c.stage.id == d.id)
    && (c.stage.Returned? ==> c.stage.decision.id == d.id && c.stage.decision.Identity() == d.Identity())
  }

  ghost predicate Inv(rules: Rules, r: ApprovalRequest, s: System) {
    && WellFormed(rules.enc, s.nodes)
    && forall p | p in s.calls :: Sound(rules, r, s.nodes, s.calls[p])
  }

  lemma SoundStays(rules: Rules, r: ApprovalRequest, m: Nodes, m': Nodes, c: Call)
    requires IsForest(m) && IsForest(m') && Extends(m, m') && Sound(rules, r, m, c)
    ensures Sound(rules, r, m', c)
  {
    if Loads(rules, m, r) { LoadsStays(rules, m, m', r); }
    hide Loads, DecisionFor, IsForest, Slot;
  }

  lemma WorkReads(rules: Rules, r: ApprovalRequest, m: Nodes, c: Call)
    requires WellFormed(rules.enc, m) && rules.GoodIds() && Sound(rules, r, m, c)
    requires c.stage != PuttingBinding && c.stage != PuttingDecision
    ensures Work(rules, r, m, c).0 == m && Sound(rules, r, m, c.(stage := Work(rules, r, m, c).1))
  {
    hide IsForest, WellFormed, Slot, DecisionNode, Loads, BindingHolds, Bound, BoundId, DecisionOf, BindingNode;
    hide rules.GoodIds;
    var d := DecisionFor(rules, r, c);
    HoldsIsBound(rules, r, m, d.id);
    DecisionDigest(rules, r, c.approved, c.reviewer);
    BoundIdExact(rules, r, m, d.id);
    if d.id in m && rules.validName(c.reviewer) { DecisionReadsBack(rules, r, m, c.approved, c.reviewer); }
  }

  lemma PutBindingSound(rules: Rules, r: ApprovalRequest, m: Nodes, m': Nodes, c: Call)
    requires IsForest(m) && IsForest(m') && Extends(m, m') && Sound(rules, r, m, c) && c.stage == PuttingBinding
    ensures Sound(rules, r, m', c.(stage := ValidatingAgain)) && Sound(rules, r, m', c.(stage := Raised))
  {
    hide IsForest, Slot, DecisionNode, Loads, Bound, Extends;
    SoundStays(rules, r, m, m', c);
  }

  lemma PutDecisionSound(rules: Rules, r: ApprovalRequest, m: Nodes, m': Nodes, c: Call)
    requires IsForest(m) && IsForest(m') && Extends(m, m') && Sound(rules, r, m, c) && c.stage == PuttingDecision
    ensures DecisionFor(rules, r, c).id in m' ==> Sound(rules, r, m', c.(stage := ReadingSlot))
    ensures Sound(rules, r, m', c.(stage := Raised))
  {
    hide IsForest, Slot, DecisionNode, Loads, Bound, Extends;
    SoundStays(rules, r, m, m', c);
  }

  lemma PutStores(enc: Encoding, m: Nodes, n: Node)
    ensures Put(enc, m, n).Ok? ==> n.id in Put(enc, m, n).value
  {
  }

  lemma WorkSound(rules: Rules, r: ApprovalRequest, m: Nodes, c: Call)
    requires WellFormed(rules.enc, m) && rules.GoodIds() && Sound(rules, r, m, c)
    ensures
      var w := Work(rules, r, m, c);
      WellFormed(rules.enc, w.0) && Extends(m, w.0) && Sound(rules, r, w.0, c.(stage := w.1))
  {
    hide IsForest, WellFormed, Sound, Slot, DecisionNode, Loads, BindingHolds, Bound, BoundId, DecisionOf, BindingNode;
    hide Put, Extends;
    hide rules.GoodIds;
    WriteForest(rules, r, m, c);
    var d, m' := DecisionFor(rules, r, c), Work(rules, r, m, c).0;
    PutStores(rules.enc, m, d);
    if c.stage == PuttingBinding {
      PutBindingSound(rules, r, m, m', c);
    } else if c.stage == PuttingDecision {
      PutDecisionSound(rules, r, m, m', c);
    } else {
      WorkReads(rules, r, m, c);
    }
  }

  lemma LoadingSound(rules: Rules, r: ApprovalRequest, m: Nodes, c: Call)
    requires IsForest(m) && c.stage == Loading
    ensures Sound(rules, r, m, c)
  {
  }

  lemma InvStep(rules: Rules, r: ApprovalRequest, s: System, action: Action)
    requires rules.GoodIds() && Inv(rules, r, s)
    ensures Inv(rules, r, Act(rules, r, s, action))
  {
    hide IsForest, WellFormed, Sound, Extends, Work, Write;
    hide rules.GoodIds;
    WellFormedIsForest(rules.enc, s.nodes);
    ActGrows(rules, r, s, action);
    var s' := Act(rules, r, s, action);
    forall p | p in s'.calls ensures Sound(rules, r, s'.nodes, s'.calls[p]) {
      if action == Advance(p) {
        WorkSound(rules, r, s.nodes, s.calls[p]);
      } else if p in s.calls {
        SoundStays(rules, r, s.nodes, s'.nodes, s.calls[p]);
      } else {
        LoadingSound(rules, r, s'.nodes, s'.calls[p]);
      }
    }
  }

  // ---------------------------------------------------------------- whole executions

  /** Any finite schedule of actions. */
  ghost function Execute(rules: Rules, r: ApprovalRequest, s: System, actions: seq<Action>): System
    requires WellFormed(rules.enc, s.nodes)
    decreases |actions|
  {
    if actions == [] then s
    else
      ActGrows(rules, r, s, actions[0]);
      Execute(rules, r, Act(rules, r, s, actions[0]), actions[1..])
  }

  lemma {:induction false} ExecuteInv(rules: Rules, r: ApprovalRequest, s: System, actions: seq<Action>)
    requires rules.GoodIds() && Inv(rules, r, s)
    ensures Inv(rules, r, Execute(rules, r, s, actions))
    ensures Extends(s.nodes, Execute(rules, r, s, actions).nodes)
    decreases |actions|
  {
    if actions != [] {
      ActGrows(rules, r, s, actions[0]);
      InvStep(rules, r, s, actions[0]);
      ExecuteInv(rules, r, Act(rules, r, s, actions[0]), actions[1..]);
      hide Inv, Act, WellFormed;
    }
  }

  /** Agreement: in every execution from any store, all calls that return give the same decision,
      and each gives the decision it was asked to record. */
  lemma AllReturnTheSame(rules: Rules, r: ApprovalRequest, m: Nodes, actions: seq<Action>, p: nat, q: nat)
    requires rules.GoodIds() && WellFormed(rules.enc, m)
    requires
      var calls := Execute(rules, r, System(m, map[]), actions).calls;
      p in calls && q in calls && calls[p].stage.Returned? && calls[q].stage.Returned?
    ensures
      var calls := Execute(rules, r, System(m, map[]), actions).calls;
      var a, b := calls[p].stage.decision, calls[q].stage.decision;
      && a.id == b.id && a.Identity() == b.Identity()
      && a.id == DecisionNode(rules, r, calls[p].approved, calls[p].reviewer).id
      && calls[p].approved == calls[q].approved && calls[p].reviewer == calls[q].reviewer
  {
    var s := System(m, map[]);
    assert Inv(rules, r, s);
    ExecuteInv(rules, r, s, actions);
    var s' := Execute(rules, r, s, actions);
    assert Sound(rules, r, s'.nodes, s'.calls[p]) && Sound(rules, r, s'.nodes, s'.calls[q]);
    hide Execute, Inv;
    BoundOnce(rules, r, s'.nodes, DecisionFor(rules, r, s'.calls[p]).id, DecisionFor(rules, r, s'.calls[q]).id);
    DecisionsDiffer(rules, r, s'.calls[p], s'.calls[q]);
  }

  lemma DecisionsDiffer(rules: Rules, r: ApprovalRequest, a: Call, b: Call)
    requires rules.GoodIds() && DecisionFor(rules, r, a).id == DecisionFor(rules, r, b).id
    ensures a.approved == b.approved && a.reviewer == b.reviewer
  {
    var x, y := DecisionFor(rules, r, a), DecisionFor(rules, r, b);
    var e, f := DecisionDocument(r, a.approved, a.reviewer), DecisionDocument(r, b.approved, b.reviewer);
    assert x.payload == y.payload;
    assert x.payload[RESERVED].fields["approval_decision"] == Obj(e);
    assert y.payload[RESERVED].fields["approval_decision"] == Obj(f);
    assert e["approved"] == f["approved"] && e["reviewer"] == f["reviewer"];
  }

  /** Once the slot is bound, a call with a different decision never returns, whatever happens next. */
  lemma ConflictingNeverReturns(rules: Rules, r: ApprovalRequest, s: System, actions: seq<Action>, id: Id, p: nat)
    requires rules.GoodIds() && Inv(rules, r, s) && Bound(rules, r, s.nodes, id)
    requires p in Execute(rules, r, s, actions).calls
    requires DecisionFor(rules, r, Execute(rules, r, s, actions).calls[p]).id != id
    ensures !Execute(rules, r, s, actions).calls[p].stage.Returned?
  {
    ExecuteInv(rules, r, s, actions);
    var s' := Execute(rules, r, s, actions);
    BoundStays(rules, r, s.nodes, s'.nodes, id);
    assert Sound(rules, r, s'.nodes, s'.calls[p]);
    if s'.calls[p].stage.Returned? {
      BoundOnce(rules, r, s'.nodes, id, DecisionFor(rules, r, s'.calls[p]).id);
    }
  }

  // ---------------------------------------------------------------- repeating the bound decision

  /** Store operations a call still has to make, at most. */
  function Remaining(stage: Stage): nat {
    match stage
    case Loading => 9
    case CheckingSlot => 8
    case ValidatingFirst => 7
    case CheckingDecision => 6
    case PuttingBinding => 5
    case ValidatingAgain => 4
    case PuttingDecision => 3
    case ReadingSlot => 2
    case ReadingDecision(_) => 1
    case _ => 0
  }

  /** The slot is bound to the decision this call asks for. */
  ghost predicate Winning(rules: Rules, r: ApprovalRequest, m: Nodes, c: Call)
    requires IsForest(m)
  {
    && Loads(rules, m, r) && rules.validName(c.reviewer)
    && Bound(rules, r, m, DecisionFor(rules, r, c).id)
    && !c.stage.Raised?
  }

  lemma WinningWrites(rules: Rules, r: ApprovalRequest, m: Nodes, c: Call)
    requires WellFormed(rules.enc, m) && rules.GoodIds() && Winning(rules, r, m, c)
    ensures Put(rules.enc, m, BindingNode(rules, r, DecisionFor(rules, r, c).id)).Ok?
    ensures Put(rules.enc, m, DecisionFor(rules, r, c)).Ok?
  {
    var d := DecisionFor(rules, r, c);
    var b := BindingNode(rules, r, d.id);
    PutSucceeds(rules.enc, m, b);
    PutSucceeds(rules.enc, m, d);
  }

  lemma WinningStep(rules: Rules, r: ApprovalRequest, m: Nodes, c: Call)
    requires WellFormed(rules.enc, m) && rules.GoodIds() && IsForest(m)
    requires Sound(rules, r, m, c) && Winning(rules, r, m, c)
    ensures
      var w := Work(rules, r, m, c);
      && !w.1.Raised?
      && (Remaining(c.stage) > 0 ==> Remaining(w.1) < Remaining(c.stage))
      && (Remaining(c.stage) == 0 ==> w.1 == c.stage && c.stage.Returned?)
  {
    hide IsForest, WellFormed, Slot, DecisionNode, Loads, BindingHolds, Bound, BoundId, DecisionOf, BindingNode;
    hide Put;
    hide rules.GoodIds;
    var d := DecisionFor(rules, r, c);
    WinningWrites(rules, r, m, c);
    HoldsIsBound(rules, r, m, d.id);
    DecisionDigest(rules, r, c.approved, c.reviewer);
    BoundIdExact(rules, r, m, d.id);
    if d.id in m { DecisionReadsBack(rules, r, m, c.approved, c.reviewer); }
  }

  lemma WinningAct(rules: Rules, r: ApprovalRequest, s: System, action: Action, p: nat)
    requires rules.GoodIds() && Inv(rules, r, s) && p in s.calls && Winning(rules, r, s.nodes, s.calls[p])
    requires IsForest(Act(rules, r, s, action).nodes)
    ensures
      var s' := Act(rules, r, s, action);
      && p in s'.calls && Winning(rules, r, s'.nodes, s'.calls[p])
      && (action != Advance(p) ==> s'.calls[p] == s.calls[p])
      && (action == Advance(p) && Remaining(s.calls[p].stage) > 0 ==>
          Remaining(s'.calls[p].stage) < Remaining(s.calls[p].stage))
      && (action == Advance(p) && Remaining(s.calls[p].stage) == 0 ==> s'.calls[p] == s.calls[p])
  {
    hide IsForest, WellFormed, DecisionNode, Loads, Bound, Sound, Extends, Work;
    hide rules.GoodIds;
    WellFormedIsForest(rules.enc, s.nodes);
    var s' := Act(rules, r, s, action);
    ActGrows(rules, r, s, action);
    LoadsStays(rules, s.nodes, s'.nodes, r);
    BoundStays(rules, r, s.nodes, s'.nodes, DecisionFor(rules, r, s.calls[p]).id);
    assert Sound(rules, r, s.nodes, s.calls[p]);
    if action == Advance(p) { WinningStep(rules, r, s.nodes, s.calls[p]); }
  }

  lemma WinningDone(rules: Rules, r: ApprovalRequest, s: System, p: nat)
    requires Inv(rules, r, s) && p in s.calls && Winning(rules, r, s.nodes, s.calls[p])
    ensures WellFormed(rules.enc, s.nodes) && IsForest(s.nodes) && !s.calls[p].stage.Raised?
    ensures Remaining(s.calls[p].stage) == 0 ==> s.calls[p].stage.Returned?
  {
    hide Loads, Bound, WellFormed, DecisionNode;
    WellFormedIsForest(rules.enc, s.nodes);
    assert Sound(rules, r, s.nodes, s.calls[p]);
  }

  function Advances(actions: seq<Action>, p: nat): nat {
    if actions == [] then 0 else (if actions[0] == Advance(p) then 1 else 0) + Advances(actions[1..], p)
  }

  /** A call asking for the bound decision never raises, and returns once it was given enough steps,
      whatever the other calls and writers do in between. */
  lemma {:induction false} BoundCallCompletes(
    rules: Rules, r: ApprovalRequest, s: System, actions: seq<Action>, p: nat)
    requires rules.GoodIds() && Inv(rules, r, s) && p in s.calls && Winning(rules, r, s.nodes, s.calls[p])
    ensures
      var s' := Execute(rules, r, s, actions);
      && p in s'.calls && !s'.calls[p].stage.Raised?
      && (Advances(actions, p) >= Remaining(s.calls[p].stage) ==> s'.calls[p].stage.Returned?)
    decreases |actions|
  {
    hide Winning, Act, WellFormed, Sound, Inv;
    hide rules.GoodIds;
    WinningDone(rules, r, s, p);
    if actions != [] {
      var s1 := Act(rules, r, s, actions[0]);
      ActGrows(rules, r, s, actions[0]);
      InvStep(rules, r, s, actions[0]);
      WinningAct(rules, r, s, actions[0], p);
      BoundCallCompletes(rules, r, s1, actions[1..], p);
    }
  }
}

/** Budget bounds over whole runs: any sequence of operations on a run and any number of its branches. */
module BudgetBound {
  import opened JsonValue
  import opened Forest
  import opened Store
  import opened Spending
  import opened Governor
  import opened Lifecycle
  import opened Operations
  import opened BudgetEffects

  /** One limit: at most `max` of `meter` at or below `anchor`. */
  datatype Cap = Cap(anchor: Id, meter: string, max: nat)

  predicate IsScopeOf(s: Scope, cap: Cap) {
    s.anchor == cap.anchor && cap.meter in s.limits && s.limits[cap.meter] == cap.max
  }

  /** The handle enforces the limit. */
  ghost predicate Carries(scopes: seq<Scope>, cap: Cap) {
    exists s | s in scopes :: IsScopeOf(s, cap)
  }

  /** The handle knows the limit was passed. */
  ghost predicate Marked(scopes: seq<Scope>, cap: Cap) {
    exists s | s in scopes :: IsScopeOf(s, cap) && cap.meter in s.exhausted
  }

  /** An operation on a handle, or a write by someone else. */
  datatype Event = By(handle: nat, op: Op) | Foreign(node: Node)

  ghost predicate Fenced(m: Nodes, n: Node, anchor: Id)
    requires IsForest(m)
  {
    n.parent.Some? ==> !IsAncestor(m, anchor, n.parent.value)
  }

  /** Every handle carries the limit, and others do not write below its anchor. */
  ghost predicate Guarded(enc: Encoding, w: World, cap: Cap) {
    && WorldValid(enc, w) && cap.anchor in w.nodes
    && forall h | h in w.handles :: Carries(h.scopes, cap)
  }

  ghost function Next(cfg: Config, w: World, e: Event): World
    requires WorldValid(cfg.enc, w)
  {
    match e
    case By(i, op) => if i < |w.handles| then Move(cfg, w, i, op) else w
    case Foreign(n) => (match Put(cfg.enc, w.nodes, n) case Ok(m') => w.(nodes := m') case Err(_) => w)
  }

  ghost function SpentIn(w: World, cap: Cap): int
    requires IsForest(w.nodes)
  {
    Spent(w.nodes, cap.anchor, cap.meter)
  }

  function RootNode(enc: Encoding, name: string, attempt: nat): Node {
    enc.Make(Root, None, attempt, map["run" := Str(name)], None, map[])
  }

  /** The world of `Runtime.run` on an empty store: a root, and one handle with the budget anchored there. */
  function FreshWorld(enc: Encoding, name: string, attempt: nat, limits: Limits): (w: World)
    ensures WorldValid(enc, w)
  {
    var root := RootNode(enc, name, attempt);
    assert Heights(map[root.id := root], map[root.id := 0]);
    World(map[root.id := root], [Handle(root.id, [Scope(limits, root.id, {})])])
  }

  /** A fresh run is guarded by each of its limits, with nothing spent. */
  lemma FreshRunGuarded(enc: Encoding, name: string, attempt: nat, limits: Limits, meter: string)
    requires meter in limits
    ensures
      var w, cap := FreshWorld(enc, name, attempt, limits), Cap(RootNode(enc, name, attempt).id, meter, limits[meter]);
      Guarded(enc, w, cap) && IsForest(w.nodes) && SpentIn(w, cap) == 0
  {
    hide Spent;
    var root := RootNode(enc, name, attempt);
    var w := FreshWorld(enc, name, attempt, limits);
    var scope := Scope(limits, root.id, {});
    assert scope in [scope] && IsScopeOf(scope, Cap(root.id, meter, limits[meter]));
    NothingSpent(w.nodes, root, meter);
  }

  lemma NothingSpent(m: Nodes, root: Node, meter: string)
    requires IsForest(m) && m == map[root.id := root] && root.meta == map[]
    ensures Spent(m, root.id, meter) == 0
  {
    hide Preorder, IsForest;
    UnchargedSum(m, Preorder(m, [root.id]), meter);
  }

  // ---------------------------------------------------------------- scopes through an operation

  lemma SettledKeepsCap(m: Nodes, scopes: seq<Scope>, cap: Cap)
    requires IsForest(m)
    ensures Carries(scopes, cap) ==> Carries(SettledScopes(m, scopes), cap)
    ensures Marked(scopes, cap) ==> Marked(SettledScopes(m, scopes), cap)
    ensures Carries(scopes, cap) && Spent(m, cap.anchor, cap.meter) > cap.max ==> Marked(SettledScopes(m, scopes), cap)
  {
    hide Spent, TotalsOf, IsForest;
    var after := SettledScopes(m, scopes);
    forall s | s in scopes && IsScopeOf(s, cap)
      ensures exists t | t in after :: IsScopeOf(t, cap) && (cap.meter in t.exhausted <==>
        cap.meter in s.exhausted || Spent(m, cap.anchor, cap.meter) > cap.max)
    {
      var i :| 0 <= i < |scopes| && scopes[i] == s;
      SettledExhausted(m, s, cap.meter);
      assert after[i] in after && IsScopeOf(after[i], cap);
    }
  }

  lemma ChildKeepsCap(scopes: seq<Scope>, budget: Option<Limits>, anchor: Id, cap: Cap)
    ensures Carries(scopes, cap) ==> Carries(ChildScopes(scopes, budget, anchor), cap)
    ensures Marked(scopes, cap) ==> Marked(ChildScopes(scopes, budget, anchor), cap)
  {
    var child := ChildScopes(scopes, budget, anchor);
    assert forall s | s in scopes :: s in child;
  }

  lemma ScopesAnchored(m: Nodes, m': Nodes, scopes: seq<Scope>, budget: Option<Limits>, anchor: Id)
    requires Anchored(m, scopes) && Extends(m, m') && IsForest(m') && anchor in m'
    ensures Anchored(m', scopes) && Anchored(m', SettledScopes(m', scopes))
    ensures Anchored(m', ChildScopes(scopes, budget, anchor))
  {
    hide IsForest, SettledScope, TotalsOf;
    var after := SettledScopes(m', scopes);
    forall t | t in after ensures t.anchor in m' {
      var i :| 0 <= i < |after| && after[i] == t;
      SettledAnchor(m', scopes[i]);
      assert scopes[i] in scopes;
    }
  }

  lemma SettledAnchor(m: Nodes, s: Scope)
    requires IsForest(m)
    ensures SettledScope(m, s).anchor == s.anchor
  {
  }

  lemma PerformAnchored(cfg: Config, m: Nodes, h: Handle, op: Op)
    requires WellFormed(cfg.enc, m) && HandleIn(m, h)
    ensures
      var step := Perform(cfg, m, h, op);
      && WellFormed(cfg.enc, step.after.nodes) && Extends(m, step.after.nodes)
      && HandleIn(step.after.nodes, step.after.handle)
      && (step.child.Some? ==> HandleIn(step.after.nodes, step.child.value))
  {
    hide WellFormed, IsForest, Perform, Extends, Anchored, SettledScopes, ChildScopes, Spent;
    CallNeedsForest(cfg, m);
    PerformGrown(cfg, m, h, op);
    PerformEffect(cfg, m, h, op, h.cursor, "");
    var step := Perform(cfg, m, h, op);
    if step.child.Some? {
      ScopesAnchored(m, step.after.nodes, h.scopes, op.budget, step.child.value.cursor);
    } else {
      ScopesAnchored(m, step.after.nodes, h.scopes, None, step.after.handle.cursor);
    }
  }

  lemma HandleStays(m: Nodes, m': Nodes, h: Handle)
    requires HandleIn(m, h) && Extends(m, m')
    ensures HandleIn(m', h)
  {
  }

  lemma HandlesOf(handles: seq<Handle>, i: nat, changed: Handle, child: Option<Handle>, h: Handle)
    requires i < |handles|
    ensures h in handles[i := changed] + Kept(child) ==> h == changed || h in handles || child == Some(h)
  {
  }

  /** Every event keeps the world valid, and the store only grows. */
  lemma NextValid(cfg: Config, w: World, e: Event)
    requires WorldValid(cfg.enc, w)
    ensures WorldValid(cfg.enc, Next(cfg, w, e)) && Extends(w.nodes, Next(cfg, w, e).nodes)
  {
    hide WellFormed, Perform, Extends, HandleIn, Put;
    ExtendsItself(cfg.enc, w.nodes);
    var w' := Next(cfg, w, e);
    match e {
      case By(i, op) =>
        if i < |w.handles| {
          var before := w.handles[i];
          assert before in w.handles;
          CursorIn(w.nodes, before);
          PerformAnchored(cfg, w.nodes, before, op);
          var step := Perform(cfg, w.nodes, before, op);
          forall h | h in w'.handles ensures HandleIn(w'.nodes, h) {
            HandlesOf(w.handles, i, step.after.handle, step.child, h);
            if h in w.handles { HandleStays(w.nodes, w'.nodes, h); }
          }
        }
      case Foreign(n) =>
        if Put(cfg.enc, w.nodes, n).Ok? {
          PutGrown(cfg.enc, w.nodes, n);
          forall h | h in w'.handles ensures HandleIn(w'.nodes, h) { HandleStays(w.nodes, w'.nodes, h); }
        }
    }
  }

  lemma PerformCarries(cfg: Config, m: Nodes, h: Handle, op: Op, cap: Cap)
    requires WellFormed(cfg.enc, m) && IsForest(m) && h.cursor in m && cap.anchor in m && Carries(h.scopes, cap)
    ensures Carries(Perform(cfg, m, h, op).after.handle.scopes, cap)
    ensures
      var child := Perform(cfg, m, h, op).child;
      child.Some? ==> Carries(child.value.scopes, cap)
  {
    hide WellFormed, IsForest, Perform, Spent, SettledScopes, ChildScopes, Carries, Marked;
    PerformEffect(cfg, m, h, op, cap.anchor, cap.meter);
    var step := Perform(cfg, m, h, op);
    if step.child.Some? { ChildKeepsCap(h.scopes, op.budget, step.child.value.cursor, cap); }
    if step.after.handle.scopes != h.scopes { SettledKeepsCap(step.after.nodes, h.scopes, cap); }
  }

  /** Every handle, branches included, keeps carrying the limit. */
  lemma NextGuarded(cfg: Config, w: World, e: Event, cap: Cap)
    requires Guarded(cfg.enc, w, cap)
    ensures Guarded(cfg.enc, Next(cfg, w, e), cap)
  {
    hide WellFormed, Perform, Extends, HandleIn, Put, Carries;
    NextValid(cfg, w, e);
    AnchorStays(w.nodes, Next(cfg, w, e).nodes, cap.anchor);
    CallNeedsForest(cfg, w.nodes);
    if e.By? && e.handle < |w.handles| {
      var before := w.handles[e.handle];
      assert before in w.handles;
      CursorIn(w.nodes, before);
      PerformCarries(cfg, w.nodes, before, e.op, cap);
      var step := Perform(cfg, w.nodes, before, e.op);
      forall h | h in Next(cfg, w, e).handles ensures Carries(h.scopes, cap) {
        HandlesOf(w.handles, e.handle, step.after.handle, step.child, h);
      }
    }
  }

  lemma AnchorStays(m: Nodes, m': Nodes, anchor: Id)
    requires Extends(m, m') && anchor in m
    ensures anchor in m'
  {
  }

  lemma CursorIn(m: Nodes, h: Handle)
    requires HandleIn(m, h)
    ensures h.cursor in m
  {
  }

  // ---------------------------------------------------------------- whole runs

  ghost function Evolve(cfg: Config, w: World, events: seq<Event>): World
    requires WorldValid(cfg.enc, w)
    decreases |events|
  {
    if events == [] then w
    else
      NextValid(cfg, w, events[0]);
      Evolve(cfg, Next(cfg, w, events[0]), events[1..])
  }

  /** Others never write below the anchor. */
  ghost predicate AllFenced(cfg: Config, w: World, events: seq<Event>, anchor: Id)
    requires WorldValid(cfg.enc, w)
    decreases |events|
  {
    events == [] ||
    ((CallNeedsForest(cfg, w.nodes); events[0].Foreign? ==> Fenced(w.nodes, events[0].node, anchor)) &&
     (NextValid(cfg, w, events[0]); AllFenced(cfg, Next(cfg, w, events[0]), events[1..], anchor)))
  }

  lemma EvolveForest(cfg: Config, w: World)
    requires WorldValid(cfg.enc, w)
    ensures IsForest(w.nodes)
  {
  }

  /** Only an operation on a handle, whose precheck passed, changes the spend. */
  lemma ForeignSpend(cfg: Config, w: World, e: Event, cap: Cap)
    requires Guarded(cfg.enc, w, cap) && IsForest(w.nodes) && e.Foreign? && Fenced(w.nodes, e.node, cap.anchor)
    ensures IsForest(Next(cfg, w, e).nodes) && SpentIn(Next(cfg, w, e), cap) == SpentIn(w, cap)
  {
    hide WellFormed, HandleIn, Put, Carries, IsForest, Spent, ChargeOf, IsAncestor;
    if Put(cfg.enc, w.nodes, e.node).Ok? { PutSpend(cfg.enc, w.nodes, e.node, cap.anchor, cap.meter); }
  }

  // ---------------------------------------------------------------- meters with an estimate

  /** The meter gives a nonnegative estimate whenever it charges. */
  ghost predicate Predicts(meters: seq<Meter>, k: nat, meter: string) {
    && OnlyMeter(meters, k, meter)
    && (forall kind, payload :: meters[k].estimate(kind, payload).Estimated? ==>
          meters[k].estimate(kind, payload).amount >= 0)
    && (forall kind, payload, result, meta :: meters[k].charge(kind, payload, result, meta) != 0 ==>
          meters[k].estimate(kind, payload).Estimated?)
  }

  /** How far the charge of the node an event builds lies above the estimate it was let through with. */
  ghost function Excess(cfg: Config, w: World, e: Event, k: nat, meter: string): int
    requires WorldValid(cfg.enc, w) && k < |cfg.meters|
  {
    if e.By? && e.handle < |w.handles| && e.op.Call? then
      assert w.handles[e.handle] in w.handles;
      var built := Perform(cfg, w.nodes, w.handles[e.handle], e.op).after.built;
      var estimate := cfg.meters[k].estimate(e.op.call.kind, e.op.call.payload);
      if built.Some? && estimate.Estimated? then ChargeOf(built.value, meter) - estimate.amount else 0
    else 0
  }

  /** A passed precheck leaves room for the estimate in every budget carried. */
  lemma RoomForEstimate(cfg: Config, m: Nodes, h: Handle, kind: Kind, payload: Dict, k: nat, cap: Cap)
    requires IsForest(m) && h.cursor in m && OnlyMeter(cfg.meters, k, cap.meter) && Carries(h.scopes, cap)
    requires Precheck(cfg, m, h, kind, payload).Clear?
    ensures !Marked(h.scopes, cap)
    ensures
      var estimate := cfg.meters[k].estimate(kind, payload);
      estimate.Estimated? ==> Spent(m, cap.anchor, cap.meter) + estimate.amount <= cap.max
  {
    hide IsForest, Precheck, Spent, CheckScope, Lookup;
    ClearEstimate(cfg, m, h, kind, payload, k, cap.meter);
    var estimates := Precheck(cfg, m, h, kind, payload).estimates;
    forall s | s in h.scopes && IsScopeOf(s, cap)
      ensures cap.meter !in s.exhausted
      ensures
        var estimate := cfg.meters[k].estimate(kind, payload);
        estimate.Estimated? ==> Spent(m, cap.anchor, cap.meter) + estimate.amount <= cap.max
    {
      PassedScope(m, s, estimates, cap.meter);
    }
  }

  lemma NoEstimateNoCharge(cfg: Config, m: Nodes, h: Handle, c: Invocation, k: nat, meter: string)
    requires WellFormed(cfg.enc, m) && IsForest(m) && h.cursor in m && Predicts(cfg.meters, k, meter)
    requires !cfg.meters[k].estimate(c.kind, c.payload).Estimated?
    ensures
      var a := CallOutcome(cfg, m, h, c);
      a.built.Some? ==> ChargeOf(a.built.value, meter) == 0
  {
    hide WellFormed, IsForest, CallOutcome, Precheck, ChargeOf, Lookup;
    CallCharge(cfg, m, h, c, k, meter);
    if Precheck(cfg, m, h, c.kind, c.payload).Clear? { ClearEstimate(cfg, m, h, c.kind, c.payload, k, meter); }
  }

  /** One operation: within the limit it can pass it by its excess at most; beyond the limit it adds nothing. */
  lemma OperationBound(cfg: Config, m: Nodes, h: Handle, op: Op, k: nat, cap: Cap)
    requires WellFormed(cfg.enc, m) && IsForest(m) && h.cursor in m && cap.anchor in m
    requires Predicts(cfg.meters, k, cap.meter) && Carries(h.scopes, cap)
    ensures
      var a := Perform(cfg, m, h, op).after;
      var before := Spent(m, cap.anchor, cap.meter);
      && IsForest(a.nodes)
      && var after := Spent(a.nodes, cap.anchor, cap.meter);
      && (before > cap.max ==> after == before)
      && (before <= cap.max < after ==>
          && op.Call? && a.built.Some?
          && var estimate := cfg.meters[k].estimate(op.call.kind, op.call.payload);
          && estimate.Estimated? && after <= cap.max + ChargeOf(a.built.value, cap.meter) - estimate.amount)
  {
    hide WellFormed, IsForest, CallOutcome, PlaceNote, RollBack, Precheck, Spent, ChargeOf, SettledScopes, ChildScopes;
    hide Carries, Marked;
    PerformEffect(cfg, m, h, op, cap.anchor, cap.meter);
    if op.Call? && Precheck(cfg, m, h, op.call.kind, op.call.payload).Clear? {
      RoomForEstimate(cfg, m, h, op.call.kind, op.call.payload, k, cap);
      if !cfg.meters[k].estimate(op.call.kind, op.call.payload).Estimated? {
        NoEstimateNoCharge(cfg, m, h, op.call, k, cap.meter);
      }
    }
  }

  lemma EventBound(cfg: Config, w: World, e: Event, k: nat, cap: Cap)
    requires Guarded(cfg.enc, w, cap) && Predicts(cfg.meters, k, cap.meter) && IsForest(w.nodes)
    requires e.Foreign? ==> Fenced(w.nodes, e.node, cap.anchor)
    ensures IsForest(Next(cfg, w, e).nodes)
    ensures SpentIn(w, cap) > cap.max ==> SpentIn(Next(cfg, w, e), cap) == SpentIn(w, cap)
    ensures SpentIn(w, cap) <= cap.max ==>
      || SpentIn(Next(cfg, w, e), cap) <= cap.max
      || SpentIn(Next(cfg, w, e), cap) <= cap.max + Excess(cfg, w, e, k, cap.meter)
  {
    hide WellFormed, Perform, Put, Carries, IsForest, Spent, ChargeOf, Fenced, Predicts, Anchored;
    UniqueOf(cfg.meters, k, cap.meter);
    if e.Foreign? {
      ForeignSpend(cfg, w, e, cap);
    } else if e.handle < |w.handles| {
      assert w.handles[e.handle] in w.handles;
      OperationBound(cfg, w.nodes, w.handles[e.handle], e.op, k, cap);
    }
  }

  lemma UniqueOf(meters: seq<Meter>, k: nat, meter: string)
    requires Predicts(meters, k, meter)
    ensures OnlyMeter(meters, k, meter)
  {
  }

  lemma EvolvePrefix(cfg: Config, w: World, events: seq<Event>, i: nat)
    requires WorldValid(cfg.enc, w) && events != [] && i < |events|
    ensures WorldValid(cfg.enc, Next(cfg, w, events[0]))
    ensures Evolve(cfg, w, events[..i + 1]) == Evolve(cfg, Next(cfg, w, events[0]), events[1..][..i])
  {
    hide WorldValid, Next;
    NextValid(cfg, w, events[0]);
    assert events[..i + 1][1..] == events[1..][..i];
  }

  lemma {:induction false} EvolveValid(cfg: Config, w: World, events: seq<Event>)
    requires WorldValid(cfg.enc, w)
    ensures WorldValid(cfg.enc, Evolve(cfg, w, events))
    decreases |events|
  {
    hide WorldValid, Next;
    if events != [] {
      NextValid(cfg, w, events[0]);
      EvolveValid(cfg, Next(cfg, w, events[0]), events[1..]);
    }
  }

  /** Beyond the limit the spend is frozen. */
  lemma {:induction false} Frozen(cfg: Config, w: World, events: seq<Event>, k: nat, cap: Cap)
    requires Guarded(cfg.enc, w, cap) && Predicts(cfg.meters, k, cap.meter) && IsForest(w.nodes)
    requires AllFenced(cfg, w, events, cap.anchor) && SpentIn(w, cap) > cap.max
    ensures IsForest(Evolve(cfg, w, events).nodes) && SpentIn(Evolve(cfg, w, events), cap) == SpentIn(w, cap)
    decreases |events|
  {
    hide WorldValid, Next, Fenced, IsForest, Spent, Predicts, Carries;
    if events != [] {
      EventBound(cfg, w, events[0], k, cap);
      NextGuarded(cfg, w, events[0], cap);
      Frozen(cfg, Next(cfg, w, events[0]), events[1..], k, cap);
    }
  }

  /** Event `i` of a run, seen from the world it happens in, explains the spend at the end. */
  ghost predicate Explains(cfg: Config, w: World, events: seq<Event>, i: nat, k: nat, cap: Cap)
    requires WorldValid(cfg.enc, w) && i < |events| && k < |cfg.meters|
  {
    EvolveValid(cfg, w, events);
    EvolveValid(cfg, w, events[..i]);
    EvolveForest(cfg, Evolve(cfg, w, events));
    SpentIn(Evolve(cfg, w, events), cap) <= cap.max + Excess(cfg, Evolve(cfg, w, events[..i]), events[i], k, cap.meter)
  }

  /** The recorded spend never exceeds the limit by more than the excess of one single call. */
  lemma {:induction false} BudgetBound(cfg: Config, w: World, events: seq<Event>, k: nat, cap: Cap)
    requires Guarded(cfg.enc, w, cap) && Predicts(cfg.meters, k, cap.meter) && IsForest(w.nodes)
    requires AllFenced(cfg, w, events, cap.anchor) && SpentIn(w, cap) <= cap.max
    ensures IsForest(Evolve(cfg, w, events).nodes)
    ensures SpentIn(Evolve(cfg, w, events), cap) <= cap.max ||
      exists i | 0 <= i < |events| :: Explains(cfg, w, events, i, k, cap)
    decreases |events|
  {
    hide WorldValid, Next, Fenced, IsForest, Spent, Predicts, Carries, Excess;
    UniqueOf(cfg.meters, k, cap.meter);
    if events != [] {
      var w1 := Next(cfg, w, events[0]);
      EventBound(cfg, w, events[0], k, cap);
      NextGuarded(cfg, w, events[0], cap);
      if SpentIn(w1, cap) <= cap.max {
        BudgetBound(cfg, w1, events[1..], k, cap);
        if i :| 0 <= i < |events[1..]| && Explains(cfg, w1, events[1..], i, k, cap) {
          EvolvePrefix(cfg, w, events, i);
          assert Explains(cfg, w, events, i + 1, k, cap);
        }
      } else {
        Frozen(cfg, w1, events[1..], k, cap);
        assert events[..0] == [];
        assert Explains(cfg, w, events, 0, k, cap);
      }
    }
  }

  /** Beyond the limit no handle lets a call through that the meter estimates. */
  lemma OverspentRefuses(cfg: Config, m: Nodes, h: Handle, kind: Kind, payload: Dict, k: nat, cap: Cap)
    requires IsForest(m) && h.cursor in m && Predicts(cfg.meters, k, cap.meter) && Carries(h.scopes, cap)
    requires Spent(m, cap.anchor, cap.meter) > cap.max && cfg.meters[k].estimate(kind, payload).Estimated?
    ensures !Precheck(cfg, m, h, kind, payload).Clear?
    ensures (forall s | s in h.scopes :: CleanBelow(m, s.anchor)) ==> Precheck(cfg, m, h, kind, payload).Blocked?
  {
    hide IsForest, Precheck, Spent, Carries, Marked, CleanBelow;
    RaisedOnlyUnclean(cfg, m, h, kind, payload);
    if Precheck(cfg, m, h, kind, payload).Clear? { RoomForEstimate(cfg, m, h, kind, payload, k, cap); }
  }

  /** Clean charges never make a precheck raise. */
  lemma RaisedOnlyUnclean(cfg: Config, m: Nodes, h: Handle, kind: Kind, payload: Dict)
    requires IsForest(m) && h.cursor in m
    ensures (forall s | s in h.scopes :: CleanBelow(m, s.anchor)) ==> !Precheck(cfg, m, h, kind, payload).Raised?
  {
    hide IsForest, EstimateMeters, CleanBelow;
    if forall s | s in h.scopes :: CleanBelow(m, s.anchor) {
      CleanReadable(m, h.scopes, EstimatesFor(cfg, m, h.cursor, kind, payload));
    }
  }

  lemma {:induction false} CleanReadable(m: Nodes, scopes: seq<Scope>, estimates: Estimates)
    requires IsForest(m) && forall s | s in scopes :: CleanBelow(m, s.anchor)
    ensures !CheckScopes(m, scopes, estimates).Unreadable?
  {
    hide IsForest, CleanBelow, TotalsOf;
    if scopes != [] {
      assert scopes[0] in scopes && forall s | s in scopes[1..] :: s in scopes;
      CleanReadable(m, scopes[1..], estimates);
    }
  }

  /** The meter never charges more than it estimated. */
  ghost predicate Exact(meter: Meter) {
    forall kind, payload, result, meta | meter.estimate(kind, payload).Estimated? ::
      meter.charge(kind, payload, result, meta) <= meter.estimate(kind, payload).amount
  }

  lemma NoExcess(cfg: Config, w: World, e: Event, k: nat, meter: string)
    requires WorldValid(cfg.enc, w) && Predicts(cfg.meters, k, meter) && Exact(cfg.meters[k])
    ensures Excess(cfg, w, e, k, meter) <= 0
  {
    hide WellFormed, CallOutcome, ChargeOf, Lookup, Anchored, Precheck, IsForest;
    if e.By? && e.handle < |w.handles| && e.op.Call? {
      var h := w.handles[e.handle];
      assert h in w.handles;
      CallNeedsForest(cfg, w.nodes);
      CallCharge(cfg, w.nodes, h, e.op.call, k, meter);
      if Precheck(cfg, w.nodes, h, e.op.call.kind, e.op.call.payload).Clear? {
        ClearEstimate(cfg, w.nodes, h, e.op.call.kind, e.op.call.payload, k, meter);
      }
    }
  }

  /** An exact meter never exceeds its limit. */
  lemma ExactNeverExceeds(cfg: Config, w: World, events: seq<Event>, k: nat, cap: Cap)
    requires Guarded(cfg.enc, w, cap) && Predicts(cfg.meters, k, cap.meter) && Exact(cfg.meters[k]) && IsForest(w.nodes)
    requires AllFenced(cfg, w, events, cap.anchor) && SpentIn(w, cap) <= cap.max
    ensures IsForest(Evolve(cfg, w, events).nodes) && SpentIn(Evolve(cfg, w, events), cap) <= cap.max
  {
    hide WorldValid, Next, IsForest, Spent, Predicts, Carries, Excess, Evolve, AllFenced, Exact;
    UniqueOf(cfg.meters, k, cap.meter);
    BudgetBound(cfg, w, events, k, cap);
    if i :| 0 <= i < |events| && Explains(cfg, w, events, i, k, cap) {
      EvolveValid(cfg, w, events[..i]);
      NoExcess(cfg, Evolve(cfg, w, events[..i]), events[i], k, cap.meter);
    }
  }
}

/** Approvals inside runs: governed calls on any number of handles, with branches, rollbacks and other writers. */
module GovernedRun {
  import opened JsonValue
  import opened Forest
  import opened Store
  import opened Governor
  import opened Lifecycle
  import opened Operations
  import opened BudgetBound
  import opened Approvals
  import opened ApprovalPolicy

  // ---------------------------------------------------------------- what a call leaves below its cursor

  ghost predicate BuildsDispatch(cfg: Config, h: Handle, built: Option<Node>) {
    built.Some? ==> IsDispatch(built.value) && built.value.parent == Some(h.cursor) && cfg.enc.ValidForPut(built.value)
  }

  lemma FailureIsDispatch(cfg: Config, h: Handle, c: Invocation, p: Pass, tag: Label, fault: Fault)
    requires tag == UNKNOWN || tag == UNRECORDED
    ensures BuildsDispatch(cfg, h, Some(FailureNode(cfg, h.cursor, c, p, tag, fault)))
  {
    hide FailureMeta, EstimatedCharges;
  }

  lemma CallIsDispatch(cfg: Config, h: Handle, c: Invocation, p: Pass, result: Json)
    ensures BuildsDispatch(cfg, h, Some(CallNode(cfg, h.cursor, c, p, result)))
  {
    hide CallMeta, ChargesFor;
  }

  lemma DispatchBuilds(cfg: Config, m: Nodes, h: Handle, c: Invocation, p: Pass)
    requires WellFormed(cfg.enc, m)
    ensures BuildsDispatch(cfg, h, Dispatch(cfg, m, h, c, p).built)
  {
    hide WellFormed, Recording, FailureNode, CallNode, ChargesFor, EstimatedCharges, ExitOf;
    match ExitOf(c.script, p.rid) {
      case Abandoned =>
      case Unsure(tag, fault) => FailureIsDispatch(cfg, h, c, p, tag, fault);
      case Completed(result) => CallIsDispatch(cfg, h, c, p, result);
    }
  }

  /** Whatever a call records, the approval policy counts it as a dispatch, directly below the cursor of the call. */
  lemma CallBuildsDispatch(cfg: Config, m: Nodes, h: Handle, c: Invocation)
    requires WellFormed(cfg.enc, m) && h.cursor in m
    ensures BuildsDispatch(cfg, h, CallOutcome(cfg, m, h, c).built)
  {
    hide WellFormed, IsForest, Precheck, Dispatch, RejectedPayload;
    CallNeedsForest(cfg, m);
    if FindRecorded(cfg, m, h.cursor, c) == Live {
      var checked := Precheck(cfg, m, h, c.kind, c.payload);
      if checked.Clear? {
        DispatchBuilds(cfg, m, h, c, Pass(checked.estimates, None));
        DispatchBuilds(cfg, m, h, c, Pass(checked.estimates, Some(c.script.reservationId)));
      }
    }
  }

  // ---------------------------------------------------------------- governed runs

  /** An event of a run, with the context a governed call was decided in. */
  type Governed = (BudgetBound.Event, Option<Context>)

  /** A call decided at its own cursor, let through on request `q`, whose node or unknown outcome is stored. */
  ghost predicate Uses(rules: Rules, sideEffectsOnly: bool, cfg: Config, w: World, g: Governed, q: Id)
    requires WorldValid(cfg.enc, w)
  {
    EvolveForest(cfg, w);
    g.0.By? && g.0.handle < |w.handles| && g.0.op.Call? &&
    var h := w.handles[g.0.handle];
    assert h in w.handles;
    && g.1.Some? && g.1.value.cursorId == h.cursor
    && Decide(rules, sideEffectsOnly, w.nodes, g.1.value) == Ok(Verdict.Granted(q))
    && var built := Perform(cfg, w.nodes, h, g.0.op).after.built;
       built.Some? && built.value.id in Next(cfg, w, g.0).nodes
  }

  ghost function UseCount(rules: Rules, sideEffectsOnly: bool, cfg: Config, w: World, events: seq<Governed>, q: Id): nat
    requires WorldValid(cfg.enc, w)
    decreases |events|
  {
    if events == [] then 0
    else
      NextValid(cfg, w, events[0].0);
      (if Uses(rules, sideEffectsOnly, cfg, w, events[0], q) then 1 else 0)
      + UseCount(rules, sideEffectsOnly, cfg, Next(cfg, w, events[0].0), events[1..], q)
  }

  lemma StoredDispatch(enc: Encoding, m: Nodes, n: Node)
    requires WellFormed(enc, m) && enc.InjectiveIds() && n.id in m && enc.ValidForPut(n) && IsDispatch(n)
    ensures IsDispatch(m[n.id]) && m[n.id].parent == n.parent
  {
    SameIdSameIdentity(enc, m, n);
    DispatchByIdentity(m[n.id], n);
  }

  lemma WorldForest(enc: Encoding, w: World)
    requires WorldValid(enc, w)
    ensures WellFormed(enc, w.nodes) && IsForest(w.nodes) && forall h | h in w.handles :: h.cursor in w.nodes
  {
  }

  /** A use exhausts the request. */
  lemma UseExhausts(rules: Rules, sideEffectsOnly: bool, cfg: Config, w: World, g: Governed, q: Id)
    requires WorldValid(cfg.enc, w) && cfg.enc.InjectiveIds() && Uses(rules, sideEffectsOnly, cfg, w, g, q)
    ensures IsForest(w.nodes) && !Exhausted(w.nodes, q)
    ensures IsForest(Next(cfg, w, g.0).nodes) && Exhausted(Next(cfg, w, g.0).nodes, q)
  {
    hide WellFormed, IsForest, Decide, CallOutcome, Extends, IsAncestor, Anchored;
    WorldForest(cfg.enc, w);
    NextValid(cfg, w, g.0);
    WorldForest(cfg.enc, Next(cfg, w, g.0));
    var h := w.handles[g.0.handle];
    assert h in w.handles;
    var op := g.0.op;
    var m' := Next(cfg, w, g.0).nodes;
    var built := Perform(cfg, w.nodes, h, op).after.built.value;
    CallBuildsDispatch(cfg, w.nodes, h, op.call);
    GrantedBelow(rules, sideEffectsOnly, w.nodes, g.1.value, q);
    AncestorSame(w.nodes, m', q, h.cursor);
    StoredDispatch(cfg.enc, m', built);
    BelowToo(m', q, h.cursor, built.id);
  }

  lemma BelowToo(m: Nodes, q: Id, p: Id, x: Id)
    requires IsForest(m) && x in m && m[x].parent == Some(p) && IsAncestor(m, q, p) && IsDispatch(m[x])
    ensures Exhausted(m, q)
  {
    assert IsAncestor(m, q, x);
  }

  /** An approval is single-use: over any run, with branches, rollbacks and other writers, at most one governed call
      whose node or unknown outcome is recorded was let through on the strength of a request. */
  lemma {:induction false} ApprovalIsSingleUse(
    rules: Rules, sideEffectsOnly: bool, cfg: Config, w: World, events: seq<Governed>, q: Id)
    requires WorldValid(cfg.enc, w) && cfg.enc.InjectiveIds() && IsForest(w.nodes)
    ensures UseCount(rules, sideEffectsOnly, cfg, w, events, q) <= if Exhausted(w.nodes, q) then 0 else 1
    decreases |events|
  {
    hide WorldValid, IsForest, Next, Uses, Exhausted, Extends;
    if events != [] {
      var w1 := Next(cfg, w, events[0].0);
      NextValid(cfg, w, events[0].0);
      WorldForest(cfg.enc, w1);
      ApprovalIsSingleUse(rules, sideEffectsOnly, cfg, w1, events[1..], q);
      if Uses(rules, sideEffectsOnly, cfg, w, events[0], q) {
        UseExhausts(rules, sideEffectsOnly, cfg, w, events[0], q);
      }
      if Exhausted(w.nodes, q) { ExhaustedStays(w.nodes, w1.nodes, q); }
    }
  }
}

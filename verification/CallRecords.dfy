/** What a governed call records and returns, read off its script and the store. */
module CallRecords {
  import opened JsonValue
  import opened Forest
  import opened Store
  import Spending
  import opened Governor
  import opened Lifecycle
  import opened Operations

  // ---------------------------------------------------------------- a returned call

  /** A returned node is the one stored at `id`. A new one holds the call's own fields and what its step gave; one that
      was there keeps its fields and its result. */
  ghost predicate HoldsAnswer(cfg: Config, m: Nodes, h: Handle, c: Invocation, a: After) {
    a.ended.Returned? ==>
      var n, id := a.ended.node, cfg.enc.nodeId(c.kind, Some(h.cursor), c.attempt, c.payload);
      && n.id == id && id in a.nodes && a.nodes[id] == n && a.handle.cursor == id
      && a.nodes.Keys == m.Keys + {id}
      && c.script.step.Gave?
      && n.parent == Some(h.cursor) && n.kind == c.kind && n.attempt == c.attempt
      && if id in m then n == m[id].(meta := n.meta)
         else
           && n.payload == c.payload && n.result == Some(c.script.step.result)
           && n.resultDigest == Some(cfg.enc.resultDigest(c.script.step.result))
  }

  lemma PutAnswer(enc: Encoding, m: Nodes, n: Node)
    requires Put(enc, m, n).Ok?
    ensures
      var m' := Put(enc, m, n).value;
      && n.id in m' && m'.Keys == m.Keys + {n.id}
      && (n.id !in m ==> m'[n.id] == n)
      && (n.id in m ==>
          && m'[n.id] == m[n.id].(meta := m'[n.id].meta)
          && m'[n.id].parent == n.parent && m'[n.id].kind == n.kind && m'[n.id].attempt == n.attempt)
  {
  }

  lemma CompleteAnswer(cfg: Config, m: Nodes, h: Handle, c: Invocation, p: Pass, result: Json)
    requires WellFormed(cfg.enc, m) && c.script.step == Gave(result)
    ensures HoldsAnswer(cfg, m, h, c, Complete(cfg, m, h, c, p, result))
  {
    hide WellFormed, CallMeta, ChargesFor, SettledScopes, Put;
    var n := CallNode(cfg, h.cursor, c, p, result);
    RecordingGrown(cfg, m, h, n);
    if Put(cfg.enc, m, n).Ok? { PutAnswer(cfg.enc, m, n); }
  }

  lemma DispatchAnswer(cfg: Config, m: Nodes, h: Handle, c: Invocation, p: Pass)
    requires WellFormed(cfg.enc, m)
    ensures HoldsAnswer(cfg, m, h, c, Dispatch(cfg, m, h, c, p))
  {
    hide WellFormed, Recording, FailureNode, CallNode, ChargesFor, EstimatedCharges, ExitOf, Complete;
    match ExitOf(c.script, p.rid) {
      case Abandoned =>
      case Unsure(tag, fault) =>
      case Completed(result) => CompleteAnswer(cfg, m, h, c, p, result);
    }
  }

  /** In record mode a call returns only what its step gave, or the first result stored under its id. */
  lemma CallAnswer(cfg: Config, m: Nodes, h: Handle, c: Invocation)
    requires WellFormed(cfg.enc, m) && h.cursor in m && cfg.mode == Mode.Record
    ensures HoldsAnswer(cfg, m, h, c, CallOutcome(cfg, m, h, c))
  {
    hide WellFormed, Precheck, Dispatch, Refusing, IsForest, RejectedPayload;
    CallNeedsForest(cfg, m);
    if FindRecorded(cfg, m, h.cursor, c).Live? {
      match Precheck(cfg, m, h, c.kind, c.payload) {
        case Blocked(refusal) => NotReturned(cfg, m, h, refusal, c.script.now, []);
        case Raised =>
        case Clear(estimates, approximate) =>
          DispatchAnswer(cfg, m, h, c, Pass(estimates, None));
          DispatchAnswer(cfg, m, h, c, Pass(estimates, Some(c.script.reservationId)));
          if c.script.answer.Rejected? {
            var rejected := RejectedPayload(cfg, c.kind, c.payload, c.script.answer, approximate);
            NotReturned(cfg, m, h, rejected, c.script.now, [Reserve(c.script.reservationId, false)]);
          }
      }
    }
  }

  // ---------------------------------------------------------------- exactly when a call returns

  /** The step gave a result, and nothing failed around it; the lease and the settlement matter for a reservation. */
  predicate Untroubled(s: Script, reserved: bool) {
    && s.step.Gave? && s.measurement == None && s.processingFault == None
    && (reserved ==> s.leaseFault == None && s.leaseLost == None && s.settleFault == None)
  }

  /** A result can be stored at `id`: it is new, the same, or goes to noted conflicts that can be listed. */
  predicate CanStore(m: Nodes, id: Id, result: Json) {
    id in m && m[id].result != Some(result) && "result_conflicts" in m[id].meta ==>
      IsIterable(m[id].meta["result_conflicts"])
  }

  lemma CompleteReturnsExactly(cfg: Config, m: Nodes, h: Handle, c: Invocation, p: Pass, result: Json)
    requires WellFormed(cfg.enc, m) && cfg.enc.InjectiveIds() && h.cursor in m
    ensures Complete(cfg, m, h, c, p, result).ended.Returned? <==>
      && (p.rid.Some? ==> c.script.settleFault == None) && Lost(c, p) == None
      && CanStore(m, cfg.enc.nodeId(c.kind, Some(h.cursor), c.attempt, c.payload), result)
  {
    hide WellFormed, CallMeta, ChargesFor, SettledScopes, Put;
    PutSucceeds(cfg.enc, m, CallNode(cfg, h.cursor, c, p, result));
  }

  lemma DispatchReturnsExactly(cfg: Config, m: Nodes, h: Handle, c: Invocation, p: Pass)
    requires WellFormed(cfg.enc, m) && cfg.enc.InjectiveIds() && h.cursor in m
    ensures Dispatch(cfg, m, h, c, p).ended.Returned? <==>
      && Untroubled(c.script, p.rid.Some?)
      && CanStore(m, cfg.enc.nodeId(c.kind, Some(h.cursor), c.attempt, c.payload), c.script.step.result)
  {
    hide WellFormed, Recording, FailureNode, CallNode, ChargesFor, EstimatedCharges, Complete, CanStore;
    match ExitOf(c.script, p.rid) {
      case Abandoned =>
      case Unsure(tag, fault) =>
      case Completed(result) => CompleteReturnsExactly(cfg, m, h, c, p, result);
    }
  }

  /** In record mode a call returns exactly when it is no refused duplicate, its budgets and the arbiter let it
      through, nothing fails around its step, and its result can be stored. */
  lemma CallReturnsExactly(cfg: Config, m: Nodes, h: Handle, c: Invocation)
    requires WellFormed(cfg.enc, m) && cfg.enc.InjectiveIds() && h.cursor in m && cfg.mode == Mode.Record
    ensures
      var id, asks := cfg.enc.nodeId(c.kind, Some(h.cursor), c.attempt, c.payload), cfg.arbitrated && h.scopes != [];
      && IsForest(m)
      && (CallOutcome(cfg, m, h, c).ended.Returned? <==>
          && !(cfg.refuseDuplicates && id in m) && Precheck(cfg, m, h, c.kind, c.payload).Clear?
          && (asks ==> c.script.answer.Granted?) && Untroubled(c.script, asks)
          && CanStore(m, id, c.script.step.result))
  {
    hide WellFormed, Precheck, Dispatch, Refusing, IsForest, RejectedPayload, Untroubled, CanStore;
    CallNeedsForest(cfg, m);
    forall payload, now, log { NotReturned(cfg, m, h, payload, now, log); }
    if FindRecorded(cfg, m, h.cursor, c).Live? && Precheck(cfg, m, h, c.kind, c.payload).Clear? {
      var estimates := Precheck(cfg, m, h, c.kind, c.payload).estimates;
      DispatchReturnsExactly(cfg, m, h, c, Pass(estimates, None));
      DispatchReturnsExactly(cfg, m, h, c, Pass(estimates, Some(c.script.reservationId)));
    }
  }

  // ---------------------------------------------------------------- a call whose outcome is not known

  /** The exception that leaves the outcome open, and whether it is marked as raised after the dispatch. An unmarked one
      leaves it open only when a result was there already. */
  function OpenFault(s: Script, reserved: bool): Option<(string, bool)> {
    match s.step
    case Threw(fault) => if fault.marked then Some((fault.name, true)) else None
    case Gave(_) =>
      if s.measurement.Some? then Some((s.measurement.value.name, s.measurement.value.marked))
      else if reserved && s.leaseFault.Some? then Some((s.leaseFault.value.name, false))
      else if s.processingFault.Some? then Some((s.processingFault.value.name, false))
      else None
  }

  /** The note for an open outcome: where it hangs, which call it stands for, what it was charged, and why. */
  predicate TellsOutcome(cfg: Config, h: Handle, c: Invocation, p: Pass, n: Node, fault: (string, bool)) {
    && n.kind == Note && n.parent == Some(h.cursor) && n.attempt == c.attempt && n.result == None
    && Get(n.payload, "event") == Some(Str(if fault.1 then "call_outcome_unknown" else "call_recording_failed"))
    && Get(n.payload, "blocked_kind") == Some(Str(c.kind.Name()))
    && Get(n.payload, "blocked_payload_digest") == Some(Str(cfg.digest(c.payload)))
    && Get(n.meta, "charges") == Some(ChargesJson(EstimatedCharges(p.estimates)))
    && match Get(n.meta, "failure")
       case Some(Obj(failure)) =>
         && Get(failure, "error_type") == Some(Str(fault.0))
         && Get(failure, "outcome") == Some(Str(if fault.1 then "unknown" else "completed_unrecorded"))
       case _ => false
  }

  lemma FailureTells(cfg: Config, h: Handle, c: Invocation, p: Pass, tag: Label, fault: Fault)
    requires tag == UNKNOWN || tag == UNRECORDED
    ensures TellsOutcome(cfg, h, c, p, FailureNode(cfg, h.cursor, c, p, tag, fault), (fault.name, tag == UNKNOWN))
  {
    hide EstimatedCharges, ChargesJson, FailureMeta, Created;
    FailureCharges(cfg, h.cursor, c, p, tag, fault);
    OverlayFailure(c, p, tag, fault);
    LabelsApart();
  }

  lemma LabelsApart()
    ensures UNKNOWN != UNRECORDED
  {
    assert |UNKNOWN.outcome| != |UNRECORDED.outcome|;
  }

  lemma OverlayFailure(c: Invocation, p: Pass, tag: Label, fault: Fault)
    ensures Get(FailureMeta(c, p, tag, fault), "failure") ==
      Some(Obj(map["outcome" := Str(tag.outcome), "phase" := Str(tag.phase), "error_type" := Str(fault.name)]))
  {
    hide EstimatedCharges, ChargesJson, Created;
  }

  /** A dispatched call builds a note exactly when its outcome stays open, a call node when it has a result, and
      nothing when its step raised before any dispatch was known. */
  lemma DispatchBuildsRecord(cfg: Config, m: Nodes, h: Handle, c: Invocation, p: Pass)
    requires WellFormed(cfg.enc, m)
    ensures
      var built, open := Dispatch(cfg, m, h, c, p).built, OpenFault(c.script, p.rid.Some?);
      if open.Some? then built.Some? && TellsOutcome(cfg, h, c, p, built.value, open.value)
      else if c.script.step.Gave? then
        && built.Some? && built.value.kind == c.kind && built.value.parent == Some(h.cursor)
        && built.value.attempt == c.attempt && built.value.payload == c.payload
        && built.value.result == Some(c.script.step.result)
      else built == None
  {
    hide WellFormed, Recording, FailureNode, CallMeta, ChargesFor, EstimatedCharges, TellsOutcome;
    match ExitOf(c.script, p.rid) {
      case Abandoned =>
      case Unsure(tag, fault) => FailureTells(cfg, h, c, p, tag, fault);
      case Completed(result) =>
    }
  }

  // ---------------------------------------------------------------- what a dispatched call stores

  ghost predicate IsOver(m: Nodes, s: Scope, k: string)
    requires IsForest(m)
  {
    k in s.exhausted || (k in s.limits && Spending.Spent(m, s.anchor, k) > s.limits[k])
  }

  /** Every scope keeps its limits and its anchor, and marks what was marked before or is overspent now. */
  ghost predicate Settled(m: Nodes, before: seq<Scope>, after: seq<Scope>)
    requires IsForest(m)
  {
    && |after| == |before|
    && forall i | 0 <= i < |before| ::
         && after[i].limits == before[i].limits && after[i].anchor == before[i].anchor
         && forall k :: k in after[i].exhausted <==> IsOver(m, before[i], k)
  }

  lemma ScopesSettled(m: Nodes, scopes: seq<Scope>)
    requires IsForest(m)
    ensures Settled(m, scopes, SettledScopes(m, scopes))
  {
    hide IsForest, SettledScope;
    forall i | 0 <= i < |scopes|
      ensures SettledScope(m, scopes[i]).limits == scopes[i].limits
      ensures SettledScope(m, scopes[i]).anchor == scopes[i].anchor
      ensures forall k :: k in SettledScope(m, scopes[i]).exhausted <==> IsOver(m, scopes[i], k)
    {
      ScopeKept(m, scopes[i]);
      forall k { SettledExhausted(m, scopes[i], k); }
    }
  }

  lemma ScopeKept(m: Nodes, s: Scope)
    requires IsForest(m)
    ensures SettledScope(m, s).limits == s.limits && SettledScope(m, s).anchor == s.anchor
  {
    hide IsForest;
  }

  /** The node is stored, is the cursor, and the scopes are settled after it; otherwise nothing changed. */
  ghost predicate Stores(m: Nodes, h: Handle, a: After, n: Node, stored: bool) {
    if !stored then a.nodes == m && a.handle == h
    else
      && a.nodes.Keys == m.Keys + {n.id} && a.handle.cursor == n.id && (n.id !in m ==> a.nodes[n.id] == n)
      && IsForest(a.nodes) && Settled(a.nodes, h.scopes, a.handle.scopes)
  }

  lemma RecordingStores(cfg: Config, m: Nodes, h: Handle, n: Node, ended: Ended, log: seq<ArbiterCall>)
    requires WellFormed(cfg.enc, m)
    ensures match Recording(cfg, m, h, n)
      case None => true
      case Some(done) => Stores(m, h, After(done.0, done.1, ended, log, Some(n)), n, true)
  {
    hide WellFormed, Put, SettledScopes, Settled, IsForest;
    RecordingGrown(cfg, m, h, n);
    if Put(cfg.enc, m, n).Ok? {
      PutAnswer(cfg.enc, m, n);
      CallNeedsForest(cfg, Put(cfg.enc, m, n).value);
      ScopesSettled(Put(cfg.enc, m, n).value, h.scopes);
    }
  }

  lemma CompleteStores(cfg: Config, m: Nodes, h: Handle, c: Invocation, p: Pass, result: Json)
    requires WellFormed(cfg.enc, m) && cfg.enc.InjectiveIds() && h.cursor in m
    ensures
      var a := Complete(cfg, m, h, c, p, result);
      var stored := (p.rid.Some? ==> c.script.settleFault == None) &&
        CanStore(m, cfg.enc.nodeId(c.kind, Some(h.cursor), c.attempt, c.payload), result);
      a.built.Some? && !a.ended.Refused? && Stores(m, h, a, a.built.value, stored)
  {
    hide WellFormed, CallMeta, ChargesFor, Put, Stores, Recording;
    var a := Complete(cfg, m, h, c, p, result);
    var n := CallNode(cfg, h.cursor, c, p, result);
    PutSucceeds(cfg.enc, m, n);
    RecordingStores(cfg, m, h, n, a.ended, a.log);
    RecordingIsPut(cfg, m, h, n);
    StoresNothing(m, h, a, n);
  }

  lemma RecordingIsPut(cfg: Config, m: Nodes, h: Handle, n: Node)
    requires WellFormed(cfg.enc, m)
    ensures Recording(cfg, m, h, n).Some? <==> Put(cfg.enc, m, n).Ok?
  {
    hide WellFormed, Put;
  }

  lemma StoresNothing(m: Nodes, h: Handle, a: After, n: Node)
    ensures a.nodes == m && a.handle == h ==> Stores(m, h, a, n, false)
  {
  }

  lemma UnknownStores(cfg: Config, m: Nodes, h: Handle, c: Invocation, p: Pass, tag: Label, fault: Fault)
    requires WellFormed(cfg.enc, m) && cfg.enc.InjectiveIds() && h.cursor in m
    ensures
      var a := Unknown(cfg, m, h, c, p, tag, fault);
      a.built.Some? && a.ended == Failed && Stores(m, h, a, a.built.value, true)
  {
    hide WellFormed, FailureMeta, EstimatedCharges, Put, Stores, Recording;
    var a := Unknown(cfg, m, h, c, p, tag, fault);
    var n := FailureNode(cfg, h.cursor, c, p, tag, fault);
    PutSucceeds(cfg.enc, m, n);
    RecordingStores(cfg, m, h, n, a.ended, a.log);
    RecordingIsPut(cfg, m, h, n);
  }

  /** The node a dispatched call builds is stored, becomes the cursor and settles the budgets, unless the settlement
      of a result with the arbiter failed or the result cannot be stored; then nothing changed. */
  lemma DispatchStores(cfg: Config, m: Nodes, h: Handle, c: Invocation, p: Pass)
    requires WellFormed(cfg.enc, m) && cfg.enc.InjectiveIds() && h.cursor in m
    ensures
      var a, open := Dispatch(cfg, m, h, c, p), OpenFault(c.script, p.rid.Some?);
      var id := cfg.enc.nodeId(c.kind, Some(h.cursor), c.attempt, c.payload);
      && !a.ended.Refused?
      && if a.built == None then a.nodes == m && a.handle == h
         else Stores(m, h, a, a.built.value,
                     open.Some? || (c.script.step.Gave? && (p.rid.Some? ==> c.script.settleFault == None) &&
                                    CanStore(m, id, c.script.step.result)))
  {
    hide WellFormed, Unknown, Complete, CanStore, Stores;
    match ExitOf(c.script, p.rid) {
      case Abandoned =>
      case Unsure(tag, fault) => UnknownStores(cfg, m, h, c, p, tag, fault);
      case Completed(result) => CompleteStores(cfg, m, h, c, p, result);
    }
  }
}

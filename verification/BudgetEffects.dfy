/** What one operation does to the recorded spend and to the budget scopes of its handle. */
module BudgetEffects {
  import opened JsonValue
  import opened Forest
  import opened Store
  import opened Spending
  import opened Governor
  import opened Lifecycle
  import opened Operations
  import opened CallRecords

  // ---------------------------------------------------------------- charges of the nodes a run writes

  lemma PutSpend(enc: Encoding, m: Nodes, n: Node, anchor: Id, meter: string)
    requires WellFormed(enc, m) && Put(enc, m, n).Ok? && anchor in m
    ensures
      var m' := Put(enc, m, n).value;
      && WellFormed(enc, m') && IsForest(m) && IsForest(m') && anchor in m'
      && Spent(m', anchor, meter) == Spent(m, anchor, meter) +
        if n.id !in m && n.parent.Some? && IsAncestor(m, anchor, n.parent.value) then ChargeOf(n, meter) else 0
  {
    hide Spent, ChargeOf, IsAncestor;
    PutWellFormed(enc, m, n);
    var m' := Put(enc, m, n).value;
    if n.id in m {
      PutKeepsCharges(enc, m, n);
      SpentSame(m, m', anchor, meter);
    } else {
      SpentInsert(m, n, anchor, meter);
    }
  }

  lemma CreatedUncharged(n: Node, now: string, meter: string)
    requires n.meta == Created(now)
    ensures ChargeOf(n, meter) == 0 && CleanNode(n)
  {
  }

  lemma ChargesJsonAmount(n: Node, amounts: Totals, meter: string)
    requires Get(n.meta, "charges") == Some(ChargesJson(amounts))
    ensures ChargeOf(n, meter) == Amount(amounts, meter) && CleanNode(n)
  {
  }

  // ---------------------------------------------------------------- effect of a call

  /** The spend below `anchor` is what it was, and so are the scopes. */
  ghost predicate Untouched(m: Nodes, h: Handle, a: After, anchor: Id, meter: string)
    requires IsForest(m)
  {
    IsForest(a.nodes) && Spent(a.nodes, anchor, meter) == Spent(m, anchor, meter) && a.handle.scopes == h.scopes
  }

  /** A node was built and stored: its charge was added once at most, and the scopes were settled after it. */
  ghost predicate Accounted(m: Nodes, h: Handle, a: After, anchor: Id, meter: string)
    requires IsForest(m)
  {
    && IsForest(a.nodes) && a.built.Some?
    && (Spent(a.nodes, anchor, meter) == Spent(m, anchor, meter) ||
        Spent(a.nodes, anchor, meter) == Spent(m, anchor, meter) + ChargeOf(a.built.value, meter))
    && a.handle.scopes == SettledScopes(a.nodes, h.scopes)
  }

  lemma RefusingEffect(cfg: Config, m: Nodes, h: Handle, payload: Dict, now: string, log: seq<ArbiterCall>,
      anchor: Id, meter: string)
    requires WellFormed(cfg.enc, m) && IsForest(m) && anchor in m
    ensures Untouched(m, h, Refusing(cfg, m, h, payload, now, log), anchor, meter)
  {
    hide WellFormed, Put, Spent, IsForest, ChargeOf;
    var n := cfg.enc.Make(Refusal, Some(h.cursor), 0, payload, None, Created(now));
    CreatedUncharged(n, now, meter);
    if Put(cfg.enc, m, n).Ok? { PutSpend(cfg.enc, m, n, anchor, meter); }
  }

  lemma RecordingEffect(cfg: Config, m: Nodes, h: Handle, n: Node, anchor: Id, meter: string, ended: Ended,
      log: seq<ArbiterCall>)
    requires WellFormed(cfg.enc, m) && IsForest(m) && anchor in m
    ensures match Recording(cfg, m, h, n)
      case None => true
      case Some(done) => Accounted(m, h, After(done.0, done.1, ended, log, Some(n)), anchor, meter)
  {
    hide WellFormed, Put, Spent, IsForest, ChargeOf, SettledScope;
    if Put(cfg.enc, m, n).Ok? { PutSpend(cfg.enc, m, n, anchor, meter); }
  }

  lemma UnknownEffect(cfg: Config, m: Nodes, h: Handle, c: Invocation, p: Pass, tag: Label, fault: Fault,
      anchor: Id, meter: string)
    requires WellFormed(cfg.enc, m) && IsForest(m) && anchor in m
    ensures
      var a := Unknown(cfg, m, h, c, p, tag, fault);
      Untouched(m, h, a, anchor, meter) || Accounted(m, h, a, anchor, meter)
  {
    hide WellFormed, Recording, Spent, IsForest, FailureNode, EstimatedCharges, Accounted;
    RecordingEffect(cfg, m, h, FailureNode(cfg, h.cursor, c, p, tag, fault), anchor, meter, Failed,
                    SettleEvents(p.rid, EstimatedCharges(p.estimates)));
  }

  lemma CompleteEffect(cfg: Config, m: Nodes, h: Handle, c: Invocation, p: Pass, result: Json,
      anchor: Id, meter: string)
    requires WellFormed(cfg.enc, m) && IsForest(m) && anchor in m
    ensures
      var a := Complete(cfg, m, h, c, p, result);
      Untouched(m, h, a, anchor, meter) || Accounted(m, h, a, anchor, meter)
  {
    hide WellFormed, Recording, Spent, IsForest, CallNode, ChargesFor, Accounted;
    var a := Complete(cfg, m, h, c, p, result);
    RecordingEffect(cfg, m, h, a.built.value, anchor, meter, a.ended, a.log);
  }

  lemma DispatchEffect(cfg: Config, m: Nodes, h: Handle, c: Invocation, p: Pass, anchor: Id, meter: string)
    requires WellFormed(cfg.enc, m) && IsForest(m) && anchor in m
    ensures
      var a := Dispatch(cfg, m, h, c, p);
      Untouched(m, h, a, anchor, meter) || Accounted(m, h, a, anchor, meter)
  {
    hide WellFormed, Unknown, Complete, IsForest, Spent, Accounted, ExitOf;
    match ExitOf(c.script, p.rid) {
      case Abandoned =>
      case Unsure(tag, fault) => UnknownEffect(cfg, m, h, c, p, tag, fault, anchor, meter);
      case Completed(result) => CompleteEffect(cfg, m, h, c, p, result, anchor, meter);
    }
  }

  /** Only a call whose precheck passed changes the spend or the scopes. */
  lemma CallEffect(cfg: Config, m: Nodes, h: Handle, c: Invocation, anchor: Id, meter: string)
    requires WellFormed(cfg.enc, m) && IsForest(m) && h.cursor in m && anchor in m
    ensures
      var a := CallOutcome(cfg, m, h, c);
      || Untouched(m, h, a, anchor, meter)
      || (cfg.mode == Record && Precheck(cfg, m, h, c.kind, c.payload).Clear? && Accounted(m, h, a, anchor, meter))
  {
    hide WellFormed, Dispatch, Refusing, Precheck, IsForest, Spent, SettledScopes, ChargeOf, RejectedPayload;
    if FindRecorded(cfg, m, h.cursor, c) == Live {
      match Precheck(cfg, m, h, c.kind, c.payload) {
        case Blocked(refusal) => RefusingEffect(cfg, m, h, refusal, c.script.now, [], anchor, meter);
        case Raised =>
        case Clear(estimates, approximate) =>
          DispatchEffect(cfg, m, h, c, Pass(estimates, None), anchor, meter);
          DispatchEffect(cfg, m, h, c, Pass(estimates, Some(c.script.reservationId)), anchor, meter);
          if c.script.answer.Rejected? {
            var rejected := RejectedPayload(cfg, c.kind, c.payload, c.script.answer, approximate);
            RefusingEffect(cfg, m, h, rejected, c.script.now, [Reserve(c.script.reservationId, false)], anchor, meter);
          }
      }
    }
  }

  /** Notes and rollbacks charge nothing and settle nothing. */
  lemma NoteEffect(cfg: Config, m: Nodes, h: Handle, payload: Dict, attempt: nat, now: string, anchor: Id,
      meter: string)
    requires WellFormed(cfg.enc, m) && IsForest(m) && h.cursor in m && anchor in m
    ensures Untouched(m, h, PlaceNote(cfg, m, h, payload, attempt, now), anchor, meter)
  {
    hide WellFormed, Refusing, Precheck, IsForest, Spent, Put, ChargeOf;
    var checked := if cfg.mode == Record then Precheck(cfg, m, h, Note, payload) else Clear([], {});
    if checked.Blocked? {
      RefusingEffect(cfg, m, h, checked.payload, now, [], anchor, meter);
    } else if checked.Clear? {
      var n := NoteNode(cfg, h.cursor, payload, attempt, now);
      CreatedUncharged(n, now, meter);
      if Put(cfg.enc, m, n).Ok? { PutSpend(cfg.enc, m, n, anchor, meter); }
    }
  }

  lemma PerformEffect(cfg: Config, m: Nodes, h: Handle, op: Op, anchor: Id, meter: string)
    requires WellFormed(cfg.enc, m) && IsForest(m) && h.cursor in m && anchor in m
    ensures
      var a := Perform(cfg, m, h, op).after;
      || Untouched(m, h, a, anchor, meter)
      || (op.Call? && cfg.mode == Record && Precheck(cfg, m, h, op.call.kind, op.call.payload).Clear? &&
          Accounted(m, h, a, anchor, meter))
    ensures
      var child := Perform(cfg, m, h, op).child;
      child.Some? ==> op.Branch? && child.value.scopes == ChildScopes(h.scopes, op.budget, child.value.cursor)
  {
    hide WellFormed, IsForest, CallOutcome, PlaceNote, Precheck, Spent, SettledScopes, ChargeOf, ChildScopes;
    match op {
      case Call(c) => CallEffect(cfg, m, h, c, anchor, meter);
      case WriteNote(payload, attempt, now) => NoteEffect(cfg, m, h, payload, attempt, now, anchor, meter);
      case Rollback(target, steps) =>
      case Branch(attempt, budget, now) => NoteEffect(cfg, m, h, BRANCH_PAYLOAD, attempt, now, anchor, meter);
    }
  }

  // ---------------------------------------------------------------- estimates and charges of one meter

  /** The meter called `meter` is `meters[k]`, and no other one. */
  predicate OnlyMeter(meters: seq<Meter>, k: nat, meter: string) {
    && k < |meters| && meters[k].name == meter && meter != "depth"
    && forall j | 0 <= j < |meters| && j != k :: meters[j].name != meter
  }

  lemma {:induction false} LookupSet(items: Estimates, name: string, amount: int, other: string)
    ensures Lookup(SetItem(items, name, amount), other) == if other == name then Some(amount) else Lookup(items, other)
  {
    if items != [] && items[0].0 != name {
      LookupSet(items[1..], name, amount, other);
      assert ([items[0]] + SetItem(items[1..], name, amount))[1..] == SetItem(items[1..], name, amount);
    }
  }

  lemma {:induction false} LookupMember(items: Estimates, name: string)
    ensures Lookup(items, name).Some? ==> (name, Lookup(items, name).value) in items && name in Names(items)
  {
    if items != [] {
      if items[0].0 != name {
        LookupMember(items[1..], name);
        if Lookup(items[1..], name).Some? {
          var i :| 0 <= i < |items[1..]| && items[1..][i] == (name, Lookup(items, name).value);
          assert items[i + 1] == items[1..][i];
        }
      } else {
        assert items[0] == (name, items[0].1);
      }
    }
  }

  lemma {:induction false} EstimateUnnamed(meters: seq<Meter>, kind: Kind, payload: Dict, meter: string)
    requires forall j | 0 <= j < |meters| :: meters[j].name != meter
    ensures Lookup(EstimateMeters(meters, kind, payload).estimates, meter) == None
  {
    if meters != [] {
      EstimateUnnamed(meters[..|meters| - 1], kind, payload, meter);
      var before := EstimateMeters(meters[..|meters| - 1], kind, payload);
      var last := meters[|meters| - 1];
      if last.estimate(kind, payload).Estimated? {
        LookupSet(before.estimates, last.name, last.estimate(kind, payload).amount, meter);
      }
    }
  }

  function AmountIf(e: Estimate): Option<int> {
    match e case Estimated(amount) => Some(amount) case _ => None
  }

  lemma {:induction false} EstimateNamed(meters: seq<Meter>, k: nat, kind: Kind, payload: Dict, meter: string)
    requires OnlyMeter(meters, k, meter)
    requires EstimateMeters(meters, kind, payload).refusal == None
    ensures Lookup(EstimateMeters(meters, kind, payload).estimates, meter) ==
      AmountIf(meters[k].estimate(kind, payload))
  {
    var front, last := meters[..|meters| - 1], meters[|meters| - 1];
    var before := EstimateMeters(front, kind, payload);
    if last.estimate(kind, payload).Estimated? {
      LookupSet(before.estimates, last.name, last.estimate(kind, payload).amount, meter);
    }
    if k == |meters| - 1 {
      EstimateUnnamed(front, kind, payload, meter);
    } else {
      EstimateNamed(front, k, kind, payload, meter);
    }
  }

  /** After a passed precheck the estimate of the meter is the one the meter gave. */
  lemma ClearEstimate(cfg: Config, m: Nodes, h: Handle, kind: Kind, payload: Dict, k: nat, meter: string)
    requires IsForest(m) && h.cursor in m && OnlyMeter(cfg.meters, k, meter)
    requires Precheck(cfg, m, h, kind, payload).Clear?
    ensures
      var estimates := Precheck(cfg, m, h, kind, payload).estimates;
      && Lookup(estimates, meter) == AmountIf(cfg.meters[k].estimate(kind, payload))
      && (Lookup(estimates, meter).Some? ==> (meter, Lookup(estimates, meter).value) in estimates)
      && forall s | s in h.scopes :: CheckScope(m, s, estimates) == Passed
  {
    hide CheckScope, IsForest, EstimateMeters, Lookup, SetItem;
    var e := EstimateMeters(cfg.meters, kind, payload).estimates;
    var estimates := Precheck(cfg, m, h, kind, payload).estimates;
    EstimateNamed(cfg.meters, k, kind, payload, meter);
    LookupSet(e, "depth", Depth(m, h.cursor) + 1, meter);
    LookupMember(estimates, meter);
    AllScopesPass(m, h.scopes, estimates);
  }

  lemma {:induction false} ChargeUnnamed(meters: seq<Meter>, kind: Kind, payload: Dict, result: Json, meta: Dict,
                                         estimates: Estimates, meter: string)
    requires forall j | 0 <= j < |meters| :: meters[j].name != meter
    ensures Amount(ChargeMeters(meters, kind, payload, result, meta, estimates).amounts, meter) == 0
  {
    if meters != [] { ChargeUnnamed(meters[..|meters| - 1], kind, payload, result, meta, estimates, meter); }
  }

  /** The charges of a call hold exactly what its meter measured, or the estimate it fell back to. */
  lemma {:induction false} ChargeNamed(meters: seq<Meter>, k: nat, kind: Kind, payload: Dict, result: Json, meta: Dict,
                                       estimates: Estimates, meter: string)
    requires OnlyMeter(meters, k, meter)
    ensures Amount(ChargeMeters(meters, kind, payload, result, meta, estimates).amounts, meter) ==
      MeterAmount(meters[k], kind, payload, result, meta, estimates)
  {
    hide MeterAmount, FallbackReason;
    var front := meters[..|meters| - 1];
    if k == |meters| - 1 {
      ChargeUnnamed(front, kind, payload, result, meta, estimates, meter);
    } else {
      ChargeNamed(front, k, kind, payload, result, meta, estimates, meter);
    }
  }

  /** The result reports how many tokens went in and came out. */
  ghost predicate ReportsUsage(result: Json) {
    exists fields, usage, taken: nat, given: nat | result == Obj(fields) && "usage" in fields ::
      && fields["usage"] == Obj(usage) && "input_tokens" in usage && "output_tokens" in usage
      && usage["input_tokens"] == Num(taken) && usage["output_tokens"] == Num(given)
  }

  lemma UsageReported(result: Json)
    ensures HasUsage(result) <==> ReportsUsage(result)
  {
    if HasUsage(result) {
      var fields := result.fields;
      var usage := fields["usage"].fields;
      assert result == Obj(fields) && fields["usage"] == Obj(usage);
      assert usage["input_tokens"] == Num(usage["input_tokens"].n);
      assert usage["output_tokens"] == Num(usage["output_tokens"].n);
    }
  }

  /** A meter charges what it measured. Where that is nothing, a meter that only estimates falls back to its estimate
      when the result reports no usage or the meter gives a reason. */
  lemma AmountExactly(meter: Meter, kind: Kind, payload: Dict, result: Json, meta: Dict, estimates: Estimates)
    ensures
      var measured, foreseen := meter.charge(kind, payload, result, meta), Lookup(estimates, meter.name);
      var reason := meter.fallback(kind, payload, result, meta);
      var falls := measured == 0 && meter.isEstimate && (!ReportsUsage(result) || (reason.Some? && reason.value != ""));
      MeterAmount(meter, kind, payload, result, meta, estimates) ==
        if falls && foreseen.Some? then foreseen.value else measured
  {
    hide ReportsUsage, HasUsage;
    UsageReported(result);
  }

  lemma EstimatedAmount(estimates: Estimates, meter: string)
    requires meter != "depth"
    ensures Amount(EstimatedCharges(estimates), meter) == EstimatedOr0(estimates, meter)
  {
    LookupMember(estimates, meter);
  }

  function EstimatedOr0(estimates: Estimates, meter: string): int {
    if Lookup(estimates, meter).Some? then Lookup(estimates, meter).value else 0
  }

  /** The amount a result is charged under the meter `cfg.meters[k]`. */
  function ResultAmount(cfg: Config, c: Invocation, p: Pass, k: nat, result: Json): int
    requires k < |cfg.meters|
  {
    MeterAmount(cfg.meters[k], c.kind, c.payload, result, c.script.gathered, p.estimates)
  }

  lemma UnknownBuilt(cfg: Config, m: Nodes, h: Handle, c: Invocation, p: Pass, tag: Label, fault: Fault, meter: string)
    requires WellFormed(cfg.enc, m) && meter != "depth"
    ensures
      var a := Unknown(cfg, m, h, c, p, tag, fault);
      a.built.Some? && ChargeOf(a.built.value, meter) == EstimatedOr0(p.estimates, meter)
  {
    hide WellFormed, Recording, FailureNode, ChargeOf, EstimatedCharges, Lookup, ChargesJson;
    FailureCharges(cfg, h.cursor, c, p, tag, fault);
    ChargesJsonAmount(FailureNode(cfg, h.cursor, c, p, tag, fault), EstimatedCharges(p.estimates), meter);
    EstimatedAmount(p.estimates, meter);
  }

  lemma CompleteBuilt(cfg: Config, m: Nodes, h: Handle, c: Invocation, p: Pass, result: Json, k: nat, meter: string)
    requires WellFormed(cfg.enc, m) && OnlyMeter(cfg.meters, k, meter)
    ensures
      var a := Complete(cfg, m, h, c, p, result);
      a.built.Some? && ChargeOf(a.built.value, meter) == ResultAmount(cfg, c, p, k, result)
  {
    hide WellFormed, Recording, ChargeOf, MeterAmount, ChargesJson, CallNode, ChargeMeters;
    BuiltCharges(cfg, h.cursor, c, p, result);
    ChargesJsonAmount(CallNode(cfg, h.cursor, c, p, result), ChargesFor(cfg, c, p, result).amounts, meter);
    ChargeNamed(cfg.meters, k, c.kind, c.payload, result, c.script.gathered, p.estimates, meter);
  }

  /** The charge of the node a dispatched call builds: its estimate exactly when the outcome stays open, else the
      measured amount. */
  lemma BuiltCharge(cfg: Config, m: Nodes, h: Handle, c: Invocation, p: Pass, k: nat, meter: string)
    requires WellFormed(cfg.enc, m) && OnlyMeter(cfg.meters, k, meter)
    ensures
      var a := Dispatch(cfg, m, h, c, p);
      a.built.Some? ==>
        if OpenFault(c.script, p.rid.Some?).Some?
        then ChargeOf(a.built.value, meter) == EstimatedOr0(p.estimates, meter)
        else
          c.script.step.Gave? && ChargeOf(a.built.value, meter) == ResultAmount(cfg, c, p, k, c.script.step.result)
  {
    hide WellFormed, Unknown, Complete, ChargeOf, ResultAmount, EstimatedOr0;
    match ExitOf(c.script, p.rid) {
      case Abandoned =>
      case Unsure(tag, fault) => UnknownBuilt(cfg, m, h, c, p, tag, fault, meter);
      case Completed(result) => CompleteBuilt(cfg, m, h, c, p, result, k, meter);
    }
  }

  /** The same for a whole call. */
  lemma CallCharge(cfg: Config, m: Nodes, h: Handle, c: Invocation, k: nat, meter: string)
    requires WellFormed(cfg.enc, m) && IsForest(m) && h.cursor in m && OnlyMeter(cfg.meters, k, meter)
    ensures
      var a := CallOutcome(cfg, m, h, c);
      a.built.Some? ==>
        && Precheck(cfg, m, h, c.kind, c.payload).Clear?
        && var p := Pass(Precheck(cfg, m, h, c.kind, c.payload).estimates, None);
        if OpenFault(c.script, cfg.arbitrated && h.scopes != []).Some?
        then ChargeOf(a.built.value, meter) == EstimatedOr0(p.estimates, meter)
        else
          c.script.step.Gave? && ChargeOf(a.built.value, meter) == ResultAmount(cfg, c, p, k, c.script.step.result)
  {
    hide WellFormed, IsForest, Precheck, Dispatch, ChargeOf, MeterAmount, EstimatedOr0, RejectedPayload;
    if FindRecorded(cfg, m, h.cursor, c) == Live {
      var checked := Precheck(cfg, m, h, c.kind, c.payload);
      if checked.Clear? {
        BuiltCharge(cfg, m, h, c, Pass(checked.estimates, None), k, meter);
        BuiltCharge(cfg, m, h, c, Pass(checked.estimates, Some(c.script.reservationId)), k, meter);
      }
    }
  }
}

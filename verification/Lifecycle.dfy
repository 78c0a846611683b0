/** One governed call, from its precheck to its last store write, for every way it can end. */
module Lifecycle {
  import opened JsonValue
  import opened Forest
  import opened Store
  import opened Spending
  import opened Governor

  datatype Mode = Record | Replay

  /** The answer of `precheck_estimate`, which may refuse by itself. */
  datatype Estimate =
    | NoEstimate
    | Estimated(amount: int)
    | Refuses(reason: string, detail: Option<string>, requested: Option<string>, remaining: Option<string>)

  /** `fallback` gives the reason to charge the estimate although the provider reported usage. */
  datatype Meter = Meter(
    name: string,
    isEstimate: bool,
    estimate: (Kind, Dict) -> Estimate,
    charge: (Kind, Dict, Json, Dict) -> int,
    fallback: (Kind, Dict, Json, Dict) -> Option<string>)

  /** `arbitrated` tells whether the store also arbitrates reservations. */
  datatype Config = Config(
    enc: Encoding, meters: seq<Meter>, mode: Mode, refuseDuplicates: bool, arbitrated: bool, digest: Dict -> Digest)

  /** The cursor and budget scopes of a run or of one of its branches. */
  datatype Handle = Handle(cursor: Id, scopes: seq<Scope>)

  // ---------------------------------------------------------------- the environment of a call

  /** An exception, and whether it is marked as raised after the dispatch. */
  datatype Fault = Fault(name: string, marked: bool)

  datatype StepOutcome = Gave(result: Json) | Threw(fault: Fault)

  datatype Answer = Granted | Rejected(reason: string, meter: Option<string>, requested: int, remaining: int)

  /** Everything outside the runtime that decides how a call goes. `gathered` is the metadata measured for it. */
  datatype Script = Script(
    now: string,
    gathered: Dict,
    answer: Answer,
    reservationId: string,
    freshId: string,
    step: StepOutcome,
    measurement: Option<Fault>,
    leaseLost: Option<string>,
    leaseFault: Option<Fault>,
    processingFault: Option<Fault>,
    settleFault: Option<Fault>,
    releaseFault: Option<Fault>)

  predicate IsCallKind(kind: Kind) {
    kind == ModelCall || kind == ToolCall
  }

  type CallKind = kind: Kind | IsCallKind(kind) witness ModelCall

  /** A call as its caller makes it, and how the world answers. */
  datatype Invocation = Invocation(kind: CallKind, payload: Dict, attempt: nat, script: Script)

  /** What let a call through: its estimates, and its reservation if it has one. */
  datatype Pass = Pass(estimates: Estimates, rid: Option<string>)

  /** What the arbiter sees. */
  datatype ArbiterCall =
    | Reserve(id: string, granted: bool)
    | Settle(id: string, charges: Totals)
    | Release(id: string)

  datatype Ended = Returned(node: Node) | Refused(id: Id) | Failed

  /** `built` is the node constructed to record the call or its unknown outcome. */
  datatype After = After(nodes: Nodes, handle: Handle, ended: Ended, log: seq<ArbiterCall>, built: Option<Node>)

  // ---------------------------------------------------------------- estimates

  /** Assignment to a dictionary that remembers insertion order. */
  function SetItem(items: Estimates, name: string, amount: int): Estimates {
    if items == [] then [(name, amount)]
    else if items[0].0 == name then [(name, amount)] + items[1..]
    else [items[0]] + SetItem(items[1..], name, amount)
  }

  function Lookup(items: Estimates, name: string): Option<int> {
    if items == [] then None
    else if items[0].0 == name then Some(items[0].1)
    else Lookup(items[1..], name)
  }

  datatype Estimation = Estimation(estimates: Estimates, approximate: set<string>, refusal: Option<(string, Estimate)>)

  /** The loop over the meters; it stops at the first that refuses. */
  function EstimateMeters(meters: seq<Meter>, kind: Kind, payload: Dict): Estimation {
    if meters == [] then Estimation([], {}, None)
    else
      var before, meter := EstimateMeters(meters[..|meters| - 1], kind, payload), meters[|meters| - 1];
      if before.refusal.Some? then before
      else
        match meter.estimate(kind, payload)
        case NoEstimate => before
        case Estimated(amount) =>
          Estimation(SetItem(before.estimates, meter.name, amount),
                     before.approximate + if meter.isEstimate then {meter.name} else {}, None)
        case refusal => before.(refusal := Some((meter.name, refusal)))
  }

  ghost function Depth(m: Nodes, x: Id): nat
    requires IsForest(m) && x in m
    decreases Ceiling(Height(m)) - Height(m)[x]
  {
    if m[x].parent == None then 0 else 1 + Depth(m, m[x].parent.value)
  }

  /** `_estimates`, when no meter refuses. */
  ghost function EstimatesFor(cfg: Config, m: Nodes, cursor: Id, kind: Kind, payload: Dict): Estimates
    requires IsForest(m) && cursor in m
  {
    SetItem(EstimateMeters(cfg.meters, kind, payload).estimates, "depth", Depth(m, cursor) + 1)
  }

  // ---------------------------------------------------------------- refusals

  function TextIf(key: string, text: Option<string>): Dict {
    if text.Some? then map[key := Str(text.value)] else map[]
  }

  function RefusalPayload(cfg: Config, kind: Kind, payload: Dict, reason: string, meter: string,
                          requested: Option<string>, remaining: Option<string>, detail: Option<string>,
                          estimated: bool): Dict {
    map["reason" := Str(reason), "meter" := Str(meter), "blocked_kind" := Str(kind.Name()),
        "blocked_payload_digest" := Str(cfg.digest(payload))]
    + TextIf("requested", requested) + TextIf("remaining", remaining) + TextIf("detail", detail)
    + if estimated then map["estimated" := Str("true")] else map[]
  }

  function NumberText(cfg: Config, n: int): Option<string> {
    Some(cfg.enc.str(Num(n)))
  }

  function ShortPayload(cfg: Config, kind: Kind, payload: Dict, s: Shortfall, approximate: set<string>): Dict {
    RefusalPayload(cfg, kind, payload, "budget", s.meter, NumberText(cfg, s.requested), NumberText(cfg, s.remaining),
                   None, s.meter in approximate)
  }

  function MeterPayload(cfg: Config, kind: Kind, payload: Dict, refusal: (string, Estimate)): Dict
    requires refusal.1.Refuses?
  {
    RefusalPayload(cfg, kind, payload, refusal.1.reason, refusal.0, refusal.1.requested, refusal.1.remaining,
                   refusal.1.detail, false)
  }

  function RejectedPayload(cfg: Config, kind: Kind, payload: Dict, a: Answer, approximate: set<string>): Dict
    requires a.Rejected?
  {
    RefusalPayload(cfg, kind, payload, a.reason, if a.meter.Some? then a.meter.value else "unknown",
                   NumberText(cfg, a.requested), NumberText(cfg, a.remaining), None,
                   a.meter.Some? && a.meter.value in approximate)
  }

  function Created(now: string): Dict {
    map["created_at" := Str(now)]
  }

  /** `_refuse`: the refusal becomes the cursor. */
  function Refusing(cfg: Config, m: Nodes, h: Handle, payload: Dict, now: string, log: seq<ArbiterCall>): After {
    var n := cfg.enc.Make(Refusal, Some(h.cursor), 0, payload, None, Created(now));
    match Put(cfg.enc, m, n)
    case Ok(m') => After(m', h.(cursor := n.id), Refused(n.id), log, None)
    case Err(_) => After(m, h, Failed, log, None)
  }

  /** `Raised` when the charges below a budget anchor cannot be added up. */
  datatype Prechecked = Blocked(payload: Dict) | Raised | Clear(estimates: Estimates, approximate: set<string>)

  lemma {:induction false} RefusalRefuses(meters: seq<Meter>, kind: Kind, payload: Dict)
    ensures
      var e := EstimateMeters(meters, kind, payload);
      e.refusal.Some? ==> e.refusal.value.1.Refuses?
  {
    if meters != [] { RefusalRefuses(meters[..|meters| - 1], kind, payload); }
  }

  /** The estimates and budget checks of `_precheck`. */
  ghost function Precheck(cfg: Config, m: Nodes, h: Handle, kind: Kind, payload: Dict): Prechecked
    requires IsForest(m) && h.cursor in m
  {
    RefusalRefuses(cfg.meters, kind, payload);
    var e := EstimateMeters(cfg.meters, kind, payload);
    if e.refusal.Some? then Blocked(MeterPayload(cfg, kind, payload, e.refusal.value))
    else
      var estimates := EstimatesFor(cfg, m, h.cursor, kind, payload);
      match CheckScopes(m, h.scopes, estimates)
      case Short(s) => Blocked(ShortPayload(cfg, kind, payload, s, e.approximate))
      case Unreadable => Raised
      case Passed => Clear(estimates, e.approximate)
  }

  // ---------------------------------------------------------------- charges

  predicate IsCount(v: Option<Json>) {
    v.Some? && v.value.Num? && v.value.n >= 0
  }

  /** `_has_compatible_usage`. */
  predicate HasUsage(result: Json) {
    match result
    case Obj(fields) =>
      (match Get(fields, "usage")
       case Some(Obj(usage)) => IsCount(Get(usage, "input_tokens")) && IsCount(Get(usage, "output_tokens"))
       case _ => false)
    case _ => false
  }

  const MISSING_USAGE := "missing_or_invalid_provider_usage"

  function FallbackReason(meter: Meter, kind: Kind, payload: Dict, result: Json, meta: Dict,
      estimates: Estimates): Option<string> {
    if meter.charge(kind, payload, result, meta) != 0 then None
    else if Lookup(estimates, meter.name) == None || !meter.isEstimate then None
    else if !HasUsage(result) then Some(MISSING_USAGE)
    else
      match meter.fallback(kind, payload, result, meta)
      case Some(reason) => if reason == "" then None else Some(reason)
      case None => None
  }

  /** What one meter charges: its own amount, or the estimate it falls back to. */
  function MeterAmount(meter: Meter, kind: Kind, payload: Dict, result: Json, meta: Dict, estimates: Estimates): int {
    if FallbackReason(meter, kind, payload, result, meta, estimates).Some? then Lookup(estimates, meter.name).value
    else meter.charge(kind, payload, result, meta)
  }

  datatype Charging = Charging(amounts: Totals, fallbacks: Dict)

  function FallbackEntry(reason: string): Json {
    Obj(map["reason" := Str(reason), "source" := Str("precheck_estimate")])
  }

  /** `_charges`. */
  function ChargeMeters(meters: seq<Meter>, kind: Kind, payload: Dict, result: Json, meta: Dict,
      estimates: Estimates): Charging {
    if meters == [] then Charging(map[], map[])
    else
      var meter := meters[|meters| - 1];
      var before := ChargeMeters(meters[..|meters| - 1], kind, payload, result, meta, estimates);
      var amount := MeterAmount(meter, kind, payload, result, meta, estimates);
      var reason := FallbackReason(meter, kind, payload, result, meta, estimates);
      Charging(if amount != 0 then before.amounts[meter.name := amount] else before.amounts,
               if reason.Some? then before.fallbacks[meter.name := FallbackEntry(reason.value)] else before.fallbacks)
  }

  function ChargesJson(amounts: Totals): Json {
    Obj(map k | k in amounts :: Num(amounts[k]))
  }

  /** `_estimated_charges`. */
  function EstimatedCharges(estimates: Estimates): Totals {
    map k | k in Names(estimates) && k != "depth" && Lookup(estimates, k).Some? && Lookup(estimates, k).value != 0 ::
      Lookup(estimates, k).value
  }

  function Names(estimates: Estimates): set<string> {
    set i | 0 <= i < |estimates| :: estimates[i].0
  }

  // ---------------------------------------------------------------- the nodes a call records

  function LostLease(lost: Option<string>): Dict {
    if lost.Some? then map["reservation_lease" := Obj(map["status" := Str("lost"), "detail" := Str(lost.value)])]
    else map[]
  }

  /** The detail of a lease lost during the call. */
  function Lost(c: Invocation, p: Pass): Option<string> {
    if p.rid.Some? && c.script.leaseFault == None then c.script.leaseLost else None
  }

  function UsageOf(result: Json): Dict {
    match result
    case Obj(fields) =>
      (match Get(fields, "usage")
       case Some(Obj(usage)) => map["usage" := Obj(usage)]
       case _ => map[])
    case _ => map[]
  }

  function CallMeta(gathered: Dict, c: Charging, result: Json, lost: Option<string>): Dict {
    gathered + (if c.fallbacks != map[] then map["accounting_fallbacks" := Obj(c.fallbacks)] else map[])
    + UsageOf(result) + LostLease(lost) + map["charges" := ChargesJson(c.amounts)]
  }

  /** What the meters charge for a result. */
  function ChargesFor(cfg: Config, c: Invocation, p: Pass, result: Json): Charging {
    ChargeMeters(cfg.meters, c.kind, c.payload, result, c.script.gathered, p.estimates)
  }

  /** The node that records a result. */
  function CallNode(cfg: Config, cursor: Id, c: Invocation, p: Pass, result: Json): Node {
    cfg.enc.Make(c.kind, Some(cursor), c.attempt, c.payload, Some(result),
                 CallMeta(c.script.gathered, ChargesFor(cfg, c, p, result), result, Lost(c, p)))
  }

  /** How the record of an unknown outcome describes itself. */
  datatype Label = Label(event: string, outcome: string, phase: string)

  const UNKNOWN := Label("call_outcome_unknown", "unknown", "post_dispatch")
  const UNRECORDED := Label("call_recording_failed", "completed_unrecorded", "post_result_processing")

  function Uncertain(c: Invocation, p: Pass): Dict {
    match c.script.settleFault
    case Some(fault) =>
      if p.rid.Some?
      then map["settlement" := Obj(map["status" := Str("uncertain"), "error_type" := Str(fault.name)])]
      else map[]
    case None => map[]
  }

  function FailureMeta(c: Invocation, p: Pass, tag: Label, fault: Fault): Dict {
    Created(c.script.now)
    + map["failure" := Obj(map["outcome" := Str(tag.outcome), "phase" := Str(tag.phase),
                               "error_type" := Str(fault.name)])]
    + TextIf("reservation_id", p.rid) + LostLease(Lost(c, p)) + Uncertain(c, p)
    + map["charges" := ChargesJson(EstimatedCharges(p.estimates))]
  }

  function FailureNode(cfg: Config, cursor: Id, c: Invocation, p: Pass, tag: Label, fault: Fault): Node {
    cfg.enc.Make(Note, Some(cursor), c.attempt,
      map["event" := Str(tag.event), "event_id" := Str(if p.rid.Some? then p.rid.value else c.script.freshId),
          "blocked_kind" := Str(c.kind.Name()), "blocked_payload_digest" := Str(cfg.digest(c.payload))],
      None, FailureMeta(c, p, tag, fault))
  }

  // ---------------------------------------------------------------- how a dispatched call ends

  function SettleEvents(rid: Option<string>, charges: Totals): seq<ArbiterCall> {
    if rid.Some? then [Settle(rid.value, charges)] else []
  }

  function ReleaseEvents(rid: Option<string>): seq<ArbiterCall> {
    if rid.Some? then [Release(rid.value)] else []
  }

  /** Puts a node, moves the cursor to it and settles the scopes. */
  ghost function Recording(cfg: Config, m: Nodes, h: Handle, n: Node): Option<(Nodes, Handle)>
    requires WellFormed(cfg.enc, m)
  {
    match Put(cfg.enc, m, n)
    case Err(_) => None
    case Ok(m') =>
      PutWellFormed(cfg.enc, m, n);
      Some((m', Handle(n.id, SettledScopes(m', h.scopes))))
  }

  /** `_record_unknown_outcome`, after which the call raises. */
  ghost function Unknown(cfg: Config, m: Nodes, h: Handle, c: Invocation, p: Pass, tag: Label, fault: Fault): After
    requires WellFormed(cfg.enc, m)
  {
    var n := FailureNode(cfg, h.cursor, c, p, tag, fault);
    var log := SettleEvents(p.rid, EstimatedCharges(p.estimates));
    match Recording(cfg, m, h, n)
    case Some(done) => After(done.0, done.1, Failed, log, Some(n))
    case None => After(m, h, Failed, log, Some(n))
  }

  /** The settlement and recording of a call that gave a result. */
  ghost function Complete(cfg: Config, m: Nodes, h: Handle, c: Invocation, p: Pass, result: Json): After
    requires WellFormed(cfg.enc, m)
  {
    var n := CallNode(cfg, h.cursor, c, p, result);
    var log := SettleEvents(p.rid, ChargesFor(cfg, c, p, result).amounts);
    if p.rid.Some? && c.script.settleFault.Some? then After(m, h, Failed, log, Some(n))
    else
      match Recording(cfg, m, h, n)
      case None => After(m, h, Failed, log, Some(n))
      case Some(done) =>
        After(done.0, done.1, if Lost(c, p).Some? then Failed else Returned(done.0[n.id]), log, Some(n))
  }

  /** How a dispatched call leaves its step: nothing was dispatched, the outcome is not known, or it has a result. */
  datatype Exit =
    | Abandoned
    | Unsure(tag: Label, fault: Fault)
    | Completed(result: Json)

  /** The exception that decides the call before its result is processed. */
  function Primary(s: Script): Option<Fault> {
    match s.step case Threw(fault) => Some(fault) case Gave(_) => s.measurement
  }

  function ExitOf(s: Script, rid: Option<string>): (e: Exit)
    ensures e.Abandoned? <==> s.step.Threw? && !s.step.fault.marked
    ensures e.Unsure? ==> e.tag == UNKNOWN || e.tag == UNRECORDED
    ensures e.Completed? ==> s.step == Gave(e.result)
  {
    match Primary(s)
    case Some(fault) =>
      if fault.marked then Unsure(UNKNOWN, fault)
      else if s.step.Gave? then Unsure(UNRECORDED, fault)
      else Abandoned
    case None =>
      if rid.Some? && s.leaseFault.Some? then Unsure(UNRECORDED, s.leaseFault.value)
      else if s.processingFault.Some? then Unsure(UNRECORDED, s.processingFault.value)
      else Completed(s.step.result)
  }

  /** Everything after a successful precheck. */
  ghost function Dispatch(cfg: Config, m: Nodes, h: Handle, c: Invocation, p: Pass): After
    requires WellFormed(cfg.enc, m)
  {
    match ExitOf(c.script, p.rid)
    case Abandoned => After(m, h, Failed, ReleaseEvents(p.rid), None)
    case Unsure(tag, fault) => Unknown(cfg, m, h, c, p, tag, fault)
    case Completed(result) => Complete(cfg, m, h, c, p, result)
  }

  /** Whether a call asks the arbiter. */
  predicate Arbitrates(cfg: Config, h: Handle) {
    cfg.arbitrated && h.scopes != []
  }

  // ---------------------------------------------------------------- `_recorded_node`

  datatype Found = Live | Recorded(node: Node) | Absent

  function CallId(cfg: Config, cursor: Id, c: Invocation): Id {
    cfg.enc.nodeId(c.kind, Some(cursor), c.attempt, c.payload)
  }

  /** `recorded_node_or_missing`; in a store of valid nodes the verification of an existing node succeeds. */
  function FindRecorded(cfg: Config, m: Nodes, cursor: Id, c: Invocation): Found {
    var id := CallId(cfg, cursor, c);
    match cfg.mode
    case Record => if cfg.refuseDuplicates && id in m then Absent else Live
    case Replay => if id in m && m[id].result.Some? then Recorded(m[id]) else Absent
  }

  /** `_call`. */
  ghost function CallOutcome(cfg: Config, m: Nodes, h: Handle, c: Invocation): After
    requires WellFormed(cfg.enc, m) && h.cursor in m
  {
    match FindRecorded(cfg, m, h.cursor, c)
    case Absent => After(m, h, Failed, [], None)
    case Recorded(n) => After(m, h.(cursor := n.id), Returned(n), [], None)
    case Live =>
      match Precheck(cfg, m, h, c.kind, c.payload)
      case Blocked(refusal) => Refusing(cfg, m, h, refusal, c.script.now, [])
      case Raised => After(m, h, Failed, [], None)
      case Clear(estimates, approximate) =>
        var s := c.script;
        if !Arbitrates(cfg, h) then Dispatch(cfg, m, h, c, Pass(estimates, None))
        else if s.answer.Rejected? then
          Refusing(cfg, m, h, RejectedPayload(cfg, c.kind, c.payload, s.answer, approximate), s.now,
                   [Reserve(s.reservationId, false)])
        else
          var d := Dispatch(cfg, m, h, c, Pass(estimates, Some(s.reservationId)));
          d.(log := [Reserve(s.reservationId, true)] + d.log)
  }

  /** The ways `_call` ends in record mode, as a case rule for what follows. */
  lemma CallCases(cfg: Config, m: Nodes, h: Handle, c: Invocation)
    requires WellFormed(cfg.enc, m) && IsForest(m) && h.cursor in m && FindRecorded(cfg, m, h.cursor, c).Live?
    ensures
      var a := CallOutcome(cfg, m, h, c);
      match Precheck(cfg, m, h, c.kind, c.payload)
      case Blocked(refusal) => a == Refusing(cfg, m, h, refusal, c.script.now, [])
      case Raised => a == After(m, h, Failed, [], None)
      case Clear(estimates, approximate) =>
        var s := c.script;
        if Arbitrates(cfg, h) && s.answer.Rejected? then
          a == Refusing(cfg, m, h, RejectedPayload(cfg, c.kind, c.payload, s.answer, approximate), s.now,
                        [Reserve(s.reservationId, false)])
        else
          var p := Pass(estimates, if Arbitrates(cfg, h) then Some(s.reservationId) else None);
          var d := Dispatch(cfg, m, h, c, p);
          a == if p.rid.Some? then d.(log := [Reserve(s.reservationId, true)] + d.log) else d
  {
    hide WellFormed, IsForest, Precheck, Dispatch, Refusing, RejectedPayload;
  }

  // ---------------------------------------------------------------- reservations

  /** Settled or released once, with the charges of the node built. */
  predicate ClosedOnce(log: seq<ArbiterCall>, id: string, built: Option<Node>) {
    && |log| == 1
    && match log[0]
       case Settle(i, charges) =>
         i == id && built.Some? && Get(built.value.meta, "charges") == Some(ChargesJson(charges))
       case Release(i) => i == id && built == None
       case Reserve(_, _) => false
  }

  lemma BuiltCharges(cfg: Config, cursor: Id, c: Invocation, p: Pass, result: Json)
    ensures Get(CallNode(cfg, cursor, c, p, result).meta, "charges") ==
      Some(ChargesJson(ChargesFor(cfg, c, p, result).amounts))
  {
    hide ChargesFor, ChargesJson, UsageOf, LostLease;
  }

  lemma FailureCharges(cfg: Config, cursor: Id, c: Invocation, p: Pass, tag: Label, fault: Fault)
    ensures Get(FailureNode(cfg, cursor, c, p, tag, fault).meta, "charges") ==
      Some(ChargesJson(EstimatedCharges(p.estimates)))
  {
    hide EstimatedCharges, ChargesJson, Created, TextIf, LostLease, Uncertain;
  }

  /** For every way a call can go: the arbiter is asked exactly when the call is to be recorded, has budgets, and they
      let it through; a granted reservation is closed exactly once, by a release only when the step raised before any
      dispatch was known and gave no result, and a settlement carries the charges of the node built to record it. */
  lemma ReservationClosedOnce(cfg: Config, m: Nodes, h: Handle, c: Invocation)
    requires WellFormed(cfg.enc, m) && h.cursor in m
    ensures
      var a, s := CallOutcome(cfg, m, h, c), c.script;
      && IsForest(m)
      && (a.log != [] <==>
          && Unrecorded(cfg, m, h.cursor, c) && Precheck(cfg, m, h, c.kind, c.payload).Clear?
          && cfg.arbitrated && h.scopes != [])
      && (a.log == [] || a.log[0] == Reserve(s.reservationId, s.answer == Granted))
      && (a.log != [] && s.answer != Granted ==> |a.log| == 1)
      && (a.log != [] && s.answer == Granted ==>
          && ClosedOnce(a.log[1..], s.reservationId, a.built)
          && (a.log[1].Release? <==> s.step.Threw? && !s.step.fault.marked))
  {
    hide Precheck, Dispatch, WellFormed, FindRecorded, ClosedOnce, IsForest, CallOutcome, Refusing, RejectedPayload;
    CallNeedsForest(cfg, m);
    SilentUnlessLive(cfg, m, h, c);
    if FindRecorded(cfg, m, h.cursor, c).Live? {
      CallCases(cfg, m, h, c);
      var checked := Precheck(cfg, m, h, c.kind, c.payload);
      RefusingLog(cfg, m, h, c);
      if checked.Clear? {
        var p := Pass(checked.estimates, if Arbitrates(cfg, h) then Some(c.script.reservationId) else None);
        DispatchCloses(cfg, m, h, c, p);
        var d := Dispatch(cfg, m, h, c, p);
        assert ([Reserve(c.script.reservationId, true)] + d.log)[1..] == d.log;
      }
    }
  }

  /** The call is to be recorded, and is no duplicate that is refused. */
  predicate Unrecorded(cfg: Config, m: Nodes, cursor: Id, c: Invocation) {
    cfg.mode == Record && !(cfg.refuseDuplicates && cfg.enc.nodeId(c.kind, Some(cursor), c.attempt, c.payload) in m)
  }

  lemma SilentUnlessLive(cfg: Config, m: Nodes, h: Handle, c: Invocation)
    requires WellFormed(cfg.enc, m) && h.cursor in m
    ensures !FindRecorded(cfg, m, h.cursor, c).Live? ==> CallOutcome(cfg, m, h, c).log == []
    ensures FindRecorded(cfg, m, h.cursor, c).Live? <==> Unrecorded(cfg, m, h.cursor, c)
  {
    hide WellFormed, Precheck, Dispatch, Refusing, IsForest;
  }

  lemma RefusingLog(cfg: Config, m: Nodes, h: Handle, c: Invocation)
    ensures forall payload, now, log :: Refusing(cfg, m, h, payload, now, log).log == log
  {
  }

  lemma CallNeedsForest(cfg: Config, m: Nodes)
    requires WellFormed(cfg.enc, m)
    ensures IsForest(m)
  {
  }

  /** With a reservation the arbiter sees it closed once; without one it sees nothing. */
  lemma DispatchCloses(cfg: Config, m: Nodes, h: Handle, c: Invocation, p: Pass)
    requires WellFormed(cfg.enc, m)
    ensures
      var d := Dispatch(cfg, m, h, c, p);
      if p.rid.None? then d.log == []
      else
        && ClosedOnce(d.log, p.rid.value, d.built)
        && (d.log[0].Release? <==> c.script.step.Threw? && !c.script.step.fault.marked)
  {
    hide Recording, WellFormed, FailureNode, CallNode, ChargesFor, EstimatedCharges, ChargesJson, ExitOf;
    match ExitOf(c.script, p.rid) {
      case Abandoned =>
      case Unsure(tag, fault) => FailureCharges(cfg, h.cursor, c, p, tag, fault);
      case Completed(result) => BuiltCharges(cfg, h.cursor, c, p, result);
    }
  }
}

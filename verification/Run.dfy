/** A run over a store: the object whose methods the operations describe. */
module Run {
  import opened JsonValue
  import opened Forest
  import opened Store
  import opened Spending
  import opened Governor
  import opened Lifecycle
  import opened Operations

  class BudgetScope {
    const limits: Limits
    const anchor: Id
    var exhausted: set<string>

    constructor (limits: Limits, anchor: Id, exhausted: set<string>)
      ensures Value() == Scope(limits, anchor, exhausted)
    {
      this.limits, this.anchor, this.exhausted := limits, anchor, exhausted;
    }

    function Value(): Scope
      reads this
    {
      Scope(limits, anchor, exhausted)
    }
  }

  function Values(scopes: seq<BudgetScope>): (r: seq<Scope>)
    reads scopes
    ensures |r| == |scopes| && forall i | 0 <= i < |r| :: r[i] == scopes[i].Value()
  {
    if scopes == [] then [] else Values(scopes[..|scopes| - 1]) + [scopes[|scopes| - 1].Value()]
  }

  lemma ValuesSnoc(scopes: seq<BudgetScope>, s: BudgetScope)
    ensures Values(scopes + [s]) == Values(scopes) + [s.Value()]
  {
    assert (scopes + [s])[..|scopes|] == scopes;
  }

  /** The loop of `_estimates` over the meters. */
  method EstimateAll(meters: seq<Meter>, kind: Kind, payload: Dict) returns (e: Estimation)
    ensures e == EstimateMeters(meters, kind, payload)
  {
    e := Estimation([], {}, None);
    for i := 0 to |meters|
      invariant e == EstimateMeters(meters[..i], kind, payload) && e.refusal == None
    {
      assert meters[..i + 1][..i] == meters[..i];
      match meters[i].estimate(kind, payload)
      case NoEstimate =>
      case Estimated(amount) =>
        e := Estimation(SetItem(e.estimates, meters[i].name, amount),
                        e.approximate + if meters[i].isEstimate then {meters[i].name} else {}, None);
      case refusal =>
        e := e.(refusal := Some((meters[i].name, refusal)));
        RefusalStays(meters, i + 1, kind, payload);
        return;
    }
    assert meters[..|meters|] == meters;
  }

  lemma {:induction false} RefusalStays(meters: seq<Meter>, i: nat, kind: Kind, payload: Dict)
    requires i <= |meters| && EstimateMeters(meters[..i], kind, payload).refusal.Some?
    ensures EstimateMeters(meters, kind, payload) == EstimateMeters(meters[..i], kind, payload)
    decreases |meters| - i
  {
    if i == |meters| {
      assert meters[..i] == meters;
    } else {
      assert meters[..i + 1][..i] == meters[..i];
      RefusalStays(meters, i + 1, kind, payload);
    }
  }

  /** What one meter charges, and why it fell back to its estimate. */
  method ChargeOne(meter: Meter, kind: Kind, payload: Dict, result: Json, meta: Dict, estimates: Estimates)
    returns (amount: int, reason: Option<string>)
    ensures amount == MeterAmount(meter, kind, payload, result, meta, estimates)
    ensures reason == FallbackReason(meter, kind, payload, result, meta, estimates)
  {
    hide HasUsage, Lookup;
    amount := meter.charge(kind, payload, result, meta);
    var estimate := Lookup(estimates, meter.name);
    reason := None;
    if amount == 0 && estimate.Some? && meter.isEstimate {
      if !HasUsage(result) {
        reason := Some(MISSING_USAGE);
      } else {
        var candidate := meter.fallback(kind, payload, result, meta);
        if candidate.Some? && candidate.value != "" { reason := candidate; }
      }
    }
    if reason.Some? { amount := estimate.value; }
  }

  lemma NothingCharged(meters: seq<Meter>, kind: Kind, payload: Dict, result: Json, meta: Dict, estimates: Estimates)
    ensures ChargeMeters(meters[..0], kind, payload, result, meta, estimates) == Charging(map[], map[])
  {
  }

  lemma ChargeStep(meters: seq<Meter>, i: nat, kind: Kind, payload: Dict, result: Json, meta: Dict,
      estimates: Estimates)
    requires i < |meters|
    ensures
      var before := ChargeMeters(meters[..i], kind, payload, result, meta, estimates);
      var amount := MeterAmount(meters[i], kind, payload, result, meta, estimates);
      var reason := FallbackReason(meters[i], kind, payload, result, meta, estimates);
      var name := meters[i].name;
      ChargeMeters(meters[..i + 1], kind, payload, result, meta, estimates) ==
        Charging(if amount != 0 then before.amounts[name := amount] else before.amounts,
                 if reason.Some? then before.fallbacks[name := FallbackEntry(reason.value)] else before.fallbacks)
  {
    hide MeterAmount, FallbackReason, FallbackEntry;
    assert meters[..i + 1][..i] == meters[..i];
  }

  /** The loop of `_charges`. */
  method ChargeAll(meters: seq<Meter>, kind: Kind, payload: Dict, result: Json, meta: Dict, estimates: Estimates)
    returns (c: Charging)
    ensures c == ChargeMeters(meters, kind, payload, result, meta, estimates)
  {
    hide MeterAmount, FallbackReason, FallbackEntry, Lookup, HasUsage, ChargeMeters;
    NothingCharged(meters, kind, payload, result, meta, estimates);
    var charges: Totals, fallbacks: Dict := map[], map[];
    for i := 0 to |meters|
      invariant Charging(charges, fallbacks) == ChargeMeters(meters[..i], kind, payload, result, meta, estimates)
    {
      ChargeStep(meters, i, kind, payload, result, meta, estimates);
      var amount, reason := ChargeOne(meters[i], kind, payload, result, meta, estimates);
      if reason.Some? { fallbacks := fallbacks[meters[i].name := FallbackEntry(reason.value)]; }
      if amount != 0 { charges := charges[meters[i].name := amount]; }
    }
    assert meters[..|meters|] == meters;
    c := Charging(charges, fallbacks);
  }

  /** `_depth`. */
  method DepthOf(store: MemoryStore, x: Id) returns (depth: nat)
    requires store.Valid() && x in store.nodes
    ensures depth == Depth(store.nodes, x)
  {
    ghost var m := store.nodes;
    ghost var height := Height(m);
    depth := 0;
    var current := store.nodes[x].parent;
    while current.Some?
      invariant current.Some? ==> current.value in m
      invariant Depth(m, x) == depth + if current.Some? then 1 + Depth(m, current.value) else 0
      decreases if current.Some? then Ceiling(height) - height[current.value] + 1 else 0
    {
      depth := depth + 1;
      current := store.nodes[current.value].parent;
    }
  }

  /** The charges below every budget anchor can be added up. */
  ghost predicate Readable(m: Nodes, scopes: seq<Scope>)
    requires IsForest(m)
  {
    forall s | s in scopes :: CleanBelow(m, s.anchor)
  }

  class RunHandle {
    const cfg: Config
    const store: MemoryStore
    var cursor: Id
    var scopes: seq<BudgetScope>
    /** The calls this handle made to the arbiter. */
    var log: seq<ArbiterCall>

    ghost predicate Valid()
      reads this, store, scopes
    {
      && store.Valid() && store.enc == cfg.enc
      && cursor in store.nodes
      && (forall s | s in scopes :: s.anchor in store.nodes)
      && forall i, j | 0 <= i < j < |scopes| :: scopes[i] != scopes[j]
    }

    function State(): Handle
      reads this, scopes
    {
      Handle(cursor, Values(scopes))
    }

    constructor (cfg: Config, store: MemoryStore, cursor: Id, scopes: seq<BudgetScope>)
      requires store.Valid() && store.enc == cfg.enc && cursor in store.nodes
      requires forall s | s in scopes :: s.anchor in store.nodes
      requires forall i, j | 0 <= i < j < |scopes| :: scopes[i] != scopes[j]
      ensures Valid() && this.cfg == cfg && this.store == store && this.scopes == scopes
      ensures State() == Handle(cursor, Values(scopes)) && log == []
    {
      this.cfg, this.store, this.cursor, this.scopes, this.log := cfg, store, cursor, scopes, [];
    }

    lemma ValidParts()
      requires Valid()
      ensures store.Valid() && WellFormed(cfg.enc, store.nodes) && IsForest(store.nodes) && cursor in store.nodes
      ensures Anchored(store.nodes, Values(scopes))
    {
      forall s | s in Values(scopes) ensures s.anchor in store.nodes {
        var i :| 0 <= i < |scopes| && Values(scopes)[i] == s;
        assert scopes[i] in scopes;
      }
    }

    /** The loop of `_precheck` over the scopes. */
    method CheckAllScopes(estimates: Estimates) returns (r: ScopeCheck)
      requires Valid()
      ensures r == CheckScopes(store.nodes, Values(scopes), estimates)
    {
      hide WellFormed, Indexed, CheckScope, TotalsOf, IsForest, CleanBelow;
      ValidParts();
      ghost var m, all := store.nodes, Values(scopes);
      assert all[0..] == all;
      for i := 0 to |scopes|
        invariant CheckScopes(m, all, estimates) == CheckScopes(m, all[i..], estimates)
      {
        var scope := scopes[i];
        assert scope in scopes && all[i..][0] == scope.Value() && all[i..][1..] == all[i + 1..];
        var spent := RecomputeCharges(store, scope.anchor);
        CheckScopeIs(m, scope.Value(), estimates);
        if spent.Err? { return Unreadable; }
        var check := CheckBudget(scope.limits, spent.value, estimates, scope.exhausted);
        if check.Some? { return Short(check.value); }
      }
      r := Passed;
    }

    lemma CheckScopeIs(m: Nodes, s: Scope, estimates: Estimates)
      requires IsForest(m)
      ensures CheckScope(m, s, estimates) ==
        if !CleanBelow(m, s.anchor) then Unreadable
        else
          match Check(s.limits, TotalsOf(m, s.anchor), estimates, s.exhausted)
          case None => Passed
          case Some(shortfall) => Short(shortfall)
    {
    }

    lemma PassedReadable(m: Nodes, scopes: seq<Scope>, estimates: Estimates)
      requires IsForest(m) && CheckScopes(m, scopes, estimates) == Passed
      ensures Readable(m, scopes)
    {
      hide IsForest, CleanBelow, TotalsOf, Check;
      AllScopesPass(m, scopes, estimates);
      forall s | s in scopes ensures CleanBelow(m, s.anchor) { assert CheckScope(m, s, estimates) == Passed; }
    }

    /** The estimates and checks of `_precheck`. */
    method PrecheckCall(kind: Kind, payload: Dict) returns (r: Prechecked)
      requires Valid()
      ensures IsForest(store.nodes) && r == Precheck(cfg, store.nodes, State(), kind, payload)
      ensures r.Clear? ==> Readable(store.nodes, Values(scopes))
    {
      hide WellFormed, Indexed, CheckScopes, IsForest, EstimateMeters, MeterPayload, ShortPayload, SetItem;
      ValidParts();
      RefusalRefuses(cfg.meters, kind, payload);
      var e := EstimateAll(cfg.meters, kind, payload);
      if e.refusal.Some? { return Blocked(MeterPayload(cfg, kind, payload, e.refusal.value)); }
      var depth := DepthOf(store, cursor);
      var estimates := SetItem(e.estimates, "depth", depth + 1);
      var check := CheckAllScopes(estimates);
      match check {
        case Short(shortfall) => r := Blocked(ShortPayload(cfg, kind, payload, shortfall, e.approximate));
        case Unreadable => r := Raised;
        case Passed =>
          PassedReadable(store.nodes, Values(scopes), estimates);
          r := Clear(estimates, e.approximate);
      }
    }

    /** `Runtime._put` in record mode, after which the node is the cursor. */
    method PutAtCursor(n: Node) returns (ok: bool)
      requires Valid()
      modifies this`cursor, store
      ensures Valid() && Values(scopes) == old(Values(scopes))
      ensures ok <==> Put(cfg.enc, old(store.nodes), n).Ok?
      ensures ok ==> store.nodes == Put(cfg.enc, old(store.nodes), n).value && cursor == n.id && n.id in store.nodes
      ensures !ok ==> store.nodes == old(store.nodes) && cursor == old(cursor)
    {
      hide Put, Indexed, IsForest, WellFormed;
      ghost var m := store.nodes;
      ValidParts();
      if Put(cfg.enc, m, n).Ok? { PutGrown(cfg.enc, m, n); }
      var r := store.PutNode(n);
      ok := r.Ok?;
      if ok { cursor := n.id; }
    }

    /** `_refuse`. */
    method Refuse(payload: Dict, now: string, ghost seen: seq<ArbiterCall>) returns (ended: Ended)
      requires Valid()
      modifies this`cursor, store
      ensures Valid()
      ensures
        var a := Refusing(cfg, old(store.nodes), old(State()), payload, now, seen);
        store.nodes == a.nodes && State() == a.handle && ended == a.ended && a.log == seen
    {
      hide Put, Indexed, IsForest, WellFormed;
      var n := cfg.enc.Make(Refusal, Some(cursor), 0, payload, None, Created(now));
      var ok := PutAtCursor(n);
      ended := if ok then Refused(n.id) else Failed;
    }

    /** `_settle_scopes`, where the charges below the anchors can be added up. */
    method SettleAllScopes()
      requires Valid() && IsForest(store.nodes) && Readable(store.nodes, Values(scopes))
      modifies scopes
      ensures Valid() && store.nodes == old(store.nodes)
      ensures IsForest(store.nodes) && Values(scopes) == SettledScopes(store.nodes, old(Values(scopes)))
    {
      hide WellFormed, Indexed, TotalsOf, IsForest, CleanBelow, Values;
      ghost var m := store.nodes;
      ghost var before := Values(scopes);
      for i := 0 to |scopes|
        invariant Valid() && store.nodes == m
        invariant forall j | i <= j < |scopes| :: scopes[j].Value() == before[j]
        invariant forall j | 0 <= j < i :: scopes[j].Value() == SettledScope(m, before[j])
      {
        var scope := scopes[i];
        assert scope in scopes && before[i] in before && before[i].anchor == scope.anchor;
        var spent := RecomputeCharges(store, scope.anchor);
        var over := ExhaustedAfterSettle(scope.limits, spent.value);
        scope.exhausted := scope.exhausted + over;
      }
    }

    lemma StillReadable(m: Nodes, n: Node, scopes: seq<Scope>)
      requires WellFormed(cfg.enc, m) && IsForest(m) && Anchored(m, scopes) && Readable(m, scopes)
      requires CleanNode(n) && Put(cfg.enc, m, n).Ok?
      ensures IsForest(Put(cfg.enc, m, n).value) && Readable(Put(cfg.enc, m, n).value, scopes)
    {
      hide WellFormed, IsForest, Put, CleanNode, CleanBelow;
      PutGrown(cfg.enc, m, n);
      WellFormedIsForest(cfg.enc, Put(cfg.enc, m, n).value);
      forall s | s in scopes ensures CleanBelow(Put(cfg.enc, m, n).value, s.anchor) {
        PutKeepsClean(cfg.enc, m, n, s.anchor);
      }
    }

    /** Records a node: put, cursor, scopes. The scopes were readable at the precheck, so settling cannot raise. */
    method RecordNode(n: Node) returns (ok: bool)
      requires Valid() && IsForest(store.nodes) && Readable(store.nodes, Values(scopes)) && CleanNode(n)
      modifies this`cursor, store, scopes
      ensures Valid() && WellFormed(cfg.enc, old(store.nodes))
      ensures
        var r := Recording(cfg, old(store.nodes), old(State()), n);
        && (ok <==> r.Some?)
        && (ok ==> store.nodes == r.value.0 && State() == r.value.1 && n.id in store.nodes)
        && (!ok ==> store.nodes == old(store.nodes) && State() == old(State()))
    {
      hide Put, Indexed, IsForest, CleanNode, WellFormed, SettledScopes, Readable;
      ValidParts();
      if Put(cfg.enc, store.nodes, n).Ok? { StillReadable(store.nodes, n, Values(scopes)); }
      ok := PutAtCursor(n);
      if ok { SettleAllScopes(); }
    }

    /** `_settle_reservation`; `false` when the arbiter raises. */
    method SettleReservation(rid: Option<string>, charges: Totals, fault: Option<Fault>) returns (ok: bool)
      modifies this`log
      ensures log == old(log) + SettleEvents(rid, charges)
      ensures ok <==> !(rid.Some? && fault.Some?)
    {
      if rid.None? { return true; }
      log := log + [Settle(rid.value, charges)];
      ok := fault.None?;
    }

    /** `_record_unknown_outcome`; `cleanup` counts the errors it collects. */
    method RecordUnknownOutcome(c: Invocation, p: Pass, tag: Label, fault: Fault) returns (cleanup: nat)
      requires Valid() && IsForest(store.nodes) && Readable(store.nodes, Values(scopes))
      modifies this`cursor, this`log, store, scopes
      ensures Valid() && WellFormed(cfg.enc, old(store.nodes))
      ensures
        var a := Unknown(cfg, old(store.nodes), old(State()), c, p, tag, fault);
        store.nodes == a.nodes && State() == a.handle && log == old(log) + a.log
    {
      hide Values, Indexed, IsForest, CleanNode, WellFormed, Readable, Recording, FailureNode, EstimatedCharges;
      hide SettleEvents, Put, Extends, Unknown;
      ValidParts();
      ghost var m, h := store.nodes, State();
      var charges := EstimatedCharges(p.estimates);
      var settled := SettleReservation(p.rid, charges, c.script.settleFault);
      assert State() == h && Valid();
      cleanup := if settled then 0 else 1;
      UnknownIs(m, h, c, p, tag, fault);
      var failure := FailureNode(cfg, cursor, c, p, tag, fault);
      FailureClean(cursor, c, p, tag, fault);
      var ok := RecordNode(failure);
      if !ok { cleanup := cleanup + 1; }
    }

    lemma UnknownIs(m: Nodes, h: Handle, c: Invocation, p: Pass, tag: Label, fault: Fault)
      requires WellFormed(cfg.enc, m)
      ensures
        var a := Unknown(cfg, m, h, c, p, tag, fault);
        var r := Recording(cfg, m, h, FailureNode(cfg, h.cursor, c, p, tag, fault));
        && a.log == SettleEvents(p.rid, EstimatedCharges(p.estimates)) && a.ended == Failed
        && (if r.Some? then a.nodes == r.value.0 && a.handle == r.value.1 else a.nodes == m && a.handle == h)
    {
      hide Recording, FailureNode, WellFormed, EstimatedCharges;
    }

    lemma FailureClean(cursor: Id, c: Invocation, p: Pass, tag: Label, fault: Fault)
      ensures CleanNode(FailureNode(cfg, cursor, c, p, tag, fault))
    {
      hide FailureNode, EstimatedCharges, CleanNode, ChargesJson;
      FailureCharges(cfg, cursor, c, p, tag, fault);
      ChargesClean(FailureNode(cfg, cursor, c, p, tag, fault), EstimatedCharges(p.estimates));
    }

    lemma ChargesClean(n: Node, charges: Totals)
      requires Get(n.meta, "charges") == Some(ChargesJson(charges))
      ensures CleanNode(n)
    {
    }

    lemma CallClean(cursor: Id, c: Invocation, p: Pass, result: Json)
      ensures CleanNode(CallNode(cfg, cursor, c, p, result))
    {
      hide CallNode, ChargesFor, CleanNode, ChargesJson;
      BuiltCharges(cfg, cursor, c, p, result);
      ChargesClean(CallNode(cfg, cursor, c, p, result), ChargesFor(cfg, c, p, result).amounts);
    }

    /** The end of `_call` for a result that is processed without an error. */
    method CompleteCall(c: Invocation, p: Pass, result: Json) returns (ended: Ended)
      requires Valid() && IsForest(store.nodes) && Readable(store.nodes, Values(scopes))
      modifies this`cursor, this`log, store, scopes
      ensures Valid() && WellFormed(cfg.enc, old(store.nodes))
      ensures
        var a := Complete(cfg, old(store.nodes), old(State()), c, p, result);
        store.nodes == a.nodes && State() == a.handle && ended == a.ended && log == old(log) + a.log
    {
      hide Values, Indexed, IsForest, CleanNode, WellFormed, Readable, Recording, CallMeta, ChargeMeters, Lost;
      ValidParts();
      var s, lost := c.script, Lost(c, p);
      var charging := ChargeAll(cfg.meters, c.kind, c.payload, result, s.gathered, p.estimates);
      var n := cfg.enc.Make(c.kind, Some(cursor), c.attempt, c.payload, Some(result),
                            CallMeta(s.gathered, charging, result, lost));
      CallClean(cursor, c, p, result);
      var settled := SettleReservation(p.rid, charging.amounts, s.settleFault);
      if !settled { return Failed; }
      var ok := RecordNode(n);
      if !ok { return Failed; }
      if lost.Some? { return Failed; }
      ended := Returned(store.nodes[n.id]);
    }

    /** The part of `_call` from the dispatch on, with its mutable error state. */
    method DispatchCall(c: Invocation, p: Pass) returns (ended: Ended)
      requires Valid() && IsForest(store.nodes) && Readable(store.nodes, Values(scopes))
      modifies this`cursor, this`log, store, scopes
      ensures Valid() && WellFormed(cfg.enc, old(store.nodes))
      ensures
        var a := Dispatch(cfg, old(store.nodes), old(State()), c, p);
        store.nodes == a.nodes && State() == a.handle && ended == a.ended && log == old(log) + a.log
    {
      hide Values, Indexed, IsForest, CleanNode, WellFormed, Readable, Unknown, Complete;
      ValidParts();
      UnknownAlwaysFails(store.nodes, State(), c, p);
      var s := c.script;
      var result: Option<Json>, primary: Option<Fault>, cleanup := None, None, 0;
      // the step, then the measurements
      match s.step {
        case Gave(value) => result := Some(value);
        case Threw(fault) => primary := Some(fault);
      }
      if primary.None? {
        primary := s.measurement;
      } else if s.measurement.Some? {
        cleanup := cleanup + 1;
      }
      // the lease
      var leaseFault: Option<Fault> := if p.rid.Some? then s.leaseFault else None;
      if primary.Some? {
        if leaseFault.Some? { cleanup := cleanup + 1; }
        if primary.value.marked {
          var more := RecordUnknownOutcome(c, p, UNKNOWN, primary.value);
          return Failed;
        }
        if result.Some? {
          var more := RecordUnknownOutcome(c, p, UNRECORDED, primary.value);
          return Failed;
        }
        log := log + ReleaseEvents(p.rid);
        if p.rid.Some? && s.releaseFault.Some? { cleanup := cleanup + 1; }
        return Failed;
      }
      if leaseFault.Some? {
        var more := RecordUnknownOutcome(c, p, UNRECORDED, leaseFault.value);
        return Failed;
      }
      if s.processingFault.Some? {
        var more := RecordUnknownOutcome(c, p, UNRECORDED, s.processingFault.value);
        return Failed;
      }
      ended := CompleteCall(c, p, result.value);
    }

    lemma UnknownAlwaysFails(m: Nodes, h: Handle, c: Invocation, p: Pass)
      requires WellFormed(cfg.enc, m)
      ensures forall tag, fault :: Unknown(cfg, m, h, c, p, tag, fault).ended == Failed
    {
      hide WellFormed, Recording, FailureNode, IsForest, EstimatedCharges;
    }

    /** `_call`. */
    method Call(c: Invocation) returns (ended: Ended)
      requires Valid()
      modifies this`cursor, this`log, store, scopes
      ensures Valid() && WellFormed(cfg.enc, old(store.nodes)) && old(State()).cursor in old(store.nodes)
      ensures
        var a := CallOutcome(cfg, old(store.nodes), old(State()), c);
        store.nodes == a.nodes && State() == a.handle && ended == a.ended && log == old(log) + a.log
    {
      hide Values, Indexed, IsForest, WellFormed, Readable, Precheck, Dispatch, Refusing, RejectedPayload;
      ValidParts();
      var found := FindRecorded(cfg, store.nodes, cursor, c);
      FoundInStore(cfg, store.nodes, cursor, c);
      if found.Absent? { return Failed; }
      if found.Recorded? {
        cursor := found.node.id;
        return Returned(found.node);
      }
      var checked := PrecheckCall(c.kind, c.payload);
      if checked.Raised? { return Failed; }
      if checked.Blocked? {
        ended := Refuse(checked.payload, c.script.now, []);
        return;
      }
      if !cfg.arbitrated || scopes == [] {
        ended := DispatchCall(c, Pass(checked.estimates, None));
        return;
      }
      var id, answer := c.script.reservationId, c.script.answer;
      log := log + [Reserve(id, answer.Granted?)];
      if answer.Rejected? {
        ended := Refuse(RejectedPayload(cfg, c.kind, c.payload, answer, checked.approximate), c.script.now,
                        [Reserve(id, false)]);
        return;
      }
      ended := DispatchCall(c, Pass(checked.estimates, Some(id)));
    }

    /** The common part of `note` and `branch`. */
    method PlaceAtCursor(payload: Dict, attempt: nat, now: string) returns (ended: Ended)
      requires Valid()
      modifies this`cursor, store
      ensures Valid() && IsForest(old(store.nodes)) && old(State()).cursor in old(store.nodes)
      ensures
        var a := PlaceNote(cfg, old(store.nodes), old(State()), payload, attempt, now);
        store.nodes == a.nodes && State() == a.handle && ended == a.ended
    {
      hide Put, Indexed, IsForest, WellFormed, Readable, Precheck, Refusing;
      ValidParts();
      if cfg.mode == Record {
        var checked := PrecheckCall(Note, payload);
        if checked.Raised? { return Failed; }
        if checked.Blocked? {
          ended := Refuse(checked.payload, now, []);
          return;
        }
      }
      var n := NoteNode(cfg, cursor, payload, attempt, now);
      if cfg.mode == Record {
        var ok := PutAtCursor(n);
        ended := if ok then Returned(store.nodes[n.id]) else Failed;
      } else if n.id in store.nodes {
        cursor := n.id;
        ended := Returned(store.nodes[n.id]);
      } else {
        ended := Failed;
      }
    }

    /** `note`. */
    method WriteNote(payload: Dict, attempt: nat, now: string) returns (ended: Ended)
      requires Valid()
      modifies this`cursor, store
      ensures Valid() && WellFormed(cfg.enc, old(store.nodes)) && old(State()).cursor in old(store.nodes)
      ensures
        var a := Perform(cfg, old(store.nodes), old(State()), Op.WriteNote(payload, attempt, now)).after;
        store.nodes == a.nodes && State() == a.handle && ended == a.ended
    {
      hide Indexed, IsForest, WellFormed, PlaceNote;
      ValidParts();
      ended := PlaceAtCursor(payload, attempt, now);
    }

    /** `_copy_scopes`. */
    method CopyScopes() returns (copies: seq<BudgetScope>)
      ensures Values(copies) == Values(scopes) && fresh(copies)
      ensures forall i, j | 0 <= i < j < |copies| :: copies[i] != copies[j]
    {
      copies := [];
      for i := 0 to |scopes|
        invariant |copies| == i && fresh(copies)
        invariant forall j | 0 <= j < i :: copies[j].Value() == scopes[j].Value()
        invariant forall j, k | 0 <= j < k < i :: copies[j] != copies[k]
      {
        var copy := new BudgetScope(scopes[i].limits, scopes[i].anchor, scopes[i].exhausted);
        copies := copies + [copy];
      }
    }

    /** `branch`: the child starts at a new note with copies of the scopes; the parent stays where it is. */
    method MakeBranch(attempt: nat, budget: Option<Limits>, now: string) returns (ended: Ended, child: RunHandle?)
      requires Valid()
      modifies this`cursor, store
      ensures Valid() && WellFormed(cfg.enc, old(store.nodes)) && old(State()).cursor in old(store.nodes)
      ensures
        var step := Perform(cfg, old(store.nodes), old(State()), Op.Branch(attempt, budget, now));
        && store.nodes == step.after.nodes && State() == step.after.handle && ended == step.after.ended
        && (child != null <==> step.child.Some?)
        && (child != null ==>
            && fresh(child) && fresh(child.scopes) && child.store == store && child.cfg == cfg && child.Valid()
            && child.State() == step.child.value)
    {
      hide Indexed, IsForest, WellFormed, PlaceNote, Values, ChildScopes;
      ValidParts();
      ghost var m, h := store.nodes, State();
      NoteGrown(cfg, m, h, BRANCH_PAYLOAD, attempt, now);
      var before := cursor;
      child := null;
      ended := PlaceAtCursor(BRANCH_PAYLOAD, attempt, now);
      if !ended.Returned? { return; }
      var anchor := cursor;
      AnchoredLater(m, store.nodes, before);
      cursor := before;
      child := Spawn(anchor, budget);
    }

    /** The child of a branch: copies of the scopes, and its own budget anchored at its first node. */
    method Spawn(anchor: Id, budget: Option<Limits>) returns (child: RunHandle)
      requires Valid() && anchor in store.nodes
      ensures fresh(child) && fresh(child.scopes) && child.store == store && child.cfg == cfg && child.Valid()
      ensures child.State() == Handle(anchor, ChildScopes(Values(scopes), budget, anchor))
    {
      hide Indexed, IsForest, WellFormed, Values, ChildScopes;
      var own := OwnScopes(anchor, budget);
      child := new RunHandle(cfg, store, anchor, own);
    }

    method OwnScopes(anchor: Id, budget: Option<Limits>) returns (own: seq<BudgetScope>)
      requires Valid() && anchor in store.nodes
      ensures fresh(own) && Values(own) == ChildScopes(Values(scopes), budget, anchor)
      ensures forall i, j | 0 <= i < j < |own| :: own[i] != own[j]
      ensures forall s | s in own :: s.anchor in store.nodes
    {
      hide Indexed, IsForest, WellFormed, Values, store.Valid;
      own := CopyScopes();
      AnchoredCopies(store.nodes, scopes, own);
      if budget.Some? {
        var scope := new BudgetScope(budget.value, anchor, {});
        ValuesSnoc(own, scope);
        own := own + [scope];
      }
    }

    lemma AnchoredLater(m: Nodes, m': Nodes, x: Id)
      requires Extends(m, m') && x in m
      ensures x in m'
    {
    }

    lemma AnchoredCopies(m: Nodes, scopes: seq<BudgetScope>, copies: seq<BudgetScope>)
      requires Values(copies) == Values(scopes) && forall s | s in scopes :: s.anchor in m
      ensures forall s | s in copies :: s.anchor in m
    {
      forall s | s in copies ensures s.anchor in m {
        var i :| 0 <= i < |copies| && copies[i] == s;
        assert Values(copies)[i] == copies[i].Value() && Values(scopes)[i] == scopes[i].Value();
        assert scopes[i] in scopes;
      }
    }

    /** `rollback`: the climb and the ancestry check of `_ensure_ancestor`. */
    method RollBackTo(target: Option<Id>, steps: nat) returns (ended: Ended)
      requires Valid()
      modifies this`cursor
      ensures Valid() && WellFormed(cfg.enc, store.nodes) && IsForest(store.nodes) && old(State()).cursor in store.nodes
      ensures
        var a := RollBack(store.nodes, old(State()), target, steps);
        store.nodes == a.nodes && State() == a.handle && ended == a.ended
    {
      hide Indexed, WellFormed, Climb, IsAncestor, IsForest;
      ValidParts();
      var to := cursor;
      if target.Some? { to := target.value; } else { to := ClimbSteps(store, cursor, steps); }
      var ok := IsAbove(store, to, cursor);
      if !ok { return Failed; }
      AncestorIn(store.nodes, to, cursor);
      cursor := to;
      ended := Returned(store.nodes[to]);
    }
  }

  method ClimbSteps(store: MemoryStore, x: Id, steps: nat) returns (to: Id)
    requires store.Valid() && x in store.nodes
    ensures to == Climb(store.nodes, x, steps)
  {
    to := x;
    for i := 0 to steps
      invariant to in store.nodes && Climb(store.nodes, x, steps) == Climb(store.nodes, to, steps - i)
    {
      var parent := store.nodes[to].parent;
      if parent.None? { return; }
      to := parent.value;
    }
  }

  /** The loop of `_ensure_ancestor`. */
  method IsAbove(store: MemoryStore, a: Id, x: Id) returns (r: bool)
    requires store.Valid() && x in store.nodes
    ensures IsForest(store.nodes) && (r <==> IsAncestor(store.nodes, a, x))
  {
    ghost var m := store.nodes;
    ghost var height := Height(m);
    var current := Some(x);
    while current.Some?
      invariant current.Some? ==> current.value in m
      invariant IsAncestor(m, a, x) <==> current.Some? && IsAncestor(m, a, current.value)
      decreases if current.Some? then Ceiling(height) - height[current.value] + 1 else 0
    {
      if current.value == a { return true; }
      current := store.nodes[current.value].parent;
    }
    r := false;
  }
}

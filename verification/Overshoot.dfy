/** Budget bounds for a meter without a precheck estimate: each handle overshoots once at most. */
module Overshoot {
  import opened JsonValue
  import opened Forest
  import opened Store
  import opened Spending
  import opened Governor
  import opened Lifecycle
  import opened Operations
  import opened BudgetEffects
  import opened BudgetBound

  /** The meter never estimates, and never charges a negative amount. */
  ghost predicate Unestimated(meters: seq<Meter>, k: nat, meter: string) {
    && OnlyMeter(meters, k, meter)
    && (forall kind, payload :: !meters[k].estimate(kind, payload).Estimated?)
    && (forall kind, payload, result, meta :: meters[k].charge(kind, payload, result, meta) >= 0)
  }

  /** What an event of handle `j` adds when it leaves the spend above the limit. */
  ghost function Over(cfg: Config, w: World, e: Event, j: nat, cap: Cap): int
    requires WorldValid(cfg.enc, w)
  {
    EvolveForest(cfg, w);
    NextValid(cfg, w, e);
    EvolveForest(cfg, Next(cfg, w, e));
    if e.By? && e.handle == j && SpentIn(Next(cfg, w, e), cap) > cap.max
    then SpentIn(Next(cfg, w, e), cap) - SpentIn(w, cap) else 0
  }

  /** The charges by which handle `j` settled above the limit, in order. */
  ghost function OverCalls(cfg: Config, w: World, events: seq<Event>, j: nat, cap: Cap): seq<int>
    requires WorldValid(cfg.enc, w)
    decreases |events|
  {
    if events == [] then []
    else
      NextValid(cfg, w, events[0]);
      (if Over(cfg, w, events[0], j, cap) != 0 then [Over(cfg, w, events[0], j, cap)] else [])
      + OverCalls(cfg, Next(cfg, w, events[0]), events[1..], j, cap)
  }

  ghost predicate MarkedAt(w: World, j: nat, cap: Cap) {
    j < |w.handles| && Marked(w.handles[j].scopes, cap)
  }

  lemma UnestimatedCharge(cfg: Config, m: Nodes, h: Handle, c: Invocation, k: nat, meter: string)
    requires WellFormed(cfg.enc, m) && IsForest(m) && h.cursor in m && Unestimated(cfg.meters, k, meter)
    ensures
      var a := CallOutcome(cfg, m, h, c);
      a.built.Some? ==> ChargeOf(a.built.value, meter) >= 0
  {
    hide WellFormed, IsForest, CallOutcome, Precheck, ChargeOf, Lookup;
    CallCharge(cfg, m, h, c, k, meter);
    if Precheck(cfg, m, h, c.kind, c.payload).Clear? { ClearEstimate(cfg, m, h, c.kind, c.payload, k, meter); }
  }

  /** A handle that knows the limit was passed gets no call through: it is refused, or the charges cannot be read. */
  lemma MarkedRefused(cfg: Config, m: Nodes, h: Handle, kind: Kind, payload: Dict, k: nat, cap: Cap)
    requires IsForest(m) && h.cursor in m && OnlyMeter(cfg.meters, k, cap.meter) && Marked(h.scopes, cap)
    ensures !Precheck(cfg, m, h, kind, payload).Clear?
    ensures (forall s | s in h.scopes :: CleanBelow(m, s.anchor)) ==> Precheck(cfg, m, h, kind, payload).Blocked?
  {
    hide IsForest, Precheck, Spent, CleanBelow;
    RaisedOnlyUnclean(cfg, m, h, kind, payload);
    assert Carries(h.scopes, cap);
    if Precheck(cfg, m, h, kind, payload).Clear? { RoomForEstimate(cfg, m, h, kind, payload, k, cap); }
  }

  /** One operation: it never lowers the spend; if it raises it, the handle was not marked, and it is afterwards
      whenever the limit was passed. Marks stay, and a branch takes them over. */
  lemma OperationMarks(cfg: Config, m: Nodes, h: Handle, op: Op, k: nat, cap: Cap)
    requires WellFormed(cfg.enc, m) && IsForest(m) && h.cursor in m && cap.anchor in m
    requires Unestimated(cfg.meters, k, cap.meter) && Carries(h.scopes, cap)
    ensures
      var step := Perform(cfg, m, h, op);
      var before := Spent(m, cap.anchor, cap.meter);
      && IsForest(step.after.nodes)
      && var after := Spent(step.after.nodes, cap.anchor, cap.meter);
      && after >= before
      && (after > before ==> !Marked(h.scopes, cap))
      && (after > before && after > cap.max ==> Marked(step.after.handle.scopes, cap))
      && (Marked(h.scopes, cap) ==> Marked(step.after.handle.scopes, cap))
      && (step.child.Some? && Marked(h.scopes, cap) ==> Marked(step.child.value.scopes, cap))
  {
    hide WellFormed, IsForest, CallOutcome, PlaceNote, RollBack, Precheck, Spent, ChargeOf, SettledScopes, ChildScopes;
    hide Carries, Marked, Unestimated;
    UniqueMeter(cfg.meters, k, cap.meter);
    PerformEffect(cfg, m, h, op, cap.anchor, cap.meter);
    var step := Perform(cfg, m, h, op);
    if step.child.Some? { ChildKeepsCap(h.scopes, op.budget, step.child.value.cursor, cap); }
    if step.after.handle.scopes != h.scopes { SettledKeepsCap(step.after.nodes, h.scopes, cap); }
    if op.Call? {
      UnestimatedCharge(cfg, m, h, op.call, k, cap.meter);
      if Marked(h.scopes, cap) { MarkedRefused(cfg, m, h, op.call.kind, op.call.payload, k, cap); }
      SettledKeepsCap(step.after.nodes, h.scopes, cap);
    }
  }

  lemma UniqueMeter(meters: seq<Meter>, k: nat, meter: string)
    requires Unestimated(meters, k, meter)
    ensures OnlyMeter(meters, k, meter)
  {
  }

  /** One event: the handles it does not concern keep their marks. */
  lemma EventMarks(cfg: Config, w: World, e: Event, k: nat, cap: Cap)
    requires Guarded(cfg.enc, w, cap) && Unestimated(cfg.meters, k, cap.meter) && IsForest(w.nodes)
    requires e.Foreign? ==> Fenced(w.nodes, e.node, cap.anchor)
    ensures IsForest(Next(cfg, w, e).nodes) && |Next(cfg, w, e).handles| >= |w.handles|
    ensures SpentIn(Next(cfg, w, e), cap) >= SpentIn(w, cap)
    ensures SpentIn(Next(cfg, w, e), cap) > SpentIn(w, cap) ==>
      e.By? && e.handle < |w.handles| && !MarkedAt(w, e.handle, cap)
    ensures SpentIn(Next(cfg, w, e), cap) > SpentIn(w, cap) && SpentIn(Next(cfg, w, e), cap) > cap.max ==>
      e.By? && MarkedAt(Next(cfg, w, e), e.handle, cap)
    ensures forall j | MarkedAt(w, j, cap) :: MarkedAt(Next(cfg, w, e), j, cap)
  {
    hide WellFormed, Perform, Put, Carries, IsForest, Spent, ChargeOf, Fenced, Unestimated, Anchored, Marked;
    if e.Foreign? {
      ForeignSpend(cfg, w, e, cap);
    } else if e.handle < |w.handles| {
      assert w.handles[e.handle] in w.handles;
      OperationMarks(cfg, w.nodes, w.handles[e.handle], e.op, k, cap);
    }
  }

  /** Each handle settles above the limit once at most, and never once it is marked. */
  lemma {:induction false} OverOnce(cfg: Config, w: World, events: seq<Event>, j: nat, k: nat, cap: Cap)
    requires Guarded(cfg.enc, w, cap) && Unestimated(cfg.meters, k, cap.meter) && IsForest(w.nodes)
    requires AllFenced(cfg, w, events, cap.anchor)
    ensures |OverCalls(cfg, w, events, j, cap)| <= if MarkedAt(w, j, cap) then 0 else 1
    decreases |events|
  {
    hide WorldValid, Next, Fenced, IsForest, Spent, Unestimated, Carries, MarkedAt;
    if events != [] {
      EventMarks(cfg, w, events[0], k, cap);
      NextGuarded(cfg, w, events[0], cap);
      OverOnce(cfg, Next(cfg, w, events[0]), events[1..], j, k, cap);
    }
  }

  /** The one charge by which handle `j` overshoots, or 0. */
  ghost function OverCharge(cfg: Config, w: World, events: seq<Event>, j: nat, cap: Cap): int
    requires WorldValid(cfg.enc, w)
  {
    var calls := OverCalls(cfg, w, events, j, cap);
    if calls == [] then 0 else calls[0]
  }

  ghost function Sum(calls: seq<int>): int {
    if calls == [] then 0 else calls[0] + Sum(calls[1..])
  }

  lemma SumOne(calls: seq<int>)
    requires |calls| <= 1
    ensures Sum(calls) == if calls == [] then 0 else calls[0]
  {
    if calls != [] { assert calls[1..] == []; }
  }

  lemma SumCons(x: int, calls: seq<int>)
    ensures Sum((if x != 0 then [x] else []) + calls) == x + Sum(calls)
  {
    if x != 0 { assert ([x] + calls)[1..] == calls; } else { assert [] + calls == calls; }
  }

  lemma OverCallsStep(cfg: Config, w: World, events: seq<Event>, j: nat, cap: Cap)
    requires WorldValid(cfg.enc, w) && events != [] && WorldValid(cfg.enc, Next(cfg, w, events[0]))
    ensures Sum(OverCalls(cfg, w, events, j, cap)) ==
      Over(cfg, w, events[0], j, cap) + Sum(OverCalls(cfg, Next(cfg, w, events[0]), events[1..], j, cap))
  {
    hide WorldValid, Next, Over;
    SumCons(Over(cfg, w, events[0], j, cap), OverCalls(cfg, Next(cfg, w, events[0]), events[1..], j, cap));
  }

  /** The overshoots of the first `n` handles together. */
  ghost function TotalOver(cfg: Config, w: World, events: seq<Event>, n: nat, cap: Cap): int
    requires WorldValid(cfg.enc, w)
  {
    if n == 0 then 0 else TotalOver(cfg, w, events, n - 1, cap) + Sum(OverCalls(cfg, w, events, n - 1, cap))
  }

  lemma {:induction false} TotalOverStep(cfg: Config, w: World, events: seq<Event>, n: nat, cap: Cap)
    requires WorldValid(cfg.enc, w) && events != [] && WorldValid(cfg.enc, Next(cfg, w, events[0]))
    ensures
      var e, w1 := events[0], Next(cfg, w, events[0]);
      TotalOver(cfg, w, events, n, cap) == TotalOver(cfg, w1, events[1..], n, cap) +
        if e.By? && e.handle < n then Over(cfg, w, e, e.handle, cap) else 0
  {
    hide WorldValid, Next, Over, OverCalls;
    if n > 0 {
      TotalOverStep(cfg, w, events, n - 1, cap);
      NotOver(cfg, w, events[0], n - 1, cap);
      OverCallsStep(cfg, w, events, n - 1, cap);
    }
  }

  lemma NotOver(cfg: Config, w: World, e: Event, j: nat, cap: Cap)
    requires WorldValid(cfg.enc, w)
    ensures !(e.By? && e.handle == j) ==> Over(cfg, w, e, j, cap) == 0
  {
  }

  lemma {:induction false} NothingOver(cfg: Config, w: World, n: nat, cap: Cap)
    requires WorldValid(cfg.enc, w)
    ensures TotalOver(cfg, w, [], n, cap) == 0
  {
    if n > 0 { NothingOver(cfg, w, n - 1, cap); }
  }

  lemma {:induction false} EvolveHandles(cfg: Config, w: World, events: seq<Event>)
    requires WorldValid(cfg.enc, w)
    ensures |Evolve(cfg, w, events).handles| >= |w.handles|
    decreases |events|
  {
    if events != [] {
      NextValid(cfg, w, events[0]);
      NextHandles(cfg, w, events[0]);
      hide WorldValid, Next;
      EvolveHandles(cfg, Next(cfg, w, events[0]), events[1..]);
    }
  }

  lemma NextHandles(cfg: Config, w: World, e: Event)
    requires WorldValid(cfg.enc, w)
    ensures |Next(cfg, w, e).handles| >= |w.handles|
  {
    hide Perform, Put;
  }

  /** What an event adds is what its handle overshoots by, once the limit is passed. */
  lemma EventOver(cfg: Config, w: World, e: Event, n: nat, k: nat, cap: Cap)
    requires Guarded(cfg.enc, w, cap) && Unestimated(cfg.meters, k, cap.meter) && IsForest(w.nodes)
    requires e.Foreign? ==> Fenced(w.nodes, e.node, cap.anchor)
    requires n >= |w.handles|
    ensures IsForest(Next(cfg, w, e).nodes)
    ensures
      var added := if e.By? && e.handle < n then Over(cfg, w, e, e.handle, cap) else 0;
      && added >= 0
      && (SpentIn(Next(cfg, w, e), cap) > cap.max ==> SpentIn(Next(cfg, w, e), cap) == SpentIn(w, cap) + added)
  {
    hide WorldValid, Next, Fenced, IsForest, Spent, Unestimated, Carries, MarkedAt;
    EventMarks(cfg, w, e, k, cap);
  }

  /** The spend never exceeds the limit by more than the overshoots of all handles together. */
  lemma {:induction false} SpendBoundedByOvershoots(cfg: Config, w: World, events: seq<Event>, n: nat, slack: nat,
      k: nat, cap: Cap)
    requires Guarded(cfg.enc, w, cap) && Unestimated(cfg.meters, k, cap.meter) && IsForest(w.nodes)
    requires AllFenced(cfg, w, events, cap.anchor) && n >= |Evolve(cfg, w, events).handles|
    requires SpentIn(w, cap) <= cap.max + slack
    ensures IsForest(Evolve(cfg, w, events).nodes)
    ensures SpentIn(Evolve(cfg, w, events), cap) <= cap.max + slack + TotalOver(cfg, w, events, n, cap)
    decreases |events|
  {
    hide WorldValid, Next, Fenced, IsForest, Spent, Unestimated, Carries, Over, TotalOver;
    if events == [] {
      NothingOver(cfg, w, n, cap);
    } else {
      var e, w1 := events[0], Next(cfg, w, events[0]);
      EvolveHandles(cfg, w, events);
      EventOver(cfg, w, e, n, k, cap);
      NextGuarded(cfg, w, e, cap);
      TotalOverStep(cfg, w, events, n, cap);
      var added := if e.By? && e.handle < n then Over(cfg, w, e, e.handle, cap) else 0;
      SpendBoundedByOvershoots(cfg, w1, events[1..], n, slack + added, k, cap);
    }
  }

  ghost function OneEach(cfg: Config, w: World, events: seq<Event>, n: nat, cap: Cap): int
    requires WorldValid(cfg.enc, w)
  {
    if n == 0 then 0 else OneEach(cfg, w, events, n - 1, cap) + OverCharge(cfg, w, events, n - 1, cap)
  }

  lemma {:induction false} TotalIsOneEach(cfg: Config, w: World, events: seq<Event>, n: nat, k: nat, cap: Cap)
    requires Guarded(cfg.enc, w, cap) && Unestimated(cfg.meters, k, cap.meter) && IsForest(w.nodes)
    requires AllFenced(cfg, w, events, cap.anchor)
    ensures TotalOver(cfg, w, events, n, cap) == OneEach(cfg, w, events, n, cap)
  {
    hide WorldValid, IsForest, Spent, Unestimated, Carries, MarkedAt, AllFenced, OverCalls;
    if n > 0 {
      TotalIsOneEach(cfg, w, events, n - 1, k, cap);
      OverOnce(cfg, w, events, n - 1, k, cap);
      SumOne(OverCalls(cfg, w, events, n - 1, cap));
    }
  }

  /** Without an estimate, the spend exceeds the limit by at most one call's charge per handle. */
  lemma OvershootBound(cfg: Config, w: World, events: seq<Event>, k: nat, cap: Cap)
    requires Guarded(cfg.enc, w, cap) && Unestimated(cfg.meters, k, cap.meter) && IsForest(w.nodes)
    requires AllFenced(cfg, w, events, cap.anchor) && SpentIn(w, cap) <= cap.max
    ensures IsForest(Evolve(cfg, w, events).nodes)
    ensures SpentIn(Evolve(cfg, w, events), cap) <=
      cap.max + OneEach(cfg, w, events, |Evolve(cfg, w, events).handles|, cap)
    ensures forall j: nat :: |OverCalls(cfg, w, events, j, cap)| <= 1
  {
    hide WorldValid, IsForest, Spent, Unestimated, Carries, MarkedAt, AllFenced, OverCalls, Evolve, TotalOver, OneEach;
    var n := |Evolve(cfg, w, events).handles|;
    SpendBoundedByOvershoots(cfg, w, events, n, 0, k, cap);
    TotalIsOneEach(cfg, w, events, n, k, cap);
    forall j: nat ensures |OverCalls(cfg, w, events, j, cap)| <= 1 { OverOnce(cfg, w, events, j, k, cap); }
  }
}

/** What the check before a call lets through, and what a refusal says: in terms of meters, limits and spending. */
module BudgetCheck {
  import opened Order
  import opened JsonValue
  import opened Forest
  import ForestChange
  import opened Spending
  import opened Governor
  import opened Lifecycle

  // ---------------------------------------------------------------- the estimates in force

  /** A dictionary has each key once. */
  ghost predicate KeysOnce(items: Estimates) {
    forall i, j | 0 <= i < j < |items| :: items[i].0 != items[j].0
  }

  lemma {:induction false} SetItemMembers(items: Estimates, name: string, amount: int)
    requires KeysOnce(items)
    ensures KeysOnce(SetItem(items, name, amount))
    ensures forall e :: e in SetItem(items, name, amount) <==> e == (name, amount) || (e in items && e.0 != name)
  {
    if items != [] {
      var rest := items[1..];
      assert items == [items[0]] + rest && KeysOnce(rest);
      assert forall e | e in rest :: e.0 != items[0].0;
      if items[0].0 != name {
        SetItemMembers(rest, name, amount);
        KeysOnceCons(items[0], SetItem(rest, name, amount));
      } else {
        KeysOnceCons((name, amount), rest);
      }
    }
  }

  lemma KeysOnceCons(e: (string, int), rest: Estimates)
    requires KeysOnce(rest) && forall x | x in rest :: x.0 != e.0
    ensures KeysOnce([e] + rest)
  {
    var all := [e] + rest;
    forall i, j | 0 <= i < j < |all| ensures all[i].0 != all[j].0 {
      assert all[j] == rest[j - 1] && all[j] in rest;
      if i > 0 { assert all[i] == rest[i - 1]; }
    }
  }

  /** Meter `i` gives this estimate, and no later meter of that name gives one. */
  predicate GivesLast(meters: seq<Meter>, kind: Kind, payload: Dict, i: nat, name: string, amount: int)
    requires i < |meters|
  {
    && meters[i].name == name && meters[i].estimate(kind, payload) == Estimated(amount)
    && forall j | i < j < |meters| && meters[j].name == name :: !meters[j].estimate(kind, payload).Estimated?
  }

  ghost predicate Foreseen(meters: seq<Meter>, kind: Kind, payload: Dict, name: string, amount: int) {
    exists i | 0 <= i < |meters| :: GivesLast(meters, kind, payload, i, name, amount)
  }

  lemma ForeseenSnoc(meters: seq<Meter>, kind: Kind, payload: Dict, name: string, amount: int)
    requires meters != []
    ensures
      var front, last := meters[..|meters| - 1], meters[|meters| - 1];
      Foreseen(meters, kind, payload, name, amount) <==>
        if last.name == name && last.estimate(kind, payload).Estimated?
        then last.estimate(kind, payload) == Estimated(amount)
        else Foreseen(front, kind, payload, name, amount)
  {
    var k := |meters| - 1;
    var front, last := meters[..k], meters[k];
    forall i | 0 <= i < k
      ensures GivesLast(meters, kind, payload, i, name, amount) <==>
        && GivesLast(front, kind, payload, i, name, amount)
        && !(last.name == name && last.estimate(kind, payload).Estimated?)
    {
      GivesLastSnoc(meters, kind, payload, i, name, amount);
    }
    assert GivesLast(meters, kind, payload, k, name, amount) <==>
      last.name == name && last.estimate(kind, payload) == Estimated(amount);
    hide GivesLast;
  }

  lemma GivesLastSnoc(meters: seq<Meter>, kind: Kind, payload: Dict, i: nat, name: string, amount: int)
    requires i < |meters| - 1
    ensures
      var front, last := meters[..|meters| - 1], meters[|meters| - 1];
      GivesLast(meters, kind, payload, i, name, amount) <==>
        && GivesLast(front, kind, payload, i, name, amount)
        && !(last.name == name && last.estimate(kind, payload).Estimated?)
  {
    var front := meters[..|meters| - 1];
    assert forall j | 0 <= j < |front| :: front[j] == meters[j];
  }

  /** Estimation refuses exactly when a meter does; otherwise it holds what the meters foresee, each name once. */
  lemma {:induction false} EstimationExactly(meters: seq<Meter>, kind: Kind, payload: Dict)
    ensures
      var e := EstimateMeters(meters, kind, payload);
      && (e.refusal.Some? <==> exists i | 0 <= i < |meters| :: meters[i].estimate(kind, payload).Refuses?)
      && (e.refusal.None? ==>
          && KeysOnce(e.estimates)
          && forall name, amount :: (name, amount) in e.estimates <==> Foreseen(meters, kind, payload, name, amount))
  {
    if meters != [] {
      var front, last := meters[..|meters| - 1], meters[|meters| - 1];
      EstimationExactly(front, kind, payload);
      var before := EstimateMeters(front, kind, payload);
      assert forall i | 0 <= i < |front| :: meters[i] == front[i];
      if before.refusal.None? && last.estimate(kind, payload).Estimated? {
        SetItemMembers(before.estimates, last.name, last.estimate(kind, payload).amount);
      }
      forall name, amount {
        ForeseenSnoc(meters, kind, payload, name, amount);
      }
      hide SetItem, KeysOnce, Foreseen;
      assert last == meters[|meters| - 1];
    }
  }

  /** What the check counts on: the depth of the next node, and for any other name what the meters foresee. */
  ghost predicate Expected(cfg: Config, m: Nodes, cursor: Id, kind: Kind, payload: Dict, name: string, amount: int)
    requires IsForest(m) && cursor in m
  {
    if name == "depth" then amount == Depth(m, cursor) + 1 else Foreseen(cfg.meters, kind, payload, name, amount)
  }

  lemma ExpectedExactly(cfg: Config, m: Nodes, cursor: Id, kind: Kind, payload: Dict)
    requires IsForest(m) && cursor in m && EstimateMeters(cfg.meters, kind, payload).refusal.None?
    ensures forall name, amount :: (name, amount) in EstimatesFor(cfg, m, cursor, kind, payload) <==>
      Expected(cfg, m, cursor, kind, payload, name, amount)
  {
    hide IsForest, SetItem, EstimateMeters, Foreseen;
    EstimationExactly(cfg.meters, kind, payload);
    SetItemMembers(EstimateMeters(cfg.meters, kind, payload).estimates, "depth", Depth(m, cursor) + 1);
  }

  // ---------------------------------------------------------------- what passes

  /** The scope lets the call through: its amounts can be added up, it limits no exhausted meter, and whatever is
      expected fits what is left. */
  ghost predicate Admits(cfg: Config, m: Nodes, cursor: Id, kind: Kind, payload: Dict, s: Scope)
    requires IsForest(m) && cursor in m
  {
    && (forall x | x in m && IsAncestor(m, s.anchor, x) :: CleanNode(m[x]))
    && (forall k | k in s.limits :: k !in s.exhausted)
    && forall k, amount | k in s.limits && Expected(cfg, m, cursor, kind, payload, k, amount) ::
         Spent(m, s.anchor, k) + amount <= s.limits[k]
  }

  lemma CheckScopeExactly(cfg: Config, m: Nodes, cursor: Id, kind: Kind, payload: Dict, s: Scope)
    requires IsForest(m) && cursor in m && s.anchor in m && EstimateMeters(cfg.meters, kind, payload).refusal.None?
    ensures CheckScope(m, s, EstimatesFor(cfg, m, cursor, kind, payload)) == Passed <==>
      Admits(cfg, m, cursor, kind, payload, s)
  {
    hide IsForest, Spent, TotalsOf, Check, Expected, EstimatesFor, Preorder, CleanNode, IsAncestor;
    var estimates := EstimatesFor(cfg, m, cursor, kind, payload);
    ExpectedExactly(cfg, m, cursor, kind, payload);
    CheckPasses(s.limits, TotalsOf(m, s.anchor), estimates, s.exhausted);
    forall k { TotalsAreSpent(m, s.anchor, k); }
    forall x ensures x in Preorder(m, [s.anchor]) <==> IsAncestor(m, s.anchor, x) {
      ForestChange.SubtreeMembers(m, s.anchor, x);
    }
    assert (forall e | e in estimates :: Fits(s.limits, TotalsOf(m, s.anchor), e)) <==>
      forall k, amount | k in s.limits && (k, amount) in estimates :: Spent(m, s.anchor, k) + amount <= s.limits[k];
  }

  /** The precheck passes exactly when no meter refuses and every scope admits the call. */
  lemma PrecheckExactly(cfg: Config, m: Nodes, h: Handle, kind: Kind, payload: Dict)
    requires IsForest(m) && h.cursor in m && Anchored(m, h.scopes)
    ensures Precheck(cfg, m, h, kind, payload).Clear? <==>
      && (forall i | 0 <= i < |cfg.meters| :: !cfg.meters[i].estimate(kind, payload).Refuses?)
      && forall s | s in h.scopes :: Admits(cfg, m, h.cursor, kind, payload, s)
  {
    hide IsForest, EstimateMeters, CheckScope, Admits, EstimatesFor;
    EstimationExactly(cfg.meters, kind, payload);
    if EstimateMeters(cfg.meters, kind, payload).refusal.None? {
      AllScopesPass(m, h.scopes, EstimatesFor(cfg, m, h.cursor, kind, payload));
      forall s | s in h.scopes { CheckScopeExactly(cfg, m, h.cursor, kind, payload, s); }
    }
  }

  // ---------------------------------------------------------------- what a refusal says

  /** The refusal names its reason, its meter and the blocked call. */
  predicate TellsRefusal(cfg: Config, refusal: Dict, reason: string, meter: string, kind: Kind, payload: Dict) {
    && Get(refusal, "reason") == Some(Str(reason)) && Get(refusal, "meter") == Some(Str(meter))
    && Get(refusal, "blocked_kind") == Some(Str(kind.Name()))
    && Get(refusal, "blocked_payload_digest") == Some(Str(cfg.digest(payload)))
  }

  predicate TellsNumbers(refusal: Dict, requested: Option<string>, remaining: Option<string>) {
    && (requested.Some? ==> Get(refusal, "requested") == Some(Str(requested.value)))
    && (remaining.Some? ==> Get(refusal, "remaining") == Some(Str(remaining.value)))
  }

  lemma TextIfKeys(key: string, text: Option<string>)
    ensures TextIf(key, text).Keys == if text.Some? then {key} else {}
    ensures text.Some? ==> TextIf(key, text)[key] == Str(text.value)
  {
  }

  lemma RefusalKeysApart()
    ensures "requested" !in
      {"reason", "meter", "blocked_kind", "blocked_payload_digest", "remaining", "detail", "estimated"}
    ensures "remaining" !in {"reason", "meter", "blocked_kind", "blocked_payload_digest", "detail", "estimated"}
    ensures "detail" !in {"reason", "meter", "blocked_kind", "blocked_payload_digest"}
    ensures "estimated" !in {"reason", "meter", "blocked_kind", "blocked_payload_digest"}
  {
    assert "requested"[2] == 'q' && "remaining"[2] == 'm' && "estimated"[2] == 't';
    assert "detail"[0] == 'd' && "reason"[0] == 'r';
  }

  lemma RefusalTells(cfg: Config, kind: Kind, payload: Dict, reason: string, meter: string,
      requested: Option<string>, remaining: Option<string>, detail: Option<string>, estimated: bool)
    ensures
      var r := RefusalPayload(cfg, kind, payload, reason, meter, requested, remaining, detail, estimated);
      TellsRefusal(cfg, r, reason, meter, kind, payload) && TellsNumbers(r, requested, remaining)
  {
    hide TextIf;
    RefusalKeysApart();
    TextIfKeys("requested", requested);
    TextIfKeys("remaining", remaining);
    TextIfKeys("detail", detail);
    var base: Dict := map["reason" := Str(reason), "meter" := Str(meter), "blocked_kind" := Str(kind.Name()),
                          "blocked_payload_digest" := Str(cfg.digest(payload))];
    BaseTells(cfg, kind, payload, reason, meter, base);
    var extra: Dict := if estimated then map["estimated" := Str("true")] else map[];
    OverlaidTells(cfg, kind, payload, reason, meter, base, TextIf("requested", requested),
                  TextIf("remaining", remaining), TextIf("detail", detail), extra);
  }

  lemma BaseTells(cfg: Config, kind: Kind, payload: Dict, reason: string, meter: string, base: Dict)
    requires base == map["reason" := Str(reason), "meter" := Str(meter), "blocked_kind" := Str(kind.Name()),
                         "blocked_payload_digest" := Str(cfg.digest(payload))]
    ensures TellsRefusal(cfg, base, reason, meter, kind, payload)
  {
    assert |"blocked_kind"| != |"blocked_payload_digest"| && |"reason"| != |"meter"|;
  }

  lemma OverlaidTells(cfg: Config, kind: Kind, payload: Dict, reason: string, meter: string, base: Dict,
      requested: Dict, remaining: Dict, detail: Dict, extra: Dict)
    requires TellsRefusal(cfg, base, reason, meter, kind, payload)
    requires requested.Keys <= {"requested"} && remaining.Keys <= {"remaining"}
    requires detail.Keys <= {"detail"} && extra.Keys <= {"estimated"}
    ensures
      var r := base + requested + remaining + detail + extra;
      && TellsRefusal(cfg, r, reason, meter, kind, payload)
      && (forall k | k in requested :: k in r && r[k] == requested[k])
      && (forall k | k in remaining :: k in r && r[k] == remaining[k])
  {
    RefusalKeysApart();
    var r := base + requested + remaining + detail + extra;
    forall k | k in {"reason", "meter", "blocked_kind", "blocked_payload_digest"} ensures Get(r, k) == Get(base, k) {
      assert k !in requested && k !in remaining && k !in detail && k !in extra;
    }
  }

  /** A shortfall names a limited meter and what is left of it: the first exhausted one by name, or else the one of the
      first estimate that exceeds what is left. */
  ghost predicate TellsShortfall(limits: Limits, spent: Totals, estimates: Estimates, exhausted: set<string>,
      s: Shortfall)
  {
    && s.meter in limits && s.remaining == limits[s.meter] - Amount(spent, s.meter)
    && if s.meter in exhausted
       then s.requested == 0 && forall k | k in exhausted && k in limits :: k == s.meter || Lex(s.meter, k)
       else
         && (forall k | k in exhausted :: k !in limits)
         && IsFirstShort(limits, spent, estimates, s)
  }

  ghost predicate IsFirstShort(limits: Limits, spent: Totals, estimates: Estimates, s: Shortfall) {
    exists i | 0 <= i < |estimates| ::
      && estimates[i] == (s.meter, s.requested) && s.requested > s.remaining
      && forall j | 0 <= j < i :: Fits(limits, spent, estimates[j])
  }

  lemma CheckTells(limits: Limits, spent: Totals, estimates: Estimates, exhausted: set<string>)
    ensures match Check(limits, spent, estimates, exhausted)
      case None => true
      case Some(s) => TellsShortfall(limits, spent, estimates, exhausted, s)
  {
    hide FirstExhausted, FirstShort, IsFirstShort, Fits;
    var names := SortedStrings(exhausted);
    NoneExhausted(limits, spent, names);
    FirstByName(limits, spent, names);
    FirstByPlace(limits, spent, estimates);
    assert forall k :: k in names <==> k in Elements(names);
  }

  lemma {:induction false} FirstByName(limits: Limits, spent: Totals, names: seq<string>)
    requires Sorted(names, StringLess)
    ensures match FirstExhausted(limits, spent, names)
      case None => true
      case Some(s) =>
        && s.meter in names && s.meter in limits && s.requested == 0
        && s.remaining == limits[s.meter] - Amount(spent, s.meter)
        && forall k | k in names && k in limits :: k == s.meter || Lex(s.meter, k)
  {
    if names != [] {
      FirstByName(limits, spent, names[1..]);
      assert forall k | k in names :: k == names[0] || k in names[1..];
      assert forall k | k in names[1..] :: k in names;
    }
  }

  lemma {:induction false} FirstByPlace(limits: Limits, spent: Totals, estimates: Estimates)
    ensures match FirstShort(limits, spent, estimates)
      case None => true
      case Some(s) =>
        && s.meter in limits && s.remaining == limits[s.meter] - Amount(spent, s.meter)
        && IsFirstShort(limits, spent, estimates, s)
  {
    if estimates != [] {
      var rest := estimates[1..];
      FirstByPlace(limits, spent, rest);
      var first, later := FirstShort(limits, spent, estimates), FirstShort(limits, spent, rest);
      assert estimates[0] == (estimates[0].0, estimates[0].1);
      if first.Some? && !Fits(limits, spent, estimates[0]) {
        assert first.value.meter == estimates[0].0 && first.value.requested == estimates[0].1;
      } else if first.Some? {
        var i :| 0 <= i < |rest| && rest[i] == (later.value.meter, later.value.requested) &&
          later.value.requested > later.value.remaining && forall j | 0 <= j < i :: Fits(limits, spent, rest[j]);
        assert estimates[i + 1] == rest[i];
        assert forall j | 0 < j < i + 1 :: estimates[j] == rest[j - 1];
      }
    }
  }

  /** A budget refusal tells the truth: it names a limited meter of a scope that is exhausted or would be overdrawn,
      what was asked of it and what is left. */
  ghost predicate BudgetRefusal(cfg: Config, m: Nodes, cursor: Id, kind: Kind, payload: Dict, refusal: Dict, s: Scope,
      meter: string, requested: int)
    requires IsForest(m) && cursor in m
  {
    && meter in s.limits && TellsRefusal(cfg, refusal, "budget", meter, kind, payload)
    && var left := s.limits[meter] - Spent(m, s.anchor, meter);
    && TellsNumbers(refusal, Some(cfg.enc.str(Num(requested))), Some(cfg.enc.str(Num(left))))
    && ((meter in s.exhausted && requested == 0) ||
        (Expected(cfg, m, cursor, kind, payload, meter, requested) && requested > left))
  }

  /** A refusal by the first meter that refuses passes its reason and its numbers on. */
  ghost predicate MeterRefusal(cfg: Config, kind: Kind, payload: Dict, refusal: Dict, i: nat)
    requires i < |cfg.meters|
  {
    match cfg.meters[i].estimate(kind, payload)
    case Refuses(reason, detail, requested, remaining) =>
      && (forall j | 0 <= j < i :: !cfg.meters[j].estimate(kind, payload).Refuses?)
      && TellsRefusal(cfg, refusal, reason, cfg.meters[i].name, kind, payload)
      && TellsNumbers(refusal, requested, remaining)
    case _ => false
  }

  lemma {:induction false} FirstRefusal(meters: seq<Meter>, kind: Kind, payload: Dict) returns (i: nat)
    requires EstimateMeters(meters, kind, payload).refusal.Some?
    ensures i < |meters| && meters[i].estimate(kind, payload).Refuses?
    ensures EstimateMeters(meters, kind, payload).refusal == Some((meters[i].name, meters[i].estimate(kind, payload)))
    ensures forall j | 0 <= j < i :: !meters[j].estimate(kind, payload).Refuses?
  {
    var front := meters[..|meters| - 1];
    EstimationExactly(front, kind, payload);
    if EstimateMeters(front, kind, payload).refusal.Some? {
      i := FirstRefusal(front, kind, payload);
    } else {
      i := |meters| - 1;
      assert forall j | 0 <= j < |front| :: front[j] == meters[j];
    }
  }

  lemma {:induction false} FirstShortScope(m: Nodes, scopes: seq<Scope>, estimates: Estimates) returns (s: Scope)
    requires IsForest(m) && CheckScopes(m, scopes, estimates).Short?
    ensures s in scopes && CheckScope(m, s, estimates) == CheckScopes(m, scopes, estimates)
  {
    hide CheckScope;
    if CheckScope(m, scopes[0], estimates) != Passed {
      s := scopes[0];
    } else {
      s := FirstShortScope(m, scopes[1..], estimates);
      assert forall t | t in scopes[1..] :: t in scopes;
    }
  }

  /** The refusal says why: a meter refuses, or a budget does not admit the call. */
  ghost predicate Justified(cfg: Config, m: Nodes, h: Handle, kind: Kind, payload: Dict, refusal: Dict)
    requires IsForest(m) && h.cursor in m
  {
    || (exists i | 0 <= i < |cfg.meters| :: MeterRefusal(cfg, kind, payload, refusal, i))
    || exists s, meter, requested | s in h.scopes ::
         BudgetRefusal(cfg, m, h.cursor, kind, payload, refusal, s, meter, requested)
  }

  /** Every refusal before a call says why, truthfully. */
  lemma RefusalTrue(cfg: Config, m: Nodes, h: Handle, kind: Kind, payload: Dict)
    requires IsForest(m) && h.cursor in m && Precheck(cfg, m, h, kind, payload).Blocked?
    ensures Justified(cfg, m, h, kind, payload, Precheck(cfg, m, h, kind, payload).payload)
  {
    hide IsForest, EstimateMeters, CheckScope, EstimatesFor, RefusalPayload, Expected, TellsRefusal, TellsNumbers,
      Spent;
    var e := EstimateMeters(cfg.meters, kind, payload);
    if e.refusal.Some? {
      var i := FirstRefusal(cfg.meters, kind, payload);
      var r := cfg.meters[i].estimate(kind, payload);
      RefusalTells(cfg, kind, payload, r.reason, cfg.meters[i].name, r.requested, r.remaining, r.detail, false);
      assert MeterRefusal(cfg, kind, payload, Precheck(cfg, m, h, kind, payload).payload, i);
    } else {
      var estimates := EstimatesFor(cfg, m, h.cursor, kind, payload);
      var s := FirstShortScope(m, h.scopes, estimates);
      var short := CheckScope(m, s, estimates).shortfall;
      ShortScopeTells(cfg, m, h.cursor, kind, payload, s);
      RefusalTells(cfg, kind, payload, "budget", short.meter, NumberText(cfg, short.requested),
                   NumberText(cfg, short.remaining), None, short.meter in e.approximate);
      assert BudgetRefusal(cfg, m, h.cursor, kind, payload, Precheck(cfg, m, h, kind, payload).payload, s, short.meter,
                           short.requested);
    }
  }

  lemma ShortScopeTells(cfg: Config, m: Nodes, cursor: Id, kind: Kind, payload: Dict, s: Scope)
    requires IsForest(m) && cursor in m && EstimateMeters(cfg.meters, kind, payload).refusal.None?
    ensures
      var check := CheckScope(m, s, EstimatesFor(cfg, m, cursor, kind, payload));
      check.Short? ==>
        var Shortfall(meter, requested, remaining) := check.shortfall;
        && meter in s.limits && remaining == s.limits[meter] - Spent(m, s.anchor, meter)
        && ((meter in s.exhausted && requested == 0) ||
            (Expected(cfg, m, cursor, kind, payload, meter, requested) && requested > remaining))
  {
    hide IsForest, Spent, TotalsOf, Check, Expected, EstimatesFor, CleanBelow;
    var estimates := EstimatesFor(cfg, m, cursor, kind, payload);
    ExpectedExactly(cfg, m, cursor, kind, payload);
    CheckTells(s.limits, TotalsOf(m, s.anchor), estimates, s.exhausted);
    var check := CheckScope(m, s, estimates);
    if check.Short? { TotalsAreSpent(m, s.anchor, check.shortfall.meter); }
  }
}

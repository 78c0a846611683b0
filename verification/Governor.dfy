/** Budget scopes: the check before a call and the exhaustion after it. */
module Governor {
  import opened Order
  import opened JsonValue
  import opened Forest
  import opened Store
  import opened Spending

  type Limits = map<string, nat>

  /** Estimated charges in the order the source's dictionary lists them. */
  type Estimates = seq<(string, int)>

  /** A budget on everything at or below `anchor`. */
  datatype Scope = Scope(limits: Limits, anchor: Id, exhausted: set<string>)

  /** Why a budget check fails. */
  datatype Shortfall = Shortfall(meter: string, requested: int, remaining: int)

  // ---------------------------------------------------------------- check_budget

  /** The first exhausted meter, in name order, the budget limits. */
  function FirstExhausted(limits: Limits, spent: Totals, names: seq<string>): Option<Shortfall> {
    if names == [] then None
    else if names[0] in limits then Some(Shortfall(names[0], 0, limits[names[0]] - Amount(spent, names[0])))
    else FirstExhausted(limits, spent, names[1..])
  }

  /** The first estimate that does not fit. */
  function FirstShort(limits: Limits, spent: Totals, estimates: Estimates): Option<Shortfall> {
    if estimates == [] then None
    else
      var (meter, requested) := estimates[0];
      if meter in limits && limits[meter] - Amount(spent, meter) - requested < 0 then
        Some(Shortfall(meter, requested, limits[meter] - Amount(spent, meter)))
      else FirstShort(limits, spent, estimates[1..])
  }

  ghost function Check(limits: Limits, spent: Totals, estimates: Estimates, exhausted: set<string>): Option<Shortfall> {
    var first := FirstExhausted(limits, spent, SortedStrings(exhausted));
    if first.Some? then first else FirstShort(limits, spent, estimates)
  }

  predicate Fits(limits: Limits, spent: Totals, estimate: (string, int)) {
    estimate.0 in limits ==> Amount(spent, estimate.0) + estimate.1 <= limits[estimate.0]
  }

  lemma {:induction false} NoneExhausted(limits: Limits, spent: Totals, names: seq<string>)
    ensures FirstExhausted(limits, spent, names) == None <==> forall k | k in names :: k !in limits
    ensures forall s | FirstExhausted(limits, spent, names) == Some(s) :: s.meter in names && s.meter in limits
  {
    if names != [] {
      NoneExhausted(limits, spent, names[1..]);
      assert forall k | k in names :: k == names[0] || k in names[1..];
    }
  }

  lemma {:induction false} NoneShort(limits: Limits, spent: Totals, estimates: Estimates)
    ensures FirstShort(limits, spent, estimates) == None <==> forall e | e in estimates :: Fits(limits, spent, e)
  {
    if estimates != [] {
      NoneShort(limits, spent, estimates[1..]);
      assert forall e | e in estimates :: e == estimates[0] || e in estimates[1..];
      assert Fits(limits, spent, estimates[0]) <==>
        !(estimates[0].0 in limits && limits[estimates[0].0] - Amount(spent, estimates[0].0) - estimates[0].1 < 0);
    }
  }

  /** A budget lets a call through exactly when it limits no exhausted meter and every estimate fits what is left. */
  lemma CheckPasses(limits: Limits, spent: Totals, estimates: Estimates, exhausted: set<string>)
    ensures Check(limits, spent, estimates, exhausted) == None <==>
      (forall k | k in exhausted :: k !in limits) && forall e | e in estimates :: Fits(limits, spent, e)
  {
    var names := SortedStrings(exhausted);
    NoneExhausted(limits, spent, names);
    NoneShort(limits, spent, estimates);
    assert forall k :: k in names <==> k in Elements(names);
  }

  /** The first loop of `check_budget`. */
  method FindExhausted(limits: Limits, spent: Totals, names: seq<string>) returns (r: Option<Shortfall>)
    ensures r == FirstExhausted(limits, spent, names)
  {
    for i := 0 to |names|
      invariant FirstExhausted(limits, spent, names) == FirstExhausted(limits, spent, names[i..])
    {
      assert names[i..][0] == names[i] && names[i..][1..] == names[i + 1..];
      if names[i] in limits {
        return Some(Shortfall(names[i], 0, limits[names[i]] - Amount(spent, names[i])));
      }
    }
    r := None;
  }

  /** The second loop of `check_budget`. */
  method FindShort(limits: Limits, spent: Totals, estimates: Estimates) returns (r: Option<Shortfall>)
    ensures r == FirstShort(limits, spent, estimates)
  {
    for i := 0 to |estimates|
      invariant FirstShort(limits, spent, estimates) == FirstShort(limits, spent, estimates[i..])
    {
      assert estimates[i..][0] == estimates[i] && estimates[i..][1..] == estimates[i + 1..];
      var (meter, requested) := estimates[i];
      if meter in limits {
        var remaining := limits[meter] - Amount(spent, meter);
        if remaining - requested < 0 {
          return Some(Shortfall(meter, requested, remaining));
        }
      }
    }
    r := None;
  }

  /** `check_budget`. */
  method CheckBudget(limits: Limits, spent: Totals, estimates: Estimates, exhausted: set<string>)
    returns (r: Option<Shortfall>)
    ensures r == Check(limits, spent, estimates, exhausted)
  {
    hide FirstExhausted, FirstShort;
    StringLessTotal();
    var names := Sort(exhausted, StringLess);
    r := FindExhausted(limits, spent, names);
    if r.None? {
      r := FindShort(limits, spent, estimates);
    }
  }

  // ---------------------------------------------------------------- exhausted_after_settle

  /** The meters spent beyond their limit. */
  function Overspent(limits: Limits, spent: Totals): set<string> {
    set k | k in limits && Amount(spent, k) > limits[k]
  }

  method ExhaustedAfterSettle(limits: Limits, spent: Totals) returns (exhausted: set<string>)
    ensures exhausted == Overspent(limits, spent)
  {
    exhausted := {};
    var left := limits.Keys;
    while left != {}
      invariant left <= limits.Keys
      invariant exhausted == set k | k in limits && k !in left && Amount(spent, k) > limits[k]
      decreases left
    {
      var meter :| meter in left;
      left := left - {meter};
      if Amount(spent, meter) > limits[meter] {
        exhausted := exhausted + {meter};
      }
    }
  }

  // ---------------------------------------------------------------- scopes over a store

  ghost predicate Anchored(m: Nodes, scopes: seq<Scope>) {
    forall s | s in scopes :: s.anchor in m
  }

  /** `Unreadable` when a charge below the anchor is a boolean, which raises. */
  datatype ScopeCheck = Passed | Short(shortfall: Shortfall) | Unreadable

  ghost function CheckScope(m: Nodes, s: Scope, estimates: Estimates): ScopeCheck
    requires IsForest(m)
  {
    if !CleanBelow(m, s.anchor) then Unreadable
    else
      match Check(s.limits, TotalsOf(m, s.anchor), estimates, s.exhausted)
      case None => Passed
      case Some(shortfall) => Short(shortfall)
  }

  /** The loop of `_precheck` over the scopes. */
  ghost function CheckScopes(m: Nodes, scopes: seq<Scope>, estimates: Estimates): ScopeCheck
    requires IsForest(m)
  {
    if scopes == [] then Passed
    else
      var first := CheckScope(m, scopes[0], estimates);
      if first != Passed then first else CheckScopes(m, scopes[1..], estimates)
  }

  lemma {:induction false} AllScopesPass(m: Nodes, scopes: seq<Scope>, estimates: Estimates)
    requires IsForest(m)
    ensures CheckScopes(m, scopes, estimates) == Passed <==>
      forall s | s in scopes :: CheckScope(m, s, estimates) == Passed
  {
    if scopes != [] {
      hide CheckScope;
      AllScopesPass(m, scopes[1..], estimates);
      assert forall s | s in scopes :: s == scopes[0] || s in scopes[1..];
    }
  }

  /** What a passing check means for one meter of one scope. */
  lemma PassedScope(m: Nodes, s: Scope, estimates: Estimates, meter: string)
    requires IsForest(m) && CheckScope(m, s, estimates) == Passed && meter in s.limits
    ensures meter !in s.exhausted
    ensures forall e | e in estimates && e.0 == meter :: Spent(m, s.anchor, meter) + e.1 <= s.limits[meter]
  {
    hide Spent, TotalsOf, Check, CleanBelow;
    CheckPasses(s.limits, TotalsOf(m, s.anchor), estimates, s.exhausted);
    TotalsAreSpent(m, s.anchor, meter);
    forall e | e in estimates && e.0 == meter ensures Spent(m, s.anchor, meter) + e.1 <= s.limits[meter] {
      assert Fits(s.limits, TotalsOf(m, s.anchor), e);
    }
  }

  ghost function SettledScope(m: Nodes, s: Scope): Scope
    requires IsForest(m)
  {
    s.(exhausted := s.exhausted + Overspent(s.limits, TotalsOf(m, s.anchor)))
  }

  /** `_settle_scopes`. */
  ghost function SettledScopes(m: Nodes, scopes: seq<Scope>): (r: seq<Scope>)
    requires IsForest(m)
    ensures |r| == |scopes|
    ensures forall i | 0 <= i < |r| :: r[i] == SettledScope(m, scopes[i])
  {
    seq(|scopes|, i requires 0 <= i < |scopes| => SettledScope(m, scopes[i]))
  }

  /** Settling marks a meter exactly when it was marked or is overspent. */
  lemma SettledExhausted(m: Nodes, s: Scope, meter: string)
    requires IsForest(m)
    ensures meter in SettledScope(m, s).exhausted <==>
      meter in s.exhausted || (meter in s.limits && Spent(m, s.anchor, meter) > s.limits[meter])
  {
    hide Spent, TotalsOf;
    TotalsAreSpent(m, s.anchor, meter);
  }
}

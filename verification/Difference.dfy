/** The truncating structural diff, and the unbounded difference list it cuts short. */
module Difference {
  import opened Order
  import opened JsonValue
  import opened Pointer
  import opened Store

  // ---------------------------------------------------------------- the whole difference

  /** Values of the same Python type. */
  predicate SameType(a: Json, b: Json) {
    match a
    case Null => b.Null?
    case Bool(_) => b.Bool?
    case Num(_) => b.Num?
    case Str(_) => b.Str?
    case Arr(_) => b.Arr?
    case Obj(_) => b.Obj?
  }

  /** The entry of a difference at `path`; the root, having no pointer of its own here, shows as "/". */
  function Entry(path: string): string {
    if path == "" then "/" else path
  }

  function KeyPath(path: string, key: string): string {
    path + "/" + EncodeToken(key)
  }

  function IndexPath(path: string, i: nat): string {
    path + "/" + Decimal(i)
  }

  /** Every difference of two values, in document order. */
  ghost function Diff(l: Json, r: Json, path: string): seq<string>
    decreases l, 1, 0
  {
    match (l, r)
    case (Obj(f), Obj(g)) => DiffKeys(l, r, SortedStrings(f.Keys + g.Keys), path)
    case (Arr(f), Arr(g)) => DiffItems(l, r, Max(|f|, |g|), path)
    case _ => if l == r then [] else [Entry(path)]
  }

  ghost function DiffKeys(l: Json, r: Json, keys: seq<string>, path: string): seq<string>
    requires l.Obj? && r.Obj?
    decreases l, 0, |keys|
  {
    if keys == [] then []
    else DiffKeys(l, r, keys[..|keys| - 1], path) + DiffKey(l, r, keys[|keys| - 1], path)
  }

  ghost function DiffKey(l: Json, r: Json, k: string, path: string): seq<string>
    requires l.Obj? && r.Obj?
    decreases l, 0, 0
  {
    if k in l.fields && k in r.fields then Diff(l.fields[k], r.fields[k], KeyPath(path, k)) else [KeyPath(path, k)]
  }

  /** The differences at the first `n` indices. */
  ghost function DiffItems(l: Json, r: Json, n: nat, path: string): seq<string>
    requires l.Arr? && r.Arr?
    decreases l, 0, n
  {
    if n == 0 then [] else DiffItems(l, r, n - 1, path) + DiffItem(l, r, n - 1, path)
  }

  ghost function DiffItem(l: Json, r: Json, i: nat, path: string): seq<string>
    requires l.Arr? && r.Arr?
    decreases l, 0, 0
  {
    if i < |l.items| && i < |r.items| then Diff(l.items[i], r.items[i], IndexPath(path, i)) else [IndexPath(path, i)]
  }

  lemma DiffCases(l: Json, r: Json, path: string)
    ensures
      if l.Obj? && r.Obj? then Diff(l, r, path) == DiffKeys(l, r, SortedStrings(l.fields.Keys + r.fields.Keys), path)
      else if l.Arr? && r.Arr? then Diff(l, r, path) == DiffItems(l, r, Max(|l.items|, |r.items|), path)
      else Diff(l, r, path) == if l == r then [] else [Entry(path)]
  {
  }

  lemma NoKeys(l: Json, r: Json, path: string)
    requires l.Obj? && r.Obj?
    ensures DiffKeys(l, r, [], path) == []
  {
  }

  lemma DiffKeysSnoc(l: Json, r: Json, keys: seq<string>, i: nat, path: string)
    requires l.Obj? && r.Obj? && i < |keys|
    ensures DiffKeys(l, r, keys[..i + 1], path) == DiffKeys(l, r, keys[..i], path) + DiffKey(l, r, keys[i], path)
  {
    assert keys[..i + 1][..i] == keys[..i];
  }

  lemma DiffItemsSnoc(l: Json, r: Json, i: nat, path: string)
    requires l.Arr? && r.Arr?
    ensures DiffItems(l, r, i + 1, path) == DiffItems(l, r, i, path) + DiffItem(l, r, i, path)
  {
  }

  function Max(a: nat, b: nat): nat {
    if a < b then b else a
  }

  function Min(a: nat, b: nat): nat {
    if a < b then a else b
  }

  /** The first `n` entries. */
  function Cut(s: seq<string>, n: nat): seq<string> {
    s[..Min(n, |s|)]
  }

  // ---------------------------------------------------------------- the truncating traversal

  method InOrder(names: set<string>) returns (keys: seq<string>)
    ensures keys == SortedStrings(names)
  {
    StringLessTotal();
    keys := Sort(names, StringLess);
  }

  class Collector {
    const limit: int
    var paths: seq<string>
    var truncated: bool
    /** What an unbounded traversal would have added so far. */
    ghost var emitted: seq<string>

    ghost predicate Valid()
      reads this
    {
      && paths == Cut(emitted, if limit < 0 then 0 else limit)
      && (truncated <==> |emitted| > if limit < 0 then 0 else limit)
    }

    constructor (limit: int)
      ensures Valid() && this.limit == limit && emitted == []
    {
      this.limit := limit;
      paths, truncated, emitted := [], false, [];
    }

    method Add(path: string)
      requires Valid()
      modifies this
      ensures Valid() && emitted == old(emitted) + [Entry(path)]
    {
      emitted := emitted + [Entry(path)];
      if |paths| >= limit {
        truncated := true;
        return;
      }
      paths := paths + [Entry(path)];
    }

    /** Once truncated, nothing an unbounded traversal adds can be seen. */
    ghost method Skip(more: seq<string>)
      requires Valid() && truncated
      modifies this`emitted
      ensures Valid() && emitted == old(emitted) + more
    {
      emitted := emitted + more;
    }

    method Visit(l: Json, r: Json, path: string)
      requires Valid()
      modifies this
      ensures Valid() && emitted == old(emitted) + Diff(l, r, path)
      decreases l, 1, 0
    {
      hide Diff, DiffKeys, DiffItems, SortedStrings, Cut;
      DiffCases(l, r, path);
      if truncated {
        Skip(Diff(l, r, path));
        return;
      }
      if !SameType(l, r) {
        Add(path);
        return;
      }
      if l.Obj? {
        var keys := InOrder(l.fields.Keys + r.fields.Keys);
        VisitKeys(l, r, keys, path);
        return;
      }
      if l.Arr? {
        VisitItems(l, r, path);
        return;
      }
      if l != r { Add(path); } else { assert Diff(l, r, path) == []; }
    }

    method VisitKeys(l: Json, r: Json, keys: seq<string>, path: string)
      requires Valid() && l.Obj? && r.Obj? && keys == SortedStrings(l.fields.Keys + r.fields.Keys)
      modifies this
      ensures Valid() && emitted == old(emitted) + DiffKeys(l, r, keys, path)
      decreases l, 0
    {
      hide DiffKeys, Diff, Cut, SortedStrings, StrictTotal;
      ghost var before := emitted;
      NoKeys(l, r, path);
      for i := 0 to |keys|
        invariant Valid() && emitted == before + DiffKeys(l, r, keys[..i], path)
      {
        var key := keys[i];
        assert key in Elements(keys);
        DiffKeysSnoc(l, r, keys, i, path);
        if key !in l.fields || key !in r.fields {
          Add(KeyPath(path, key));
        } else {
          Visit(l.fields[key], r.fields[key], KeyPath(path, key));
        }
        Associate(before, DiffKeys(l, r, keys[..i], path), DiffKey(l, r, key, path));
      }
      assert keys[..|keys|] == keys;
    }

    method VisitItems(l: Json, r: Json, path: string)
      requires Valid() && l.Arr? && r.Arr?
      modifies this
      ensures Valid() && emitted == old(emitted) + DiffItems(l, r, Max(|l.items|, |r.items|), path)
      decreases l, 0
    {
      ghost var before := emitted;
      var common := Min(|l.items|, |r.items|);
      for index := 0 to common
        invariant Valid() && emitted == before + DiffItems(l, r, index, path)
      {
        DiffItemsSnoc(l, r, index, path);
        hide DiffItems, Cut;
        Visit(l.items[index], r.items[index], IndexPath(path, index));
        Associate(before, DiffItems(l, r, index, path), DiffItem(l, r, index, path));
      }
      for index := common to Max(|l.items|, |r.items|)
        invariant Valid() && emitted == before + DiffItems(l, r, index, path)
      {
        DiffItemsSnoc(l, r, index, path);
        hide DiffItems, Cut;
        Add(IndexPath(path, index));
        Associate(before, DiffItems(l, r, index, path), DiffItem(l, r, index, path));
      }
    }
  }

  /** `_difference_paths`: the first `limit` differences, and whether there are more. */
  method DifferencePaths(recorded: Json, live: Json, limit: int) returns (paths: seq<string>, truncated: bool)
    ensures paths == Cut(Diff(recorded, live, ""), if limit < 0 then 0 else limit)
    ensures truncated <==> |Diff(recorded, live, "")| > if limit < 0 then 0 else limit
  {
    var collector := new Collector(limit);
    collector.Visit(recorded, live, "");
    assert collector.emitted == Diff(recorded, live, "");
    paths, truncated := collector.paths, collector.truncated;
  }

  // ---------------------------------------------------------------- what the difference says

  lemma {:induction false} DiffKeysEmpty(l: Json, r: Json, keys: seq<string>, path: string)
    requires l.Obj? && r.Obj? && forall k | k in keys :: k in l.fields || k in r.fields
    ensures DiffKeys(l, r, keys, path) == [] <==>
      forall k | k in keys :: k in l.fields && k in r.fields && l.fields[k] == r.fields[k]
    decreases l, 0, |keys|
  {
    if keys != [] {
      var k := keys[|keys| - 1];
      DiffKeysEmpty(l, r, keys[..|keys| - 1], path);
      assert forall x | x in keys :: x in keys[..|keys| - 1] || x == k;
      if k in l.fields && k in r.fields { DiffEmpty(l.fields[k], r.fields[k], KeyPath(path, k)); }
    }
  }

  lemma {:induction false} DiffItemsEmpty(l: Json, r: Json, n: nat, path: string)
    requires l.Arr? && r.Arr?
    ensures DiffItems(l, r, n, path) == [] <==>
      n <= |l.items| && n <= |r.items| && forall i | 0 <= i < n :: l.items[i] == r.items[i]
    decreases l, 0, n
  {
    if n > 0 {
      DiffItemsEmpty(l, r, n - 1, path);
      if n <= |l.items| && n <= |r.items| { DiffEmpty(l.items[n - 1], r.items[n - 1], IndexPath(path, n - 1)); }
    }
  }

  /** No difference is found exactly when the values are identical, types included. */
  lemma {:induction false} DiffEmpty(l: Json, r: Json, path: string)
    ensures Diff(l, r, path) == [] <==> l == r
    decreases l, 1, 0
  {
    if l.Obj? && r.Obj? {
      var keys := SortedStrings(l.fields.Keys + r.fields.Keys);
      assert forall k :: k in keys <==> k in Elements(keys);
      DiffKeysEmpty(l, r, keys, path);
      if Diff(l, r, path) == [] { assert l.fields == r.fields; }
    } else if l.Arr? && r.Arr? {
      DiffItemsEmpty(l, r, Max(|l.items|, |r.items|), path);
      if Diff(l, r, path) == [] { assert l.items == r.items; }
    }
  }

  /** What `_difference_paths` reports, read back: nothing and not truncated exactly for identical values. */
  lemma ReportedNothing(l: Json, r: Json, limit: nat)
    ensures l == r <==> Cut(Diff(l, r, ""), limit) == [] && !(|Diff(l, r, "")| > limit)
  {
    DiffEmpty(l, r, "");
  }

  lemma {:induction false} DiffSymmetric(l: Json, r: Json, path: string)
    ensures Diff(l, r, path) == Diff(r, l, path)
    decreases l, 1, 0
  {
    if l.Obj? && r.Obj? {
      assert l.fields.Keys + r.fields.Keys == r.fields.Keys + l.fields.Keys;
      DiffKeysSymmetric(l, r, SortedStrings(l.fields.Keys + r.fields.Keys), path);
    } else if l.Arr? && r.Arr? {
      DiffItemsSymmetric(l, r, Max(|l.items|, |r.items|), path);
    }
  }

  lemma {:induction false} DiffKeysSymmetric(l: Json, r: Json, keys: seq<string>, path: string)
    requires l.Obj? && r.Obj?
    ensures DiffKeys(l, r, keys, path) == DiffKeys(r, l, keys, path)
    decreases l, 0, |keys|
  {
    if keys != [] {
      var k := keys[|keys| - 1];
      DiffKeysSymmetric(l, r, keys[..|keys| - 1], path);
      if k in l.fields && k in r.fields { DiffSymmetric(l.fields[k], r.fields[k], KeyPath(path, k)); }
    }
  }

  lemma {:induction false} DiffItemsSymmetric(l: Json, r: Json, n: nat, path: string)
    requires l.Arr? && r.Arr?
    ensures DiffItems(l, r, n, path) == DiffItems(r, l, n, path)
    decreases l, 0, n
  {
    if n > 0 {
      DiffItemsSymmetric(l, r, n - 1, path);
      if n <= |l.items| && n <= |r.items| { DiffSymmetric(l.items[n - 1], r.items[n - 1], IndexPath(path, n - 1)); }
    }
  }

  // ---------------------------------------------------------------- emitted pointers resolve

  /** A pointer from its encoded tokens. */
  function Render(tokens: seq<string>): string {
    if tokens == [] then "" else Render(tokens[..|tokens| - 1]) + "/" + tokens[|tokens| - 1]
  }

  predicate Plain(tokens: seq<string>) {
    forall t | t in tokens :: '/' !in t
  }

  lemma RenderSnoc(tokens: seq<string>, t: string)
    ensures Render(tokens + [t]) == Render(tokens) + "/" + t
  {
    assert (tokens + [t])[..|tokens|] == tokens;
  }

  lemma {:induction false} RenderCons(t: string, tokens: seq<string>)
    ensures Render([t] + tokens) == "/" + t + Render(tokens)
  {
    var all := [t] + tokens;
    if tokens == [] {
      assert all == [t] && all[..0] == [];
      assert "" + "/" + t == "/" + t + "";
    } else {
      var front, last := tokens[..|tokens| - 1], tokens[|tokens| - 1];
      assert all[..|all| - 1] == [t] + front;
      RenderCons(t, front);
      RenderParts("/" + t, Render(front), "/", last);
    }
  }

  lemma RenderParts(a: string, b: string, c: string, d: string)
    ensures (a + b) + c + d == a + (b + c + d)
  {
  }

  lemma {:induction false} SplitRender(tokens: seq<string>)
    requires tokens != [] && Plain(tokens)
    ensures Render(tokens) != "" && Render(tokens)[0] == '/' && Split(Render(tokens)[1..]) == tokens
  {
    var t, rest := tokens[0], tokens[1..];
    assert tokens == [t] + rest;
    RenderCons(t, rest);
    assert ("/" + t + Render(rest))[1..] == t + Render(rest);
    if rest == [] {
      assert t + "" == t;
      SplitPlain(t);
    } else {
      SplitRender(rest);
      assert Render(rest) == "/" + Render(rest)[1..];
      assert t + Render(rest) == t + "/" + Render(rest)[1..];
      SplitCons(t, Render(rest)[1..]);
    }
  }

  lemma TargetOfRender(root: Json, tokens: seq<string>)
    requires tokens != [] && Plain(tokens)
    ensures PointerTarget(root, Render(tokens)) == Descend(root, tokens)
  {
    SplitRender(tokens);
  }

  lemma StepKey(v: Json, k: string)
    requires v.Obj?
    ensures Pointer.Step(v, EncodeToken(k)) == Get(v.fields, k)
  {
    TokenRoundTrip(k);
  }

  lemma StepIndex(v: Json, i: nat)
    requires v.Arr?
    ensures Pointer.Step(v, Decimal(i)) == if i < |v.items| then Some(v.items[i]) else None
  {
    DecimalRoundTrip(i);
    DecodePlain(Decimal(i));
  }

  /** `tokens` leads to `l` in one document and to `r` in the other. */
  predicate Leads(recorded: Json, live: Json, tokens: seq<string>, l: Json, r: Json) {
    && Plain(tokens)
    && Descend(recorded, tokens) == Some(l)
    && Descend(live, tokens) == Some(r)
  }

  /** The pointer resolves in at least one document, and to different values if in both. */
  ghost predicate Separates(recorded: Json, live: Json, pointer: string) {
    PointerTarget(recorded, pointer) != PointerTarget(live, pointer)
  }

  lemma StepDown(recorded: Json, live: Json, tokens: seq<string>, l: Json, r: Json, t: string)
    requires Leads(recorded, live, tokens, l, r) && '/' !in t
    ensures Plain(tokens + [t]) && Render(tokens + [t]) == Render(tokens) + "/" + t
    ensures Descend(recorded, tokens + [t]) == Pointer.Step(l, t)
    ensures Descend(live, tokens + [t]) == Pointer.Step(r, t)
    ensures PointerTarget(recorded, Render(tokens + [t])) == Pointer.Step(l, t)
    ensures PointerTarget(live, Render(tokens + [t])) == Pointer.Step(r, t)
  {
    DescendAppend(recorded, tokens, [t]);
    DescendAppend(live, tokens, [t]);
    RenderSnoc(tokens, t);
    DescendOne(l, t);
    DescendOne(r, t);
    assert Plain(tokens + [t]);
    TargetOfRender(recorded, tokens + [t]);
    TargetOfRender(live, tokens + [t]);
  }

  lemma {:induction false} DiffSeparates(recorded: Json, live: Json, tokens: seq<string>, l: Json, r: Json, e: string)
    requires Leads(recorded, live, tokens, l, r)
    requires tokens != [] || AreContainers(l, r)
    requires e in Diff(l, r, Render(tokens))
    ensures Separates(recorded, live, e)
    decreases l, 1, 0
  {
    var path := Render(tokens);
    if l.Obj? && r.Obj? {
      DiffKeysSeparate(recorded, live, tokens, l, r, SortedStrings(l.fields.Keys + r.fields.Keys), e);
    } else if l.Arr? && r.Arr? {
      DiffItemsSeparate(recorded, live, tokens, l, r, Max(|l.items|, |r.items|), e);
    } else {
      SplitRender(tokens);
      TargetOfRender(recorded, tokens);
      TargetOfRender(live, tokens);
    }
  }

  lemma {:induction false} DiffKeysSeparate(
    recorded: Json, live: Json, tokens: seq<string>, l: Json, r: Json, keys: seq<string>, e: string)
    requires Leads(recorded, live, tokens, l, r) && l.Obj? && r.Obj?
    requires Elements(keys) <= l.fields.Keys + r.fields.Keys
    requires e in DiffKeys(l, r, keys, Render(tokens))
    ensures Separates(recorded, live, e)
    decreases l, 0, |keys|
  {
    var k, front := keys[|keys| - 1], keys[..|keys| - 1];
    assert k in Elements(keys) && Elements(front) <= Elements(keys);
    if e in DiffKeys(l, r, front, Render(tokens)) {
      DiffKeysSeparate(recorded, live, tokens, l, r, front, e);
    } else {
      var t := EncodeToken(k);
      TokenRoundTrip(k);
      StepDown(recorded, live, tokens, l, r, t);
      StepKey(l, k);
      StepKey(r, k);
      hide Descend, Render, EncodeToken, Plain, PointerTarget;
      if k in l.fields && k in r.fields {
        hide Pointer.Step;
        DiffSeparates(recorded, live, tokens + [t], l.fields[k], r.fields[k], e);
      }
    }
  }

  lemma {:induction false} DiffItemsSeparate(
    recorded: Json, live: Json, tokens: seq<string>, l: Json, r: Json, n: nat, e: string)
    requires Leads(recorded, live, tokens, l, r) && l.Arr? && r.Arr? && n <= Max(|l.items|, |r.items|)
    requires e in DiffItems(l, r, n, Render(tokens))
    ensures Separates(recorded, live, e)
    decreases l, 0, n
  {
    if e in DiffItems(l, r, n - 1, Render(tokens)) {
      DiffItemsSeparate(recorded, live, tokens, l, r, n - 1, e);
    } else {
      var t := Decimal(n - 1);
      DecimalRoundTrip(n - 1);
      StepDown(recorded, live, tokens, l, r, t);
      StepIndex(l, n - 1);
      StepIndex(r, n - 1);
      hide Descend, Render, Decimal, Plain, PointerTarget;
      if n <= |l.items| && n <= |r.items| {
        hide Pointer.Step;
        DiffSeparates(recorded, live, tokens + [t], l.items[n - 1], r.items[n - 1], e);
      }
    }
  }

  /** Two documents whose difference is never reported at the root. */
  predicate AreContainers(l: Json, r: Json) {
    (l.Obj? && r.Obj?) || (l.Arr? && r.Arr?)
  }

  /** Of two objects or two arrays every reported pointer separates the documents; otherwise the one entry is "/",
      and it does so exactly when a document is an object with an empty key. */
  lemma ReportedPointersResolve(recorded: Json, live: Json, e: string)
    requires e in Diff(recorded, live, "")
    ensures Separates(recorded, live, e) <==>
      AreContainers(recorded, live) || HasEmptyKey(recorded) || HasEmptyKey(live)
  {
    if AreContainers(recorded, live) {
      assert Leads(recorded, live, [], recorded, live);
      DiffSeparates(recorded, live, [], recorded, live, e);
    } else {
      SlashTarget(recorded);
      SlashTarget(live);
    }
  }

  predicate HasEmptyKey(v: Json) {
    v.Obj? && "" in v.fields
  }
}

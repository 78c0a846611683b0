/** What the difference list holds: exactly the places where two documents part, each once, in document order. */
module DifferenceReport {
  import opened Order
  import opened JsonValue
  import opened Forest
  import opened Pointer
  import opened Difference

  /** One step into a document. */
  datatype Place = Key(name: string) | Index(i: nat)

  type Path = seq<Place>

  function Token(p: Place): string {
    match p
    case Key(name) => EncodeToken(name)
    case Index(i) => Decimal(i)
  }

  function Tokens(path: Path): (r: seq<string>)
    ensures |r| == |path|
  {
    seq(|path|, k requires 0 <= k < |path| => Token(path[k]))
  }

  // ---------------------------------------------------------------- where two documents part

  /** Both pointers reach a container of the kind the next step goes into. */
  predicate BothOpen(a: Option<Json>, b: Option<Json>, p: Place) {
    && a.Some? && b.Some?
    && if p.Key? then a.value.Obj? && b.value.Obj? else a.value.Arr? && b.value.Arr?
  }

  /** The documents part at `path`: above it both have the same kind of container, and at it they answer differently
      and do not both go on. */
  predicate PartAt(l: Json, r: Json, path: Path) {
    && (forall k | 0 <= k < |path| ::
          BothOpen(Descend(l, Tokens(path[..k])), Descend(r, Tokens(path[..k])), path[k]))
    && var a, b := Descend(l, Tokens(path)), Descend(r, Tokens(path));
       a != b && !(a.Some? && b.Some? && AreContainers(a.value, b.value))
  }

  function Child(v: Json, p: Place): Option<Json> {
    match (v, p)
    case (Obj(fields), Key(name)) => Get(fields, name)
    case (Arr(items), Index(i)) => if i < |items| then Some(items[i]) else None
    case _ => None
  }

  /** The same, step by step. */
  predicate Parts(l: Json, r: Json, path: Path)
    decreases |path|
  {
    if path == [] then l != r && !AreContainers(l, r)
    else
      && BothOpen(Some(l), Some(r), path[0])
      && match (Child(l, path[0]), Child(r, path[0]))
         case (Some(a), Some(b)) => Parts(a, b, path[1..])
         case (None, None) => false
         case _ => path[1..] == []
  }

  lemma StepOpen(v: Json, p: Place)
    requires if p.Key? then v.Obj? else v.Arr?
    ensures Pointer.Step(v, Token(p)) == Child(v, p)
  {
    if p.Key? { StepKey(v, p.name); } else { StepIndex(v, p.i); }
  }

  lemma TokensCons(p: Place, path: Path)
    ensures Tokens([p] + path) == [Token(p)] + Tokens(path)
  {
  }

  lemma DescendCons(v: Json, p: Place, path: Path)
    requires if p.Key? then v.Obj? else v.Arr?
    ensures Descend(v, Tokens([p] + path)) ==
      match Child(v, p) case None => None case Some(next) => Descend(next, Tokens(path))
  {
    TokensCons(p, path);
    var all := [Token(p)] + Tokens(path);
    assert all[0] == Token(p) && all[1..] == Tokens(path);
    hide Tokens, Child, Pointer.Step;
    StepOpen(v, p);
  }

  /** The two readings agree. */
  lemma {:induction false} PartsIsPartAt(l: Json, r: Json, path: Path)
    ensures Parts(l, r, path) <==> PartAt(l, r, path)
    decreases |path|
  {
    if path == [] {
      assert Tokens(path) == [];
    } else {
      var p, rest := path[0], path[1..];
      assert path == [p] + rest;
      assert path[..0] == [] && Tokens(path[..0]) == [];
      if BothOpen(Some(l), Some(r), p) {
        forall k | 0 <= k <= |rest|
          ensures
            var at := Tokens(path[..k + 1]);
            && Descend(l, at) ==
              (match Child(l, p) case None => None case Some(next) => Descend(next, Tokens(rest[..k])))
            && Descend(r, at) ==
              (match Child(r, p) case None => None case Some(next) => Descend(next, Tokens(rest[..k])))
        {
          assert path[..k + 1] == [p] + rest[..k];
          DescendCons(l, p, rest[..k]);
          DescendCons(r, p, rest[..k]);
        }
        PartsBelow(l, r, path);
      } else {
        assert !BothOpen(Descend(l, Tokens(path[..0])), Descend(r, Tokens(path[..0])), path[0]);
      }
    }
  }

  lemma PartsBelow(l: Json, r: Json, path: Path)
    requires path != [] && BothOpen(Some(l), Some(r), path[0])
    requires forall k | 0 <= k <= |path| - 1 ::
      && Descend(l, Tokens(path[..k + 1])) ==
        (match Child(l, path[0]) case None => None case Some(next) => Descend(next, Tokens(path[1..][..k])))
      && Descend(r, Tokens(path[..k + 1])) ==
        (match Child(r, path[0]) case None => None case Some(next) => Descend(next, Tokens(path[1..][..k])))
    ensures Parts(l, r, path) <==> PartAt(l, r, path)
    decreases |path|, 0
  {
    hide Tokens, Descend, Child, AreContainers, Parts, PartAt, BothOpen;
    assert path[..0] == [] && path[1..][..0] == [];
    NoTokens();
    NothingDescends(l);
    NothingDescends(r);
    assert path[..0 + 1] == path[..1];
    if Child(l, path[0]).Some? && Child(r, path[0]).Some? {
      var a, b := Child(l, path[0]).value, Child(r, path[0]).value;
      PartsIsPartAt(a, b, path[1..]);
      PartsStep(l, r, path);
      PartAtBelow(l, r, path, a, b);
    } else {
      if Child(l, path[0]).Some? { NothingDescends(Child(l, path[0]).value); }
      if Child(r, path[0]).Some? { NothingDescends(Child(r, path[0]).value); }
      OneSided(l, r, path);
    }
  }

  lemma PartsStep(l: Json, r: Json, path: Path)
    requires path != [] && BothOpen(Some(l), Some(r), path[0])
    requires Child(l, path[0]).Some? && Child(r, path[0]).Some?
    ensures Parts(l, r, path) <==> Parts(Child(l, path[0]).value, Child(r, path[0]).value, path[1..])
  {
    hide Child, BothOpen;
  }

  lemma OneSided(l: Json, r: Json, path: Path)
    requires path != [] && BothOpen(Some(l), Some(r), path[0])
    requires Child(l, path[0]) == None || Child(r, path[0]) == None
    requires Descend(l, Tokens(path[..0])) == Some(l) && Descend(r, Tokens(path[..0])) == Some(r)
    requires Descend(l, Tokens(path[..1])).Some? == Child(l, path[0]).Some?
    requires Descend(r, Tokens(path[..1])).Some? == Child(r, path[0]).Some?
    ensures Parts(l, r, path) <==> PartAt(l, r, path)
  {
    hide Tokens, Descend, Child, AreContainers;
    if |path| == 1 {
      assert path[..1] == path && path[1..] == [];
    } else {
      assert !BothOpen(Descend(l, Tokens(path[..1])), Descend(r, Tokens(path[..1])), path[1]);
    }
  }

  lemma PartAtBelow(l: Json, r: Json, path: Path, a: Json, b: Json)
    requires path != [] && BothOpen(Some(l), Some(r), path[0])
    requires Descend(l, Tokens(path[..0])) == Some(l) && Descend(r, Tokens(path[..0])) == Some(r)
    requires forall k | 0 <= k <= |path| - 1 ::
      && Descend(l, Tokens(path[..k + 1])) == Descend(a, Tokens(path[1..][..k]))
      && Descend(r, Tokens(path[..k + 1])) == Descend(b, Tokens(path[1..][..k]))
    ensures PartAt(a, b, path[1..]) <==> PartAt(l, r, path)
  {
    hide Tokens, Descend, AreContainers, BothOpen, Child;
    var rest := path[1..];
    assert path[..|rest| + 1] == path && rest[..|rest|] == rest;
    if PartAt(l, r, path) {
      forall k | 0 <= k < |rest|
        ensures BothOpen(Descend(a, Tokens(rest[..k])), Descend(b, Tokens(rest[..k])), rest[k])
      {
        assert rest[k] == path[k + 1];
      }
    }
    if PartAt(a, b, rest) {
      forall k | 0 <= k < |path|
        ensures BothOpen(Descend(l, Tokens(path[..k])), Descend(r, Tokens(path[..k])), path[k])
      {
        if k > 0 { assert rest[k - 1] == path[k]; }
      }
    }
  }

  lemma NoTokens()
    ensures Tokens([]) == []
  {
  }

  lemma NothingDescends(v: Json)
    ensures Descend(v, []) == Some(v)
  {
  }

  // ---------------------------------------------------------------- document order

  predicate PlaceLess(a: Place, b: Place) {
    match (a, b)
    case (Key(k), Key(j)) => Lex(k, j)
    case (Index(i), Index(j)) => i < j
    case _ => false
  }

  /** Key by key in text order and item by item: decided at the first step that differs. */
  predicate Before(p: Path, q: Path)
    decreases |p|
  {
    p != [] && q != [] && (PlaceLess(p[0], q[0]) || (p[0] == q[0] && Before(p[1..], q[1..])))
  }

  ghost predicate Ordered(ps: seq<Path>) {
    forall i, j | 0 <= i < j < |ps| :: Before(ps[i], ps[j])
  }

  // ---------------------------------------------------------------- the list, place by place

  /** `d` shows the paths `ps` below the place `at`. */
  ghost predicate ShowsAll(at: seq<string>, d: seq<string>, ps: seq<Path>) {
    |d| == |ps| && forall i | 0 <= i < |d| :: d[i] == Entry(Render(at + Tokens(ps[i])))
  }

  function Below(p: Place, ps: seq<Path>): (r: seq<Path>)
    ensures |r| == |ps|
  {
    seq(|ps|, i requires 0 <= i < |ps| => [p] + ps[i])
  }

  lemma BelowMembers(p: Place, ps: seq<Path>, path: Path)
    ensures path in Below(p, ps) <==> path != [] && path[0] == p && path[1..] in ps
  {
    var r := Below(p, ps);
    if path in r {
      var i :| 0 <= i < |r| && r[i] == path;
      assert path == [p] + ps[i] && path[1..] == ps[i];
    }
    if path != [] && path[0] == p && path[1..] in ps {
      var i :| 0 <= i < |ps| && ps[i] == path[1..];
      assert r[i] == [p] + path[1..] == path;
    }
  }

  lemma BelowOrdered(p: Place, ps: seq<Path>)
    requires Ordered(ps)
    ensures Ordered(Below(p, ps))
  {
    var r := Below(p, ps);
    forall i, j | 0 <= i < j < |r| ensures Before(r[i], r[j]) {
      assert r[i][1..] == ps[i] && r[j][1..] == ps[j];
    }
  }

  lemma BelowShown(at: seq<string>, p: Place, d: seq<string>, ps: seq<Path>)
    requires ShowsAll(at + [Token(p)], d, ps)
    ensures ShowsAll(at, d, Below(p, ps))
  {
    forall i | 0 <= i < |d| ensures d[i] == Entry(Render(at + Tokens(Below(p, ps)[i]))) {
      TokensCons(p, ps[i]);
      assert (at + [Token(p)]) + Tokens(ps[i]) == at + ([Token(p)] + Tokens(ps[i]));
    }
  }

  lemma ShownConcat(at: seq<string>, d: seq<string>, ps: seq<Path>, d': seq<string>, ps': seq<Path>)
    requires ShowsAll(at, d, ps) && ShowsAll(at, d', ps')
    ensures ShowsAll(at, d + d', ps + ps')
  {
    hide Tokens, Render, Entry;
    var all, places := d + d', ps + ps';
    forall i | 0 <= i < |all| ensures all[i] == Entry(Render(at + Tokens(places[i]))) {
      if i < |d| {
        assert all[i] == d[i] && places[i] == ps[i];
      } else {
        assert all[i] == d'[i - |d|] && places[i] == ps'[i - |d|];
      }
    }
  }

  lemma OrderedConcat(ps: seq<Path>, ps': seq<Path>)
    requires Ordered(ps) && Ordered(ps') && forall p: Path, q: Path | p in ps && q in ps' :: Before(p, q)
    ensures Ordered(ps + ps')
  {
    var all := ps + ps';
    forall i, j | 0 <= i < j < |all| ensures Before(all[i], all[j]) {
      if i < |ps| && j >= |ps| { assert all[i] in ps && all[j] in ps'; }
    }
  }

  /** The list of a place with all that it needs: what it shows, which paths those are, and their order. */
  ghost predicate Accounts(l: Json, r: Json, at: seq<string>, d: seq<string>, ps: seq<Path>) {
    && ShowsAll(at, d, ps) && Ordered(ps)
    && forall path: Path :: path in ps <==> Parts(l, r, path)
  }

  /** The part of the list under one step. */
  ghost predicate AccountsUnder(l: Json, r: Json, at: seq<string>, p: Place, d: seq<string>, ps: seq<Path>) {
    && ShowsAll(at, d, ps) && Ordered(ps)
    && forall path: Path :: path in ps <==> path != [] && path[0] == p && Parts(l, r, path)
  }

  lemma RenderNotRoot(at: seq<string>, t: string)
    ensures Entry(Render(at + [t])) == Render(at) + "/" + t
  {
    RenderSnoc(at, t);
  }

  lemma {:induction false} DiffAccounts(l: Json, r: Json, at: seq<string>) returns (ps: seq<Path>)
    ensures Accounts(l, r, at, Diff(l, r, Render(at)), ps)
    decreases l, 1, 0
  {
    hide Parts, ShowsAll, Ordered, Render, Entry, DiffKeys, DiffItems, StrictTotal;
    if l.Obj? && r.Obj? {
      var keys := SortedStrings(l.fields.Keys + r.fields.Keys);
      ps := KeysAccount(l, r, at, keys);
      assert forall k :: k in keys <==> k in Elements(keys);
      AllKeys(l, r, keys, ps);
    } else if l.Arr? && r.Arr? {
      ps := ItemsAccount(l, r, at, Max(|l.items|, |r.items|));
      AllItems(l, r, ps);
    } else {
      ps := LeafAccount(l, r, at);
    }
  }

  lemma LeafAccount(l: Json, r: Json, at: seq<string>) returns (ps: seq<Path>)
    requires !AreContainers(l, r)
    ensures Accounts(l, r, at, if l == r then [] else [Entry(Render(at))], ps)
  {
    hide Render, Entry;
    ps := if l == r then [] else [[]];
    NoTokens();
    assert at + Tokens([]) == at;
    forall path: Path ensures path in ps <==> Parts(l, r, path) {}
  }

  lemma AllKeys(l: Json, r: Json, keys: seq<string>, ps: seq<Path>)
    requires l.Obj? && r.Obj? && forall k :: k in keys <==> k in l.fields || k in r.fields
    requires forall path: Path ::
      path in ps <==> path != [] && path[0].Key? && path[0].name in keys && Parts(l, r, path)
    ensures forall path: Path :: path in ps <==> Parts(l, r, path)
  {
  }

  lemma AllItems(l: Json, r: Json, ps: seq<Path>)
    requires l.Arr? && r.Arr?
    requires forall path: Path :: path in ps <==>
      path != [] && path[0].Index? && path[0].i < Max(|l.items|, |r.items|) && Parts(l, r, path)
    ensures forall path: Path :: path in ps <==> Parts(l, r, path)
  {
  }

  /** The list under key `k`. */
  lemma {:induction false} KeyAccounts(l: Json, r: Json, at: seq<string>, k: string) returns (ps: seq<Path>)
    requires l.Obj? && r.Obj? && (k in l.fields || k in r.fields)
    ensures AccountsUnder(l, r, at, Key(k), DiffKey(l, r, k, Render(at)), ps)
    decreases l, 0, 0
  {
    var t := EncodeToken(k);
    RenderSnoc(at, t);
    if k in l.fields && k in r.fields {
      var below := DiffAccounts(l.fields[k], r.fields[k], at + [t]);
      ps := UnderShared(l, r, at, Key(k), DiffKey(l, r, k, Render(at)), below);
    } else {
      ps := UnderOneSide(l, r, at, Key(k));
    }
  }

  lemma UnderShared(l: Json, r: Json, at: seq<string>, p: Place, d: seq<string>, below: seq<Path>)
    returns (ps: seq<Path>)
    requires BothOpen(Some(l), Some(r), p) && Child(l, p).Some? && Child(r, p).Some?
    requires Accounts(Child(l, p).value, Child(r, p).value, at + [Token(p)], d, below)
    ensures AccountsUnder(l, r, at, p, d, ps)
  {
    hide ShowsAll, Ordered, Child, BothOpen, Below;
    ps := Below(p, below);
    BelowShown(at, p, d, below);
    BelowOrdered(p, below);
    forall path: Path ensures path in ps <==> path != [] && path[0] == p && Parts(l, r, path) {
      BelowMembers(p, below, path);
    }
  }

  lemma UnderOneSide(l: Json, r: Json, at: seq<string>, p: Place) returns (ps: seq<Path>)
    requires BothOpen(Some(l), Some(r), p) && Child(l, p).Some? != Child(r, p).Some?
    ensures AccountsUnder(l, r, at, p, [Render(at) + "/" + Token(p)], ps)
  {
    ps := [[p]];
    assert Tokens([p]) == [Token(p)];
    RenderNotRoot(at, Token(p));
    forall path: Path ensures path in ps <==> path != [] && path[0] == p && Parts(l, r, path) {
      assert path in ps <==> path == [p];
      OneStep(l, r, p, path);
    }
  }

  lemma OneStep(l: Json, r: Json, p: Place, path: Path)
    requires BothOpen(Some(l), Some(r), p) && Child(l, p).Some? != Child(r, p).Some?
    ensures path == [p] <==> path != [] && path[0] == p && Parts(l, r, path)
  {
    hide Child, BothOpen;
    if path != [] && path[0] == p {
      assert path == [p] + path[1..];
      assert path[1..] == [] ==> path == [p];
    }
  }

  lemma {:induction false} KeysAccount(l: Json, r: Json, at: seq<string>, keys: seq<string>)
    returns (ps: seq<Path>)
    requires l.Obj? && r.Obj? && Sorted(keys, StringLess) && forall k | k in keys :: k in l.fields || k in r.fields
    ensures ShowsAll(at, DiffKeys(l, r, keys, Render(at)), ps) && Ordered(ps)
    ensures forall path: Path :: path in ps <==> path != [] && path[0].Key? && path[0].name in keys && Parts(l, r, path)
    decreases l, 0, |keys|
  {
    if keys == [] {
      ps := [];
    } else {
      var front, k := keys[..|keys| - 1], keys[|keys| - 1];
      assert keys == front + [k];
      var before := KeysAccount(l, r, at, front);
      var under := KeyAccounts(l, r, at, k);
      ps := before + under;
      hide Diff, DiffKey, Parts, ShowsAll, Ordered;
      ShownConcat(at, DiffKeys(l, r, front, Render(at)), before, DiffKey(l, r, k, Render(at)), under);
      forall p: Path, q: Path | p in before && q in under ensures Before(p, q) {
        var i :| 0 <= i < |front| && front[i] == p[0].name;
        assert StringLess(keys[i], keys[|keys| - 1]);
      }
      OrderedConcat(before, under);
    }
  }

  lemma {:induction false} ItemsAccount(l: Json, r: Json, at: seq<string>, n: nat) returns (ps: seq<Path>)
    requires l.Arr? && r.Arr? && n <= Max(|l.items|, |r.items|)
    ensures ShowsAll(at, DiffItems(l, r, n, Render(at)), ps) && Ordered(ps)
    ensures forall path: Path :: path in ps <==> path != [] && path[0].Index? && path[0].i < n && Parts(l, r, path)
    decreases l, 0, n
  {
    if n == 0 {
      ps := [];
    } else {
      var before := ItemsAccount(l, r, at, n - 1);
      var under := ItemAccounts(l, r, at, n - 1);
      ps := before + under;
      hide Diff, DiffItem, Parts, ShowsAll, Ordered;
      ShownConcat(at, DiffItems(l, r, n - 1, Render(at)), before, DiffItem(l, r, n - 1, Render(at)), under);
      OrderedConcat(before, under);
    }
  }

  /** The list under index `i`. */
  lemma {:induction false} ItemAccounts(l: Json, r: Json, at: seq<string>, i: nat) returns (ps: seq<Path>)
    requires l.Arr? && r.Arr? && i < Max(|l.items|, |r.items|)
    ensures AccountsUnder(l, r, at, Index(i), DiffItem(l, r, i, Render(at)), ps)
    decreases l, 0, 0
  {
    var t := Decimal(i);
    RenderSnoc(at, t);
    if i < |l.items| && i < |r.items| {
      var below := DiffAccounts(l.items[i], r.items[i], at + [t]);
      ps := UnderShared(l, r, at, Index(i), DiffItem(l, r, i, Render(at)), below);
    } else {
      ps := UnderOneSide(l, r, at, Index(i));
    }
  }

  /** The whole list: it shows, in document order, exactly the paths at which the documents part. */
  lemma DiffExactly(l: Json, r: Json) returns (ps: seq<Path>)
    ensures |ps| == |Diff(l, r, "")| && forall i | 0 <= i < |ps| :: Diff(l, r, "")[i] == Entry(Render(Tokens(ps[i])))
    ensures forall path: Path :: path in ps <==> PartAt(l, r, path)
    ensures Ordered(ps)
  {
    hide Diff, Parts, PartAt;
    assert Render([]) == "";
    ps := DiffAccounts(l, r, []);
    forall path: Path ensures Parts(l, r, path) <==> PartAt(l, r, path) { PartsIsPartAt(l, r, path); }
    assert forall i | 0 <= i < |ps| :: [] + Tokens(ps[i]) == Tokens(ps[i]);
  }

  // ---------------------------------------------------------------- no pointer twice

  lemma TokensApart(p: Place, q: Place)
    requires PlaceLess(p, q)
    ensures Token(p) != Token(q)
  {
    if p.Key? {
      LexTotal(p.name, p.name);
      TokenRoundTrip(p.name);
      TokenRoundTrip(q.name);
    } else {
      DecimalRoundTrip(p.i);
      DecimalRoundTrip(q.i);
    }
  }

  lemma {:induction false} BeforeApart(p: Path, q: Path)
    requires Before(p, q)
    ensures Tokens(p) != Tokens(q) && p != [] && q != []
    decreases |p|
  {
    if PlaceLess(p[0], q[0]) {
      TokensApart(p[0], q[0]);
      assert Tokens(p)[0] != Tokens(q)[0];
    } else {
      BeforeApart(p[1..], q[1..]);
      assert Tokens(p)[1..] == Tokens(p[1..]) && Tokens(q)[1..] == Tokens(q[1..]);
    }
  }

  lemma TokensPlain(path: Path)
    ensures Plain(Tokens(path))
  {
    forall k | 0 <= k < |path| ensures '/' !in Token(path[k]) {
      if path[k].Key? { TokenRoundTrip(path[k].name); } else { DecimalRoundTrip(path[k].i); }
    }
  }

  lemma RenderInjective(a: seq<string>, b: seq<string>)
    requires Plain(a) && Plain(b) && a != [] && b != [] && a != b
    ensures Entry(Render(a)) != Entry(Render(b))
  {
    SplitRender(a);
    SplitRender(b);
  }

  lemma DiffNoDuplicates(l: Json, r: Json)
    ensures NoDuplicates(Diff(l, r, ""))
  {
    hide Diff, PartAt, Tokens, Render;
    var ps := DiffExactly(l, r);
    var d := Diff(l, r, "");
    forall i, j | 0 <= i < j < |d| ensures d[i] != d[j] {
      BeforeApart(ps[i], ps[j]);
      TokensPlain(ps[i]);
      TokensPlain(ps[j]);
      NonEmptyTokens(ps[i]);
      NonEmptyTokens(ps[j]);
      RenderInjective(Tokens(ps[i]), Tokens(ps[j]));
    }
  }

  lemma NonEmptyTokens(path: Path)
    ensures path != [] ==> Tokens(path) != []
  {
  }

  // ---------------------------------------------------------------- completeness

  /** Wherever the pointer goes into an array, it does so by an index without leading zeros. */
  predicate CanonicalIn(v: Json, tokens: seq<string>)
    decreases |tokens|
  {
    tokens != [] ==>
    && (v.Arr? ==>
          var name := DecodeToken(tokens[0]);
          name.Some? && ParseIndex(name.value).Some? ==> name.value == Decimal(ParseIndex(name.value).value))
    && (Pointer.Step(v, tokens[0]).Some? ==> CanonicalIn(Pointer.Step(v, tokens[0]).value, tokens[1..]))
  }

  /** Under a common pair of containers a plain canonical token is the token of a place. */
  lemma PlaceOf(l: Json, r: Json, t: string) returns (p: Place)
    requires AreContainers(l, r) && '/' !in t && CanonicalIn(l, [t]) && CanonicalIn(r, [t])
    requires Pointer.Step(l, t) != Pointer.Step(r, t) || Pointer.Step(l, t).Some?
    ensures Token(p) == t && BothOpen(Some(l), Some(r), p)
    ensures Child(l, p) == Pointer.Step(l, t) && Child(r, p) == Pointer.Step(r, t)
  {
    var name := DecodeToken(t).value;
    DecodeExactly(t);
    if l.Obj? {
      p := Key(name);
    } else {
      p := Index(ParseIndex(name).value);
      DecimalRoundTrip(p.i);
      EncodePlain(name);
    }
    StepOpen(l, p);
    StepOpen(r, p);
  }

  lemma {:induction false} EncodePlain(s: string)
    requires '~' !in s && '/' !in s
    ensures EncodeToken(s) == s
  {
    EncodeCharacters("", "", 'x');
    if s != "" {
      assert s[0] in s && forall c | c in s[1..] :: c in s;
      EncodePlain(s[1..]);
      EncodeCharacters([s[0]], s[1..], s[0]);
      assert [s[0]] + s[1..] == s;
    }
  }

  lemma CanonicalHead(v: Json, tokens: seq<string>)
    requires tokens != [] && CanonicalIn(v, tokens)
    ensures CanonicalIn(v, [tokens[0]])
    ensures Pointer.Step(v, tokens[0]).Some? ==> CanonicalIn(Pointer.Step(v, tokens[0]).value, tokens[1..])
  {
    assert [tokens[0]][1..] == [];
  }

  lemma {:induction false} SomewhereParts(l: Json, r: Json) returns (path: Path)
    requires l != r
    ensures Parts(l, r, path)
  {
    hide Diff;
    DiffEmpty(l, r, Render([]));
    var ps := DiffAccounts(l, r, []);
    path := ps[0];
    assert path in ps;
  }

  /** Wherever a pointer finds different answers the documents part: there, above it or below it. */
  lemma {:induction false} PartsNearby(l: Json, r: Json, tokens: seq<string>) returns (path: Path)
    requires Plain(tokens) && CanonicalIn(l, tokens) && CanonicalIn(r, tokens)
    requires Descend(l, tokens) != Descend(r, tokens)
    ensures Parts(l, r, path) && (Tokens(path) <= tokens || tokens <= Tokens(path))
    decreases |tokens|
  {
    assert l != r;
    if tokens == [] {
      path := SomewhereParts(l, r);
    } else if !AreContainers(l, r) {
      path := [];
    } else {
      var t, rest := tokens[0], tokens[1..];
      assert t in tokens && forall x | x in rest :: x in tokens;
      CanonicalHead(l, tokens);
      CanonicalHead(r, tokens);
      var p := PlaceOf(l, r, t);
      if Child(l, p).Some? && Child(r, p).Some? {
        var below := PartsNearby(Child(l, p).value, Child(r, p).value, rest);
        path := [p] + below;
        assert path[1..] == below;
        TokensCons(p, below);
        PrefixCons(t, Tokens(below), rest, tokens);
      } else {
        path := [p];
        assert [p][1..] == [];
        TokensCons(p, []);
        NoTokens();
        assert Tokens(path) == [t] <= tokens;
      }
    }
  }

  lemma PrefixCons(t: string, a: seq<string>, b: seq<string>, all: seq<string>)
    requires all != [] && all[0] == t && all[1..] == b && (a <= b || b <= a)
    ensures [t] + a <= all || all <= [t] + a
  {
    assert all == [t] + b;
  }

  /** Completeness: whatever pointer gives different answers in the two documents, a reported entry is its place,
      or lies above or below it. */
  lemma DiffComplete(l: Json, r: Json, tokens: seq<string>) returns (path: Path)
    requires Plain(tokens) && CanonicalIn(l, tokens) && CanonicalIn(r, tokens)
    requires Descend(l, tokens) != Descend(r, tokens)
    ensures Entry(Render(Tokens(path))) in Diff(l, r, "")
    ensures PartAt(l, r, path) && (Tokens(path) <= tokens || tokens <= Tokens(path))
  {
    hide Diff, Parts, PartAt, CanonicalIn, Render, Tokens;
    path := PartsNearby(l, r, tokens);
    PartsIsPartAt(l, r, path);
    var ps := DiffExactly(l, r);
    var i :| 0 <= i < |ps| && ps[i] == path;
    assert Diff(l, r, "")[i] in Diff(l, r, "");
  }
}

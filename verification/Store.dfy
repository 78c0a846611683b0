/** The append-only in-memory store. */
module Store {
  import opened Order
  import opened JsonValue
  import opened Forest
  import opened ForestChange

  // ---------------------------------------------------------------- put, as a function of the contents

  /** `==` on identity tuples: Python equality of the payloads. */
  predicate SameIdentity(a: Node, b: Node) {
    a.parent == b.parent && a.kind == b.kind && a.attempt == b.attempt && PyEqDict(a.payload, b.payload)
  }

  function ConflictEntry(n: Node): Json {
    Obj(map["result_digest" := if n.resultDigest.Some? then Str(n.resultDigest.value) else Null,
            "result" := if n.result.Some? then n.result.value else Null])
  }

  function Texts(s: seq<string>): seq<Json> {
    seq(|s|, i requires 0 <= i < |s| => Str(s[i]))
  }

  /** The values `list` makes a list of: lists, texts by their characters, objects by their keys. */
  predicate IsIterable(v: Json) {
    v.Arr? || v.Str? || v.Obj?
  }

  /** `list` of the result conflicts noted so far; `None` where it raises. */
  function NotedConflicts(enc: Encoding, meta: Dict): (r: Option<seq<Json>>)
    ensures r.Some? <==> ("result_conflicts" in meta ==> IsIterable(meta["result_conflicts"]))
  {
    match Get(meta, "result_conflicts")
    case None => Some([])
    case Some(Arr(items)) => Some(items)
    case Some(Str(s)) => Some(Texts(seq(|s|, i requires 0 <= i < |s| => [s[i]])))
    case Some(Obj(fields)) => Some(Texts(enc.keyOrder(fields)))
    case Some(_) => None
  }

  /** `_handle_existing`: the first result stays, a different one is noted. */
  function Absorb(enc: Encoding, existing: Node, incoming: Node): Result<Node> {
    if !SameIdentity(existing, incoming) then Err(IntegrityError)
    else if incoming.result == None || incoming.result == existing.result then Ok(existing)
    else
      match NotedConflicts(enc, existing.meta)
      case None => Err(TypeError)
      case Some(items) =>
        Ok(existing.(meta := existing.meta["result_conflicts" := Arr(items + [ConflictEntry(incoming)])]))
  }

  function Put(enc: Encoding, m: Nodes, n: Node): Result<Nodes> {
    if !enc.ValidForPut(n) then Err(IntegrityError)
    else if n.parent.Some? && n.parent.value !in m then Err(KeyError)
    else if n.id in m then
      match Absorb(enc, m[n.id], n)
      case Ok(kept) => Ok(m[n.id := kept])
      case Err(e) => Err(e)
    else Ok(m[n.id := n])
  }

  /** `m'` extends `m`: ids, identities and stored results are never lost or changed. */
  ghost predicate Extends(m: Nodes, m': Nodes) {
    forall x | x in m :: x in m' && m'[x] == m[x].(meta := m'[x].meta)
  }

  /** Growth changes no ancestry among the nodes that were there. */
  lemma {:induction false} AncestorSame(m: Nodes, m': Nodes, a: Id, x: Id)
    requires IsForest(m) && IsForest(m') && Extends(m, m') && x in m
    ensures IsAncestor(m, a, x) <==> IsAncestor(m', a, x)
    decreases Ceiling(Height(m)) - Height(m)[x]
  {
    if m[x].parent.Some? && a != x { AncestorSame(m, m', a, m[x].parent.value); }
  }

  lemma PutExtends(enc: Encoding, m: Nodes, n: Node)
    requires Put(enc, m, n).Ok?
    ensures Extends(m, Put(enc, m, n).value)
  {
  }

  /** A put keeps the forest well formed and adds at most the node put. */
  lemma PutWellFormed(enc: Encoding, m: Nodes, n: Node)
    requires WellFormed(enc, m) && Put(enc, m, n).Ok?
    ensures WellFormed(enc, Put(enc, m, n).value)
    ensures n.id in m ==> SameShape(m, Put(enc, m, n).value)
    ensures n.id !in m ==> IsNewLeaf(m, n) && Put(enc, m, n).value == m[n.id := n]
  {
    var m' := Put(enc, m, n).value;
    if n.id in m {
      SameShapeForest(m, m');
    } else {
      InsertForest(m, n);
    }
  }

  /** With injective ids, a put on an existing id fails only where its noted conflicts are a number, boolean or null. */
  lemma PutSucceeds(enc: Encoding, m: Nodes, n: Node)
    requires WellFormed(enc, m) && enc.InjectiveIds()
    ensures Put(enc, m, n).Ok? <==>
      && enc.ValidForPut(n)
      && (n.parent.Some? ==> n.parent.value in m)
      && (n.id in m && n.result.Some? && n.result != m[n.id].result && "result_conflicts" in m[n.id].meta
          ==> IsIterable(m[n.id].meta["result_conflicts"]))
  {
    hide WellFormed, SameIdentity;
    if n.id in m && enc.ValidForPut(n) { SameIdSameIdentity(enc, m, n); }
  }

  lemma SameIdSameIdentity(enc: Encoding, m: Nodes, n: Node)
    requires WellFormed(enc, m) && enc.InjectiveIds() && n.id in m && enc.ValidForPut(n)
    ensures SameIdentity(m[n.id], n) && m[n.id].Identity() == n.Identity()
  {
    assert enc.ExpectedId(m[n.id]) == enc.ExpectedId(n);
    forall k | k in n.payload { PyEqReflexive(n.payload[k]); }
  }

  /** Metadata with one more entry in its list of result conflicts, the digest and the result of `n`. */
  ghost predicate NotesResult(was: Dict, n: Node, now: Dict) {
    var key := "result_conflicts";
    && now.Keys == was.Keys + {key} && (forall k | k in was && k != key :: now[k] == was[k])
    && now[key].Arr? && |now[key].items| > 0
    && var items := now[key].items;
    && (key !in was ==> |items| == 1)
    && (key in was && was[key].Arr? ==> items[..|items| - 1] == was[key].items)
    && n.result.Some? && n.resultDigest.Some?
    && items[|items| - 1] == Obj(map["result" := n.result.value, "result_digest" := Str(n.resultDigest.value)])
  }

  lemma AppendNotes(was: Dict, n: Node, items: seq<Json>)
    requires n.result.Some? && n.resultDigest.Some?
    requires "result_conflicts" !in was ==> items == []
    requires "result_conflicts" in was && was["result_conflicts"].Arr? ==> items == was["result_conflicts"].items
    ensures NotesResult(was, n, was["result_conflicts" := Arr(items + [ConflictEntry(n)])])
  {
    assert (items + [ConflictEntry(n)])[..|items|] == items;
  }

  /** A second put of an id changes no other node, no field and no result: a result that differs is noted. */
  lemma PutNotes(enc: Encoding, m: Nodes, n: Node)
    requires n.id in m && Put(enc, m, n).Ok?
    ensures
      var was, m' := m[n.id], Put(enc, m, n).value;
      && (forall x :: (x in m' <==> x in m) && (x in m && x != n.id ==> m'[x] == m[x]))
      && m'[n.id] == was.(meta := m'[n.id].meta)
      && if n.result.Some? && n.result != was.result then NotesResult(was.meta, n, m'[n.id].meta) else m'[n.id] == was
  {
    hide NotesResult, SameIdentity, ConflictEntry, IsIterable;
    var noted := NotedConflicts(enc, m[n.id].meta);
    if n.result.Some? && noted.Some? { AppendNotes(m[n.id].meta, n, noted.value); }
  }

  /** A new node is added; a node put again, with no other result, changes nothing. */
  lemma PutOutcome(enc: Encoding, m: Nodes, n: Node)
    requires WellFormed(enc, m) && enc.InjectiveIds() && enc.ValidForPut(n) && (n.parent.Some? ==> n.parent.value in m)
    ensures n.id !in m ==> Put(enc, m, n) == Ok(m[n.id := n])
    ensures n.id in m && (n.result == None || n.result == m[n.id].result) ==> Put(enc, m, n) == Ok(m)
  {
    if n.id in m {
      SameIdSameIdentity(enc, m, n);
      hide SameIdentity, IsForest;
      assert m[n.id := m[n.id]] == m;
    }
  }

  // ---------------------------------------------------------------- roots

  type RootKey = (string, Id)

  const RootLess: (RootKey, RootKey) -> bool :=
    (a: RootKey, b: RootKey) => Lex(a.0, b.0) || (a.0 == b.0 && Lex(a.1, b.1))

  lemma RootLessTotal()
    ensures StrictTotal(RootLess)
  {
    forall a: RootKey, b: RootKey ensures !RootLess(a, a) && (a == b || RootLess(a, b) || RootLess(b, a)) {
      LexTotal(a.0, b.0);
      LexTotal(a.1, b.1);
    }
    forall a: RootKey, b: RootKey, c: RootKey | RootLess(a, b) && RootLess(b, c) ensures RootLess(a, c) {
      if Lex(a.0, b.0) && Lex(b.0, c.0) { LexTransitive(a.0, b.0, c.0); }
      if a.0 == b.0 && b.0 == c.0 && Lex(a.1, b.1) && Lex(b.1, c.1) { LexTransitive(a.1, b.1, c.1); }
    }
  }

  function RootKeyOf(enc: Encoding, n: Node): RootKey {
    (match Get(n.payload, "run")
     case None => ""
     case Some(Str(s)) => s
     case Some(v) => enc.str(v), n.id)
  }

  ghost function SortedRootKeys(s: set<RootKey>): (r: seq<RootKey>)
    ensures Sorted(r, RootLess) && Elements(r) == s
  {
    RootLessTotal();
    Enumerate(s, RootLess)
  }

  function RootKeys(enc: Encoding, m: Nodes): set<RootKey> {
    set x | x in m && m[x].parent == None :: RootKeyOf(enc, m[x])
  }

  function Seconds<T>(keys: seq<(T, Id)>): seq<Id> {
    seq(|keys|, i requires 0 <= i < |keys| => keys[i].1)
  }

  /** The parentless nodes, sorted by (run label, id). */
  ghost function Roots(enc: Encoding, m: Nodes): seq<Id> {
    Seconds(SortedRootKeys(RootKeys(enc, m)))
  }

  lemma RootsMembers(enc: Encoding, m: Nodes)
    requires forall x | x in m :: m[x].id == x
    ensures forall x :: x in Roots(enc, m) <==> x in m && m[x].parent == None
    ensures NoDuplicates(Roots(enc, m))
  {
    var keys := SortedRootKeys(RootKeys(enc, m));
    var r := Roots(enc, m);
    RootLessTotal();
    SortedDistinct(keys, RootLess);
    forall i | 0 <= i < |r| ensures r[i] in m && m[r[i]].parent == None && keys[i] == RootKeyOf(enc, m[r[i]]) {
      assert keys[i] in Elements(keys);
    }
    forall x | x in m && m[x].parent == None ensures x in r {
      assert RootKeyOf(enc, m[x]) in Elements(keys);
      var i :| 0 <= i < |keys| && keys[i] == RootKeyOf(enc, m[x]);
      assert r[i] == x;
    }
  }

  // ---------------------------------------------------------------- walks

  ghost function NodesAt(m: Nodes, ids: seq<Id>): seq<Node>
    requires forall x | x in ids :: x in m
  {
    seq(|ids|, i requires 0 <= i < |ids| => m[ids[i]])
  }

  function IdsOf(nodes: seq<Node>): seq<Id> {
    seq(|nodes|, i requires 0 <= i < |nodes| => nodes[i].id)
  }

  function Reverse<T>(s: seq<T>): (r: seq<T>)
    ensures |r| == |s| && forall i | 0 <= i < |s| :: r[i] == s[|s| - 1 - i]
  {
    if s == [] then [] else Reverse(s[1..]) + [s[0]]
  }

  lemma {:induction false} ReverseAppend<T>(a: seq<T>, b: seq<T>)
    ensures Reverse(a + b) == Reverse(b) + Reverse(a)
  {
  }

  lemma {:induction false} ReverseReverse<T>(a: seq<T>)
    ensures Reverse(Reverse(a)) == a
  {
  }

  lemma SubtreeWithin(m: Nodes, root: Id)
    requires IsForest(m) && root in m
    ensures forall x | x in Preorder(m, [root]) :: x in m
  {
    forall x | x in Preorder(m, [root]) ensures x in m { SubtreeMembers(m, root, x); }
  }

  /** The nodes a walk from `root` yields, in order. */
  ghost function WalkOf(m: Nodes, root: Id): seq<Node>
    requires IsForest(m) && root in m
  {
    SubtreeWithin(m, root);
    NodesAt(m, Preorder(m, [root]))
  }

  /** Popping the top of the stack and pushing its children reversed is one preorder step. */
  lemma PopStep(m: Nodes, pending: seq<Id>)
    requires IsForest(m) && pending != []
    ensures
      var top := pending[|pending| - 1];
      var next := pending[..|pending| - 1] + Reverse(Children(m, top));
      Preorder(m, Reverse(pending)) == [top] + Preorder(m, Reverse(next))
  {
    var top := pending[|pending| - 1];
    var below := pending[..|pending| - 1];
    assert pending == below + [top] && Reverse([top]) == [top];
    ReverseAppend(below, [top]);
    ReverseAppend(below, Reverse(Children(m, top)));
    ReverseReverse(Children(m, top));
    PreorderCons(m, top, Reverse(below));
  }

  /** Half-way through a walk: `out` was yielded, the stack holds the rest, top last. */
  ghost predicate Walking(m: Nodes, root: Id, out: seq<Node>, pending: seq<Id>)
    requires IsForest(m)
  {
    && (forall n | n in out :: n.id in m && n == m[n.id])
    && IdsOf(out) + Preorder(m, Reverse(pending)) == Preorder(m, [root])
  }

  lemma WalkStart(m: Nodes, root: Id)
    requires IsForest(m)
    ensures Walking(m, root, [], [root])
  {
    assert Reverse([root]) == [root];
    assert IdsOf([]) == [];
  }

  lemma WalkStep(m: Nodes, root: Id, out: seq<Node>, pending: seq<Id>)
    requires IsForest(m) && root in m && Walking(m, root, out, pending) && pending != []
    ensures
      var top := pending[|pending| - 1];
      var next := pending[..|pending| - 1] + Reverse(Children(m, top));
      && top in m && Walking(m, root, out + [m[top]], next)
      && |Preorder(m, Reverse(next))| < |Preorder(m, Reverse(pending))|
  {
    var top := pending[|pending| - 1];
    var next := pending[..|pending| - 1] + Reverse(Children(m, top));
    PopStep(m, pending);
    SubtreeWithin(m, root);
    hide Preorder, Reverse;
    Shift(IdsOf(out), top, Preorder(m, Reverse(next)));
    assert top in m;
    IdsOfSnoc(out, m[top]);
  }

  lemma Shift<T>(a: seq<T>, x: T, rest: seq<T>)
    ensures a + ([x] + rest) == (a + [x]) + rest
    ensures x in a + ([x] + rest)
  {
    assert (a + ([x] + rest))[|a|] == x;
  }

  lemma IdsOfSnoc(nodes: seq<Node>, n: Node)
    ensures IdsOf(nodes + [n]) == IdsOf(nodes) + [n.id]
  {
  }

  lemma IdsOfConcat(a: seq<Node>, b: seq<Node>)
    ensures IdsOf(a + b) == IdsOf(a) + IdsOf(b)
  {
  }

  lemma WalkIds(m: Nodes, root: Id)
    requires IsForest(m) && root in m
    ensures
      var ids, walk := Preorder(m, [root]), WalkOf(m, root);
      |walk| == |ids| && forall i | 0 <= i < |ids| :: ids[i] in m && walk[i] == m[ids[i]] && walk[i].id == ids[i]
  {
    SubtreeWithin(m, root);
    var ids := Preorder(m, [root]);
    assert forall j | 0 <= j < |ids| :: ids[j] in ids;
  }

  lemma WalkEnd(m: Nodes, root: Id, out: seq<Node>)
    requires IsForest(m) && root in m && Walking(m, root, out, [])
    ensures out == WalkOf(m, root)
  {
    assert Preorder(m, Reverse([])) == [];
    assert IdsOf(out) == Preorder(m, [root]);
    forall i | 0 <= i < |out| ensures out[i] == WalkOf(m, root)[i] {
      assert IdsOf(out)[i] == out[i].id;
      assert out[i] in out;
    }
  }

  method Sort<T(==, !new)>(s: set<T>, less: (T, T) -> bool) returns (r: seq<T>)
    requires StrictTotal(less)
    ensures r == Enumerate(s, less)
  {
    hide StrictTotal;
    r := [];
    var left := s;
    while left != {}
      invariant left <= s && Sorted(r, less) && Elements(r) == s - left
    {
      var x :| x in left;
      SortStep(x, r, s, left, less);
      r := Insert(x, r, less);
      left := left - {x};
    }
    assert Elements(r) == s;
    SortedIsEnumerate(r, less);
  }

  lemma SortStep<T(!new)>(x: T, r: seq<T>, s: set<T>, left: set<T>, less: (T, T) -> bool)
    requires StrictTotal(less) && x in left && left <= s && Sorted(r, less) && Elements(r) == s - left
    ensures Sorted(Insert(x, r, less), less) && Elements(Insert(x, r, less)) == s - (left - {x})
  {
    InsertSorted(x, r, less);
  }

  /** `children[p]` is exactly the set of children of `p`. */
  ghost predicate Indexed(m: Nodes, children: map<Id, set<Id>>) {
    forall p, c :: (p in children && c in children[p]) <==> IsChild(m, p, c)
  }

  lemma IndexedSameShape(m: Nodes, m': Nodes, children: map<Id, set<Id>>)
    requires Indexed(m, children) && SameShape(m, m')
    ensures Indexed(m', children)
  {
    forall p, c ensures IsChild(m, p, c) <==> IsChild(m', p, c) {}
  }

  function WithChild(children: map<Id, set<Id>>, n: Node): map<Id, set<Id>> {
    if n.parent == None then children
    else
      var p := n.parent.value;
      children[p := (if p in children then children[p] else {}) + {n.id}]
  }

  lemma IndexedInsert(m: Nodes, children: map<Id, set<Id>>, n: Node)
    requires Indexed(m, children) && n.id !in m
    ensures Indexed(m[n.id := n], WithChild(children, n))
  {
    var m', children' := m[n.id := n], WithChild(children, n);
    forall p, c ensures (p in children' && c in children'[p]) <==> IsChild(m', p, c) {
      assert (p in children && c in children[p]) <==> IsChild(m, p, c);
      assert !IsChild(m, p, n.id);
    }
  }

  /** Changing only the metadata of one node keeps the store valid. */
  lemma RelabelValid(enc: Encoding, m: Nodes, children: map<Id, set<Id>>, n: Node)
    requires WellFormed(enc, m) && Indexed(m, children)
    requires n.id in m && n == m[n.id].(meta := n.meta)
    ensures WellFormed(enc, m[n.id := n]) && Indexed(m[n.id := n], children)
  {
    SameShapeForest(m, m[n.id := n]);
    IndexedSameShape(m, m[n.id := n], children);
  }

  /** Dropping nodes leaves a store in order exactly when everything below a dropped node is dropped too. */
  lemma DropWellFormed(enc: Encoding, m: Nodes, ids: set<Id>)
    requires WellFormed(enc, m)
    ensures WellFormed(enc, m - ids) <==> DownClosed(m, ids)
  {
    if DownClosed(m, ids) { DropForest(m, ids); }
    if WellFormed(enc, m - ids) {
      forall x | x in m && m[x].parent.Some? && m[x].parent.value in ids ensures x in ids {
        ParentStored(m - ids, x);
      }
    }
  }

  lemma ParentStored(m: Nodes, x: Id)
    requires IsForest(m)
    ensures x in m && m[x].parent.Some? ==> m[x].parent.value in m
  {
  }

  class MemoryStore {
    const enc: Encoding
    var nodes: Nodes
    var children: map<Id, set<Id>>

    /** A well-formed forest with an exact child index. */
    ghost predicate Valid()
      reads this
    {
      && WellFormed(enc, nodes)
      && Indexed(nodes, children)
    }

    constructor (enc: Encoding)
      ensures Valid() && this.enc == enc && nodes == map[]
    {
      this.enc := enc;
      nodes, children := map[], map[];
      new;
      assert Heights(nodes, map[]);
    }

    method PutNode(n: Node) returns (r: Result<()>)
      requires Valid()
      modifies this
      ensures Valid()
      ensures match Put(enc, old(nodes), n)
        case Ok(m) => r == Ok(()) && nodes == m
        case Err(e) => r == Err(e) && nodes == old(nodes) && children == old(children)
    {
      if !enc.ValidForPut(n) { return Err(IntegrityError); }
      if n.parent.Some? && n.parent.value !in nodes { return Err(KeyError); }
      if Put(enc, nodes, n).Ok? { PutWellFormed(enc, nodes, n); }
      if n.id in nodes {
        r := HandleExisting(nodes[n.id], n);
        return;
      }
      IndexedInsert(nodes, children, n);
      nodes := nodes[n.id := n];
      children := WithChild(children, n);
      r := Ok(());
    }

    method HandleExisting(existing: Node, incoming: Node) returns (r: Result<()>)
      requires Valid() && existing.id in nodes && nodes[existing.id] == existing && incoming.id == existing.id
      modifies this`nodes
      ensures Valid()
      ensures match Absorb(enc, existing, incoming)
        case Ok(kept) => r == Ok(()) && nodes == old(nodes)[existing.id := kept]
        case Err(e) => r == Err(e) && nodes == old(nodes)
    {
      if !SameIdentity(existing, incoming) { return Err(IntegrityError); }
      if incoming.result == None || incoming.result == existing.result {
        assert nodes == nodes[existing.id := existing];
        return Ok(());
      }
      var noted := NotedConflicts(enc, existing.meta);
      if noted == None { return Err(TypeError); }
      var conflicts := noted.value + [ConflictEntry(incoming)];
      var kept := existing.(meta := existing.meta["result_conflicts" := Arr(conflicts)]);
      RelabelValid(enc, nodes, children, kept);
      nodes := nodes[existing.id := kept];
      r := Ok(());
    }

    method GetNode(id: Id) returns (r: Result<Node>)
      ensures r == if id in nodes then Ok(nodes[id]) else Err(KeyError)
    {
      if id in nodes { r := Ok(nodes[id]); } else { r := Err(KeyError); }
    }

    method ChildrenOf(id: Id) returns (r: seq<Id>)
      requires Valid()
      ensures r == Children(nodes, id)
    {
      var ids := if id in children then children[id] else {};
      assert forall c | c in ids :: IsChild(nodes, id, c);
      KeyLessTotal();
      var keys := Sort(set c | c in ids :: (nodes[c].kind, c), KeyLess);
      assert (set c | c in ids :: (nodes[c].kind, c)) == ChildKeys(nodes, id);
      r := Ids(keys);
    }

    method UpdateMeta(id: Id, patch: Dict) returns (r: Result<()>)
      requires Valid()
      modifies this`nodes
      ensures Valid()
      ensures id !in old(nodes) ==> r == Err(KeyError) && nodes == old(nodes)
      ensures id in old(nodes) ==>
        r == Ok(()) && nodes == old(nodes)[id := old(nodes)[id].(meta := old(nodes)[id].meta + patch)]
    {
      if id !in nodes { return Err(KeyError); }
      RelabelValid(enc, nodes, children, nodes[id].(meta := nodes[id].meta + patch));
      nodes := nodes[id := nodes[id].(meta := nodes[id].meta + patch)];
      r := Ok(());
    }

    /** The explicit-stack traversal: it terminates and yields the recursive preorder. */
    method Walk(root: Id) returns (r: Result<seq<Node>>)
      requires Valid()
      ensures root in nodes ==> r == Ok(WalkOf(nodes, root))
      ensures root !in nodes ==> r == Err(KeyError)
    {
      if root !in nodes { return Err(KeyError); }
      ghost var m := nodes;
      assert IsForest(m);
      hide *;
      WalkStart(m, root);
      var out: seq<Node>, pending := [], [root];
      while pending != []
        invariant Walking(m, root, out, pending)
        decreases |Preorder(m, Reverse(pending))|
      {
        WalkStep(m, root, out, pending);
        var id := pending[|pending| - 1];
        out := out + [nodes[id]];
        var kids := ChildrenOf(id);
        pending := pending[..|pending| - 1] + Reverse(kids);
      }
      WalkEnd(m, root, out);
      r := Ok(out);
    }

    method RootIds() returns (r: seq<Id>)
      requires Valid()
      ensures r == Roots(enc, nodes)
    {
      RootLessTotal();
      var keys := Sort(RootKeys(enc, nodes), RootLess);
      r := Seconds(keys);
    }

    /** Drops the given nodes and rebuilds the index. */
    method DropNodes(ids: set<Id>)
      requires forall x | x in nodes :: nodes[x].id == x
      modifies this
      ensures nodes == old(nodes) - ids && Indexed(nodes, children)
      ensures old(Valid()) ==> (Valid() <==> DownClosed(old(nodes), ids))
    {
      hide WellFormed, DownClosed;
      if WellFormed(enc, nodes) { DropWellFormed(enc, nodes, ids); }
      ghost var kept := nodes - ids;
      assert forall x | x in kept :: kept[x].id == x;
      nodes := map x | x in nodes && x !in ids :: nodes[x];
      children := map[];
      var left := nodes.Keys;
      while left != {}
        invariant nodes == kept && left <= nodes.Keys && Indexed(nodes - left, children)
      {
        var c :| c in left;
        IndexedInsert(nodes - left, children, nodes[c]);
        assert nodes - (left - {c}) == (nodes - left)[c := nodes[c]];
        children := WithChild(children, nodes[c]);
        left := left - {c};
      }
      assert nodes - left == nodes;
    }
  }

  lemma ValidIsForest(store: MemoryStore)
    requires store.Valid()
    ensures IsForest(store.nodes)
  {
  }
}

/** Node records and the theory of the forests they form. */
module Forest {
  import opened Order
  import opened JsonValue

  /** A node id or digest: 64 lower-case hex digits, compared as text. */
  type Id = string
  type Digest = string

  /** In the alphabetical order of their wire names. */
  datatype Kind = ModelCall | Note | Refusal | Root | ToolCall {
    function Name(): string {
      match this
      case ModelCall => "model_call"
      case Note => "note"
      case Refusal => "refusal"
      case Root => "root"
      case ToolCall => "tool_call"
    }

    function Rank(): nat {
      match this
      case ModelCall => 0
      case Note => 1
      case Refusal => 2
      case Root => 3
      case ToolCall => 4
    }
  }

  lemma RankIsNameOrder(a: Kind, b: Kind)
    ensures a.Rank() < b.Rank() <==> Lex(a.Name(), b.Name())
  {
    if a == b {
      LexTotal(a.Name(), b.Name());
    } else if a.Refusal? && b.Root? {
      assert Lex("efusal", "oot");
    } else if b.Refusal? && a.Root? {
      assert !Lex("oot", "efusal");
    }
  }

  /** `result` is the stored result text; `None` when the node has none. */
  datatype Node = Node(
    id: Id,
    parent: Option<Id>,
    kind: Kind,
    attempt: nat,
    payload: Dict,
    result: Option<Json>,
    resultDigest: Option<Digest>,
    meta: Dict)
  {
    function Identity(): (Option<Id>, Kind, nat, Dict) {
      (parent, kind, attempt, payload)
    }
  }

  /** What a rolling seal hashes for one node. */
  datatype SealRecord = SealRecord(
    index: nat, id: Id, parent: Option<Id>, kind: Kind, resultDigest: Option<Digest>, previous: string)

  /** The hash and text functions of the source, over documents; arbitrary unless stated injective.
      `isDigest` is the format check on digests: no hash with a fixed format can be injective, so it is a parameter
      too. `keyOrder` is the order in which a dictionary yields its keys. */
  datatype Encoding = Encoding(
    nodeId: (Kind, Option<Id>, nat, Dict) -> Id,
    resultDigest: Json -> Digest,
    seal: SealRecord -> string,
    jsonText: Json -> string,
    str: Json -> string,
    isDigest: string -> bool,
    keyOrder: Dict -> seq<string>)
  {
    function ExpectedId(n: Node): Id {
      nodeId(n.kind, n.parent, n.attempt, n.payload)
    }

    /** Accepted by `_validate_for_put`, for a node whose constructor succeeded. */
    predicate ValidForPut(n: Node) {
      && n.id == ExpectedId(n)
      && (n.result.Some? ==> n.resultDigest == Some(resultDigest(n.result.value)))
      && (n.kind == Root <==> n.parent == None)
    }

    /** `Node.make`. */
    function Make(kind: Kind, parent: Option<Id>, attempt: nat, payload: Dict, result: Option<Json>, meta: Dict): Node
    {
      Node(nodeId(kind, parent, attempt, payload), parent, kind, attempt, payload, result,
           if result.Some? then Some(resultDigest(result.value)) else None, meta)
    }

    ghost predicate InjectiveIds() {
      forall k, p, a, d, k', p', a', d' ::
        nodeId(k, p, a, d) == nodeId(k', p', a', d') ==> k == k' && p == p' && a == a' && d == d'
    }

    ghost predicate InjectiveResults() {
      forall r, r' :: resultDigest(r) == resultDigest(r') ==> r == r'
    }

    ghost predicate InjectiveTexts() {
      forall v, v' :: jsonText(v) == jsonText(v') ==> v == v'
    }

    ghost predicate InjectiveSeals() {
      forall r, r' :: seal(r) == seal(r') ==> r == r'
    }
  }

  type Nodes = map<Id, Node>

  // ---------------------------------------------------------------- forests

  /** `rank` falls from parent to child. */
  ghost predicate Heights(m: Nodes, rank: map<Id, nat>) {
    && rank.Keys == m.Keys
    && forall x | x in m && m[x].parent.Some? :: m[x].parent.value in m && rank[x] < rank[m[x].parent.value]
  }

  /** Keyed by id, closed under parents, without cycles. */
  ghost predicate IsForest(m: Nodes) {
    && (forall x | x in m :: m[x].id == x)
    && exists rank :: Heights(m, rank)
  }

  ghost function Height(m: Nodes): (rank: map<Id, nat>)
    requires IsForest(m)
    ensures Heights(m, rank)
  {
    var rank :| Heights(m, rank);
    rank
  }

  /** Every node passed `_validate_for_put`. */
  ghost predicate Intact(enc: Encoding, m: Nodes) {
    forall x | x in m :: enc.ValidForPut(m[x])
  }

  ghost predicate WellFormed(enc: Encoding, m: Nodes) {
    IsForest(m) && Intact(enc, m)
  }

  lemma WellFormedIsForest(enc: Encoding, m: Nodes)
    requires WellFormed(enc, m)
    ensures IsForest(m) && Intact(enc, m)
  {
  }

  // ---------------------------------------------------------------- children

  type Key = (Kind, Id)

  const KeyLess: (Key, Key) -> bool := (a: Key, b: Key) => a.0.Rank() < b.0.Rank() || (a.0 == b.0 && Lex(a.1, b.1))

  lemma KeyLessTotal()
    ensures StrictTotal(KeyLess)
  {
    forall a: Key, b: Key { LexTotal(a.1, b.1); }
    forall a: Key, b: Key, c: Key | KeyLess(a, b) && KeyLess(b, c) ensures KeyLess(a, c) {
      if a.0 == b.0 && b.0 == c.0 { LexTransitive(a.1, b.1, c.1); }
    }
  }

  /** `sorted` over a finite set of (kind, id) keys. */
  ghost function SortedKeys(s: set<Key>): (r: seq<Key>)
    ensures Sorted(r, KeyLess) && Elements(r) == s
  {
    KeyLessTotal();
    Enumerate(s, KeyLess)
  }

  lemma SortedKeysUnique(keys: seq<Key>)
    requires Sorted(keys, KeyLess)
    ensures SortedKeys(Elements(keys)) == keys
  {
    KeyLessTotal();
    SortedIsEnumerate(keys, KeyLess);
  }

  lemma SortedKeysDistinct(keys: seq<Key>)
    requires Sorted(keys, KeyLess)
    ensures NoDuplicates(keys)
  {
    KeyLessTotal();
  }

  predicate IsChild(m: Nodes, p: Id, c: Id) {
    c in m && m[c].parent == Some(p)
  }

  function ChildKeys(m: Nodes, p: Id): set<Key> {
    set c | c in m && IsChild(m, p, c) :: (m[c].kind, c)
  }

  function KeyOf(m: Nodes, x: Id): Key {
    (if x in m then m[x].kind else Root, x)
  }

  function Ids(keys: seq<Key>): seq<Id> {
    seq(|keys|, i requires 0 <= i < |keys| => keys[i].1)
  }

  ghost predicate SortedByKey(m: Nodes, ids: seq<Id>) {
    forall i, j | 0 <= i < j < |ids| :: KeyLess(KeyOf(m, ids[i]), KeyOf(m, ids[j]))
  }

  /** The children of `p`, sorted by (kind, id). */
  ghost function Children(m: Nodes, p: Id): (r: seq<Id>)
    ensures forall c :: c in r <==> IsChild(m, p, c)
  {
    var keys := SortedKeys(ChildKeys(m, p));
    ChildrenOf(m, p, keys);
    Ids(keys)
  }

  lemma ChildrenOf(m: Nodes, p: Id, keys: seq<Key>)
    requires Elements(keys) == ChildKeys(m, p)
    ensures forall c :: c in Ids(keys) <==> IsChild(m, p, c)
    ensures forall i | 0 <= i < |keys| :: keys[i] == KeyOf(m, Ids(keys)[i])
  {
    var r := Ids(keys);
    forall i | 0 <= i < |r| ensures IsChild(m, p, r[i]) && keys[i] == KeyOf(m, r[i]) {
      assert keys[i] in Elements(keys);
    }
    forall c | IsChild(m, p, c) ensures c in r {
      assert (m[c].kind, c) in Elements(keys);
      var i :| 0 <= i < |keys| && keys[i] == (m[c].kind, c);
      assert r[i] == c;
    }
  }

  lemma ChildrenSorted(m: Nodes, p: Id)
    ensures SortedByKey(m, Children(m, p)) && NoDuplicates(Children(m, p))
  {
    var keys := SortedKeys(ChildKeys(m, p));
    ChildrenOf(m, p, keys);
    SortedKeysDistinct(keys);
    var r := Children(m, p);
    assert r == Ids(keys);
    forall i, j | 0 <= i < j < |r| ensures r[i] != r[j] && KeyLess(KeyOf(m, r[i]), KeyOf(m, r[j])) {
      assert KeyLess(keys[i], keys[j]) && keys[i] != keys[j];
    }
  }

  /** A sorted listing of the children is *the* listing. */
  lemma ChildrenUnique(m: Nodes, p: Id, ids: seq<Id>)
    requires forall c :: c in ids <==> IsChild(m, p, c)
    requires SortedByKey(m, ids)
    ensures Children(m, p) == ids
  {
    var keys := seq(|ids|, i requires 0 <= i < |ids| => KeyOf(m, ids[i]));
    assert Sorted(keys, KeyLess);
    forall k | k in ChildKeys(m, p) ensures k in Elements(keys) {
      assert k.1 in ids;
      var i :| 0 <= i < |ids| && ids[i] == k.1;
      assert keys[i] == k;
    }
    forall k | k in Elements(keys) ensures k in ChildKeys(m, p) {
      var i :| 0 <= i < |keys| && keys[i] == k;
      assert ids[i] in ids;
    }
    assert Elements(keys) == ChildKeys(m, p);
    SortedKeysUnique(keys);
    assert Ids(keys) == ids;
  }

  ghost predicate NoDuplicates<T(!new)>(s: seq<T>) {
    forall i, j | 0 <= i < j < |s| :: s[i] != s[j]
  }

  // ---------------------------------------------------------------- ancestry

  ghost function Ceiling(rank: map<Id, nat>): (top: nat)
    ensures forall x | x in rank :: rank[x] <= top
  {
    if rank == map[] then 0
    else
      var x :| x in rank;
      var rest := Ceiling(rank - {x});
      assert forall y | y in rank :: y == x || (y in rank - {x} && (rank - {x})[y] == rank[y]);
      if rank[x] < rest then rest else rank[x]
  }

  /** `a` is `x` or one of its ancestors. */
  ghost predicate IsAncestor(m: Nodes, a: Id, x: Id)
    requires IsForest(m)
    decreases if x in m then Ceiling(Height(m)) - Height(m)[x] else 0
  {
    x in m && (a == x || (m[x].parent.Some? && IsAncestor(m, a, m[x].parent.value)))
  }

  lemma {:induction false} AncestorIn(m: Nodes, a: Id, x: Id)
    requires IsForest(m) && IsAncestor(m, a, x)
    ensures a in m && (a != x ==> Height(m)[x] < Height(m)[a])
    decreases if x in m then Ceiling(Height(m)) - Height(m)[x] else 0
  {
    if a != x { AncestorIn(m, a, m[x].parent.value); }
  }

  lemma {:induction false} AncestorTransitive(m: Nodes, a: Id, b: Id, x: Id)
    requires IsForest(m) && IsAncestor(m, a, b) && IsAncestor(m, b, x)
    ensures IsAncestor(m, a, x)
    decreases if x in m then Ceiling(Height(m)) - Height(m)[x] else 0
  {
    if b != x { AncestorTransitive(m, a, b, m[x].parent.value); }
  }

  /** Two ancestors of one node are comparable. */
  lemma {:induction false} AncestorsComparable(m: Nodes, a: Id, b: Id, x: Id)
    requires IsForest(m) && IsAncestor(m, a, x) && IsAncestor(m, b, x)
    ensures IsAncestor(m, a, b) || IsAncestor(m, b, a)
    decreases if x in m then Ceiling(Height(m)) - Height(m)[x] else 0
  {
    if a != x && b != x { AncestorsComparable(m, a, b, m[x].parent.value); }
  }

  /** A proper descendant lies below exactly one child. */
  lemma {:induction false} AncestorViaChild(m: Nodes, a: Id, x: Id) returns (c: Id)
    requires IsForest(m) && IsAncestor(m, a, x) && a != x
    ensures IsChild(m, a, c) && IsAncestor(m, c, x)
    decreases if x in m then Ceiling(Height(m)) - Height(m)[x] else 0
  {
    var p := m[x].parent.value;
    if p == a {
      c := x;
    } else {
      c := AncestorViaChild(m, a, p);
      assert IsAncestor(m, c, p);
    }
  }

  lemma SiblingsApart(m: Nodes, c: Id, d: Id)
    requires IsForest(m) && c in m && d in m && c != d && m[c].parent == m[d].parent && m[c].parent.Some?
    ensures !IsAncestor(m, c, d)
  {
    if IsAncestor(m, c, d) {
      AncestorIn(m, c, m[d].parent.value);
    }
  }

  // ---------------------------------------------------------------- preorder

  ghost function HeightOf(m: Nodes, x: Id): nat
    requires IsForest(m)
  {
    if x in m then Height(m)[x] else 0
  }

  ghost function Top(m: Nodes, ids: seq<Id>): (t: nat)
    requires IsForest(m)
    ensures forall x | x in ids :: HeightOf(m, x) < t
    ensures t > 0 ==> exists x | x in ids :: HeightOf(m, x) + 1 == t
  {
    if ids == [] then 0
    else
      var rest := Top(m, ids[1..]);
      assert forall x | x in ids :: x == ids[0] || x in ids[1..];
      if HeightOf(m, ids[0]) + 1 > rest then HeightOf(m, ids[0]) + 1 else rest
  }

  lemma ChildrenBelow(m: Nodes, p: Id)
    requires IsForest(m)
    ensures Top(m, Children(m, p)) <= HeightOf(m, p)
  {
    if Top(m, Children(m, p)) > 0 {
      var c :| c in Children(m, p) && HeightOf(m, c) + 1 == Top(m, Children(m, p));
      assert IsChild(m, p, c);
    }
  }

  /** The depth-first preorder of the subtrees at `ids`, one after the other. */
  ghost function Preorder(m: Nodes, ids: seq<Id>): seq<Id>
    requires IsForest(m)
    decreases Top(m, ids), |ids|
  {
    if ids == [] then []
    else
      ChildrenBelow(m, ids[0]);
      assert ids[0] in ids;
      TopMono(m, ids);
      [ids[0]] + Preorder(m, Children(m, ids[0])) + Preorder(m, ids[1..])
  }

  lemma TopMono(m: Nodes, ids: seq<Id>)
    requires IsForest(m) && ids != []
    ensures Top(m, ids[1..]) <= Top(m, ids) && HeightOf(m, ids[0]) < Top(m, ids)
  {
  }

  lemma {:induction false} PreorderAppend(m: Nodes, a: seq<Id>, b: seq<Id>)
    requires IsForest(m)
    ensures Preorder(m, a + b) == Preorder(m, a) + Preorder(m, b)
  {
    if a == [] {
      assert a + b == b;
    } else {
      assert (a + b)[1..] == a[1..] + b;
      PreorderAppend(m, a[1..], b);
    }
  }

  lemma PreorderOne(m: Nodes, x: Id)
    requires IsForest(m)
    ensures Preorder(m, [x]) == [x] + Preorder(m, Children(m, x))
  {
    assert [x][1..] == [];
  }

  lemma PreorderCons(m: Nodes, x: Id, rest: seq<Id>)
    requires IsForest(m)
    ensures Preorder(m, [x] + rest) == [x] + Preorder(m, Children(m, x) + rest)
  {
    hide Preorder, Children, IsForest;
    var ids := [x] + rest;
    assert ids[0] == x && ids[1..] == rest;
    PreorderUnfold(m, ids);
    PreorderAppend(m, Children(m, x), rest);
    Associate([x], Preorder(m, Children(m, x)), Preorder(m, rest));
  }

  lemma PreorderUnfold(m: Nodes, ids: seq<Id>)
    requires IsForest(m) && ids != []
    ensures Preorder(m, ids) == [ids[0]] + Preorder(m, Children(m, ids[0])) + Preorder(m, ids[1..])
  {
    hide Top, Children, IsForest;
  }

  /** A preorder lists exactly the descendants. */
  lemma {:induction false} PreorderMembers(m: Nodes, ids: seq<Id>, x: Id)
    requires IsForest(m) && forall y | y in ids :: y in m
    ensures x in Preorder(m, ids) <==> exists a | a in ids :: IsAncestor(m, a, x)
    decreases Top(m, ids), |ids|
  {
    if ids != [] {
      var a := ids[0];
      var below, rest := Preorder(m, Children(m, a)), Preorder(m, ids[1..]);
      ChildrenBelow(m, a);
      TopMono(m, ids);
      PreorderMembers(m, Children(m, a), x);
      PreorderMembers(m, ids[1..], x);
      SubtreeStep(m, a, x);
      assert x in Preorder(m, ids) <==> x == a || x in below || x in rest;
      assert forall b | b in ids :: b == a || b in ids[1..];
    }
  }

  /** A descendant is the node itself or a descendant of a child. */
  lemma SubtreeStep(m: Nodes, a: Id, x: Id)
    requires IsForest(m) && a in m
    ensures IsAncestor(m, a, x) <==> x == a || exists c | c in Children(m, a) :: IsAncestor(m, c, x)
  {
    if IsAncestor(m, a, x) && a != x {
      var c := AncestorViaChild(m, a, x);
      assert c in Children(m, a);
    }
    if c :| c in Children(m, a) && IsAncestor(m, c, x) {
      assert IsAncestor(m, a, c);
      AncestorTransitive(m, a, c, x);
    }
  }

  lemma NoDuplicatesConcat<T(!new)>(a: seq<T>, b: seq<T>)
    requires NoDuplicates(a) && NoDuplicates(b)
    requires forall x | x in a :: x !in b
    ensures NoDuplicates(a + b)
  {
    var s := a + b;
    forall i, j | 0 <= i < j < |s| ensures s[i] != s[j] {
      if i < |a| && |a| <= j { assert s[i] in a && s[j] in b; }
    }
  }

  /** No member of `ids` lies in the subtree of another. */
  ghost predicate Apart(m: Nodes, ids: seq<Id>)
    requires IsForest(m)
  {
    forall i, j | 0 <= i < |ids| && 0 <= j < |ids| && i != j :: !IsAncestor(m, ids[i], ids[j])
  }

  lemma ChildrenApart(m: Nodes, p: Id)
    requires IsForest(m)
    ensures Apart(m, Children(m, p))
  {
    var r := Children(m, p);
    forall i, j | 0 <= i < |r| && 0 <= j < |r| && i != j ensures !IsAncestor(m, r[i], r[j]) {
      assert r[i] in r && r[j] in r;
      ChildrenSorted(m, p);
      SiblingsApart(m, r[i], r[j]);
    }
  }

  lemma {:induction false} PreorderDistinct(m: Nodes, ids: seq<Id>)
    requires IsForest(m) && forall x | x in ids :: x in m
    requires Apart(m, ids)
    ensures NoDuplicates(Preorder(m, ids))
    decreases Top(m, ids), |ids|
  {
    if ids != [] {
      var a := ids[0];
      var below, rest := Preorder(m, Children(m, a)), Preorder(m, ids[1..]);
      ChildrenBelow(m, a);
      TopMono(m, ids);
      ChildrenApart(m, a);
      PreorderDistinct(m, Children(m, a));
      PreorderDistinct(m, ids[1..]);
      forall x | x in below ensures x != a && IsAncestor(m, a, x) {
        BelowIsProper(m, a, x);
      }
      forall x | x in [a] + below ensures x !in rest {
        NotInLater(m, ids, x);
      }
      NoDuplicatesConcat([a], below);
      NoDuplicatesConcat([a] + below, rest);
    }
  }

  lemma BelowIsProper(m: Nodes, a: Id, x: Id)
    requires IsForest(m) && a in m && x in Preorder(m, Children(m, a))
    ensures x != a && IsAncestor(m, a, x)
  {
    PreorderMembers(m, Children(m, a), x);
    SubtreeStep(m, a, x);
    var c :| c in Children(m, a) && IsAncestor(m, c, x);
    AncestorIn(m, c, x);
  }

  lemma NotInLater(m: Nodes, ids: seq<Id>, x: Id)
    requires IsForest(m) && ids != [] && Apart(m, ids) && forall y | y in ids :: y in m
    requires IsAncestor(m, ids[0], x)
    ensures x !in Preorder(m, ids[1..])
  {
    PreorderMembers(m, ids[1..], x);
    forall b | b in ids[1..] ensures !IsAncestor(m, b, x) {
      var k :| 1 <= k < |ids| && ids[k] == b;
      if IsAncestor(m, b, x) { AncestorsComparable(m, ids[0], b, x); }
    }
  }
}

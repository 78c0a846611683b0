/** Rolling seals over subtrees. */
module Seal {
  import opened JsonValue
  import opened Forest
  import opened ForestChange
  import opened Store

  datatype SealEntry = SealEntry(
    index: nat, nodeId: Id, parentId: Option<Id>, kind: Kind, resultDigest: Option<Digest>,
    previous: Option<string>, seal: string)

  datatype SealReport = SealReport(rootId: Id, digest: string, entries: seq<SealEntry>)

  function RecordOf(index: nat, n: Node, previous: string): SealRecord {
    SealRecord(index, n.id, n.parent, n.kind, n.resultDigest, previous)
  }

  /** The rolling digest after the first `k` nodes. */
  function Rolling(enc: Encoding, nodes: seq<Node>, k: nat): string
    requires k <= |nodes|
  {
    if k == 0 then "" else enc.seal(RecordOf(k - 1, nodes[k - 1], Rolling(enc, nodes, k - 1)))
  }

  function EntryOf(enc: Encoding, nodes: seq<Node>, k: nat): SealEntry
    requires k < |nodes|
  {
    var previous := Rolling(enc, nodes, k);
    SealEntry(k, nodes[k].id, nodes[k].parent, nodes[k].kind, nodes[k].resultDigest,
              if previous == "" then None else Some(previous), Rolling(enc, nodes, k + 1))
  }

  function SealOf(enc: Encoding, root: Id, nodes: seq<Node>): SealReport {
    SealReport(root, Rolling(enc, nodes, |nodes|), seq(|nodes|, k requires 0 <= k < |nodes| => EntryOf(enc, nodes, k)))
  }

  function TextOrNull(text: Option<string>): Json {
    if text.Some? then Str(text.value) else Null
  }

  /** `SealEntry.to_dict`. */
  function EntryDoc(e: SealEntry): Json {
    Obj(map["index" := Num(e.index), "node_id" := Str(e.nodeId), "parent_id" := TextOrNull(e.parentId),
            "kind" := Str(e.kind.Name()), "result_digest" := TextOrNull(e.resultDigest),
            "previous" := TextOrNull(e.previous), "seal" := Str(e.seal)])
  }

  /** `SealReport.to_dict`. */
  function SealDoc(r: SealReport): Json {
    Obj(map["root_id" := Str(r.rootId), "algorithm" := Str("sha256:pollard/v1:seal"), "digest" := Str(r.digest),
            "entries" := Arr(seq(|r.entries|, i requires 0 <= i < |r.entries| => EntryDoc(r.entries[i])))])
  }

  /** `_validate_node`. */
  predicate Sealable(enc: Encoding, n: Node) {
    n.id == enc.ExpectedId(n) && (n.result.Some? ==> n.resultDigest == Some(enc.resultDigest(n.result.value)))
  }

  /** The loop of `seal` over a walk. */
  method SealNodes(enc: Encoding, root: Id, nodes: seq<Node>) returns (r: Result<SealReport>)
    ensures r == if forall n | n in nodes :: Sealable(enc, n) then Ok(SealOf(enc, root, nodes)) else Err(IntegrityError)
  {
    var previous := "";
    var entries: seq<SealEntry> := [];
    for index := 0 to |nodes|
      invariant previous == Rolling(enc, nodes, index)
      invariant |entries| == index && forall k | 0 <= k < index :: entries[k] == EntryOf(enc, nodes, k)
      invariant forall k | 0 <= k < index :: Sealable(enc, nodes[k])
    {
      var node := nodes[index];
      assert node in nodes;
      if !Sealable(enc, node) { return Err(IntegrityError); }
      var current := enc.seal(RecordOf(index, node, previous));
      entries := entries + [SealEntry(index, node.id, node.parent, node.kind, node.resultDigest,
                                      if previous == "" then None else Some(previous), current)];
      previous := current;
    }
    assert entries == SealOf(enc, root, nodes).entries;
    r := Ok(SealReport(root, previous, entries));
  }

  lemma IntactSealable(enc: Encoding, m: Nodes, root: Id)
    requires WellFormed(enc, m) && root in m
    ensures forall n | n in WalkOf(m, root) :: Sealable(enc, n)
  {
    SubtreeWithin(m, root);
    var ids := Preorder(m, [root]);
    assert forall j | 0 <= j < |ids| :: ids[j] in ids;
  }

  method SealStore(store: MemoryStore, root: Id) returns (r: Result<SealReport>)
    requires store.Valid()
    ensures root in store.nodes ==> r == Ok(SealOf(store.enc, root, WalkOf(store.nodes, root)))
    ensures root !in store.nodes ==> r == Err(KeyError)
  {
    var walk := store.Walk(root);
    if walk.Err? { return Err(KeyError); }
    IntactSealable(store.enc, store.nodes, root);
    r := SealNodes(store.enc, root, walk.value);
  }

  // ---------------------------------------------------------------- the chain

  /** Entry `k` seals its node and the entry before it. */
  predicate Links(enc: Encoding, nodes: seq<Node>, r: SealReport, k: nat)
    requires k < |nodes| == |r.entries|
  {
    var e, n, before := r.entries[k], nodes[k], if k == 0 then "" else r.entries[k - 1].seal;
    && e.index == k && e.nodeId == n.id && e.parentId == n.parent && e.kind == n.kind
    && e.resultDigest == n.resultDigest && e.previous == (if before == "" then None else Some(before))
    && e.seal == enc.seal(SealRecord(k, n.id, n.parent, n.kind, n.resultDigest, before))
  }

  /** Every entry links to the one before, and the last one gives the digest. */
  ghost predicate Chained(enc: Encoding, nodes: seq<Node>, r: SealReport) {
    && |r.entries| == |nodes| && (nodes != [] ==> r.digest == r.entries[|nodes| - 1].seal)
    && forall k | 0 <= k < |nodes| :: Links(enc, nodes, r, k)
  }

  /** A report is the seal of a listing exactly when its entries form this chain; so anyone can check it. */
  lemma SealIsChain(enc: Encoding, nodes: seq<Node>, r: SealReport)
    requires nodes != []
    ensures r == SealOf(enc, r.rootId, nodes) <==> Chained(enc, nodes, r)
  {
    var own := SealOf(enc, r.rootId, nodes);
    hide Chained;
    OwnChain(enc, nodes, r.rootId);
    if Chained(enc, nodes, r) {
      forall k | 0 <= k < |nodes| ensures k < |r.entries| && r.entries[k] == own.entries[k] {
        ChainUnique(enc, nodes, r, own, k);
      }
      ChainDigest(enc, nodes, r);
      ChainDigest(enc, nodes, own);
    }
  }

  lemma OwnChain(enc: Encoding, nodes: seq<Node>, root: Id)
    ensures Chained(enc, nodes, SealOf(enc, root, nodes))
  {
    var r := SealOf(enc, root, nodes);
    forall k | 0 <= k < |nodes| ensures r.entries[k].seal == Rolling(enc, nodes, k + 1) {}
    hide Rolling;
    assert Rolling(enc, nodes, 0) == "" by { RollingStart(enc, nodes); }
    forall k | 0 <= k < |nodes|
      ensures Rolling(enc, nodes, k + 1) == enc.seal(RecordOf(k, nodes[k], Rolling(enc, nodes, k)))
    {
      RollingNext(enc, nodes, k);
    }
  }

  lemma RollingStart(enc: Encoding, nodes: seq<Node>)
    ensures Rolling(enc, nodes, 0) == ""
  {
  }

  lemma RollingNext(enc: Encoding, nodes: seq<Node>, k: nat)
    requires k < |nodes|
    ensures Rolling(enc, nodes, k + 1) == enc.seal(RecordOf(k, nodes[k], Rolling(enc, nodes, k)))
  {
  }

  lemma {:induction false} ChainUnique(enc: Encoding, nodes: seq<Node>, a: SealReport, b: SealReport, k: nat)
    requires Chained(enc, nodes, a) && Chained(enc, nodes, b) && k < |nodes|
    ensures k < |a.entries| && k < |b.entries| && a.entries[k] == b.entries[k]
  {
    if k > 0 { ChainUnique(enc, nodes, a, b, k - 1); }
    assert Links(enc, nodes, a, k) && Links(enc, nodes, b, k);
  }

  lemma ChainDigest(enc: Encoding, nodes: seq<Node>, r: SealReport)
    requires Chained(enc, nodes, r) && nodes != []
    ensures |r.entries| == |nodes| && r.digest == r.entries[|nodes| - 1].seal
  {
  }

  // ---------------------------------------------------------------- what a seal depends on

  /** The fields a seal covers. */
  predicate SameSealed(a: Node, b: Node) {
    a.id == b.id && a.parent == b.parent && a.kind == b.kind && a.resultDigest == b.resultDigest
  }

  ghost predicate SameSealedAll(a: seq<Node>, b: seq<Node>) {
    |a| == |b| && forall i | 0 <= i < |a| :: SameSealed(a[i], b[i])
  }

  lemma {:induction false} RollingCongruence(enc: Encoding, a: seq<Node>, b: seq<Node>, k: nat)
    requires k <= |a| && k <= |b| && forall i | 0 <= i < k :: SameSealed(a[i], b[i])
    ensures Rolling(enc, a, k) == Rolling(enc, b, k)
  {
    if k > 0 { RollingCongruence(enc, a, b, k - 1); }
  }

  lemma {:induction false} RollingBinds(enc: Encoding, a: seq<Node>, b: seq<Node>, k: nat, l: nat)
    requires enc.InjectiveSeals() && 0 < k <= |a| && 0 < l <= |b|
    requires Rolling(enc, a, k) == Rolling(enc, b, l)
    ensures k == l && forall i | 0 <= i < k :: SameSealed(a[i], b[i])
  {
    assert RecordOf(k - 1, a[k - 1], Rolling(enc, a, k - 1)) == RecordOf(l - 1, b[l - 1], Rolling(enc, b, l - 1));
    if k > 1 { RollingBinds(enc, a, b, k - 1, l - 1); }
  }

  /** With injective hashing, two nonempty walks have one digest exactly when they agree on every
      id, parent, kind and result digest, in order. */
  lemma SealBinds(enc: Encoding, a: seq<Node>, b: seq<Node>)
    requires enc.InjectiveSeals() && a != [] && b != []
    ensures Rolling(enc, a, |a|) == Rolling(enc, b, |b|) <==> SameSealedAll(a, b)
  {
    if Rolling(enc, a, |a|) == Rolling(enc, b, |b|) { RollingBinds(enc, a, b, |a|, |b|); }
    if SameSealedAll(a, b) { RollingCongruence(enc, a, b, |a|); }
  }

  /** Two stores hold the same nodes and result digests under a root. */
  ghost predicate SameContentUnder(m: Nodes, m': Nodes, root: Id)
    requires IsForest(m) && IsForest(m')
  {
    && (forall x :: x in Preorder(m, [root]) <==> x in Preorder(m', [root]))
    && forall x | x in Preorder(m, [root]) :: x in m && x in m' && SameSealed(m[x], m'[x])
  }

  lemma ContentChildren(m: Nodes, m': Nodes, root: Id, x: Id)
    requires IsForest(m) && IsForest(m') && root in m && root in m' && SameContentUnder(m, m', root)
    requires x in Preorder(m, [root])
    ensures Children(m, x) == Children(m', x)
  {
    forall c ensures IsChild(m, x, c) <==> IsChild(m', x, c) {
      SubtreeMembers(m, root, x);
      SubtreeMembers(m', root, x);
      SubtreeMembers(m, root, c);
      SubtreeMembers(m', root, c);
    }
    assert forall c | IsChild(m, x, c) :: m[c].kind == m'[c].kind by {
      forall c | IsChild(m, x, c) ensures m[c].kind == m'[c].kind {
        SubtreeMembers(m, root, x);
        SubtreeMembers(m, root, c);
      }
    }
    assert ChildKeys(m, x) == ChildKeys(m', x);
  }

  /** A seal depends only on the content below its root, not on insertion order, metadata or other nodes. */
  lemma SealDependsOnContent(enc: Encoding, m: Nodes, m': Nodes, root: Id)
    requires IsForest(m) && IsForest(m') && root in m && root in m' && SameContentUnder(m, m', root)
    ensures Preorder(m, [root]) == Preorder(m', [root])
    ensures SealOf(enc, root, WalkOf(m, root)) == SealOf(enc, root, WalkOf(m', root))
  {
    forall x | x in Preorder(m, [root]) ensures Children(m, x) == Children(m', x) {
      ContentChildren(m, m', root, x);
    }
    PreorderCongruence(m, m', [root]);
    var a, b, ids := WalkOf(m, root), WalkOf(m', root), Preorder(m, [root]);
    assert forall i | 0 <= i < |ids| :: ids[i] in ids;
    assert SameSealedAll(a, b);
    SealCongruence(enc, root, a, b);
  }

  lemma SealCongruence(enc: Encoding, root: Id, a: seq<Node>, b: seq<Node>)
    requires SameSealedAll(a, b)
    ensures SealOf(enc, root, a) == SealOf(enc, root, b)
  {
    forall k | 0 <= k <= |a| ensures Rolling(enc, a, k) == Rolling(enc, b, k) { RollingCongruence(enc, a, b, k); }
    forall k | 0 <= k < |a| ensures EntryOf(enc, a, k) == EntryOf(enc, b, k) {
      assert Rolling(enc, a, k + 1) == Rolling(enc, b, k + 1);
    }
  }

  lemma RootFirst(m: Nodes, root: Id)
    requires IsForest(m) && root in m
    ensures WalkOf(m, root) != []
  {
    PreorderOne(m, root);
  }

  /** Conversely equal digests force equal content: a seal is a fingerprint of the subtree. */
  lemma SealFingerprint(enc: Encoding, m: Nodes, m': Nodes, root: Id)
    requires enc.InjectiveSeals() && IsForest(m) && IsForest(m') && root in m && root in m'
    ensures SealOf(enc, root, WalkOf(m, root)).digest == SealOf(enc, root, WalkOf(m', root)).digest <==>
      SameContentUnder(m, m', root)
  {
    hide IsForest, Preorder, WalkOf, Rolling;
    var a, b := WalkOf(m, root), WalkOf(m', root);
    RootFirst(m, root);
    RootFirst(m', root);
    SealBinds(enc, a, b);
    if SameSealedAll(a, b) {
      var ids, ids' := Preorder(m, [root]), Preorder(m', [root]);
      WalkIds(m, root);
      WalkIds(m', root);
      assert forall i | 0 <= i < |ids| :: ids[i] == a[i].id == b[i].id == ids'[i];
      assert ids == ids';
      forall x | x in ids ensures x in m && x in m' && SameSealed(m[x], m'[x]) {
        var i :| 0 <= i < |ids| && ids[i] == x;
        assert SameSealed(a[i], b[i]);
      }
    }
    if SameContentUnder(m, m', root) { SealDependsOnContent(enc, m, m', root); }
  }

  /** Metadata updates leave every seal alone. */
  lemma SealIgnoresMeta(enc: Encoding, m: Nodes, m': Nodes, root: Id)
    requires IsForest(m) && root in m && Extends(m, m') && m.Keys == m'.Keys
    ensures IsForest(m') && SealOf(enc, root, WalkOf(m, root)) == SealOf(enc, root, WalkOf(m', root))
  {
    SameShapePreorder(m, m', [root]);
    SubtreeWithin(m, root);
    SealDependsOnContent(enc, m, m', root);
  }
}

/** What an import accepts and brings, and what the seal of a manifest fixes. */
module TransferLaws {
  import opened Order
  import opened JsonValue
  import opened Forest
  import opened ForestChange
  import opened Store
  import opened Seal
  import opened Manifest
  import opened ManifestTrees
  import opened Transfer

  /** The recorded fields agree, the payloads for Python, and so do the results. */
  ghost predicate Agrees(stored: Node, n: Node) {
    && stored.parent == n.parent && stored.kind == n.kind && stored.attempt == n.attempt
    && stored.payload.Keys == n.payload.Keys
    && (forall k | k in n.payload && k in stored.payload :: PyEq(stored.payload[k], n.payload[k]))
    && stored.result == n.result && stored.resultDigest == n.resultDigest
  }

  lemma SameStoredExactly(stored: Node, n: Node)
    ensures SameStored(stored, n) <==> Agrees(stored, n)
  {
    hide PyEq;
  }

  /** The target takes a manifest exactly when it has the parent of the root, and whatever it holds agrees. */
  lemma FitsExactly(m: Nodes, man: SubtreeManifest)
    requires man.nodes != []
    ensures Fits(m, man) <==>
      && (man.nodes[0].parent == None || man.nodes[0].parent.value in m)
      && forall n | n in man.nodes && n.id in m :: Agrees(m[n.id], n)
  {
    hide SameStored, Agrees;
    forall n | n in man.nodes && n.id in m { SameStoredExactly(m[n.id], n); }
  }

  /** Afterwards every node of the manifest is there, as it was sent where the target had none; and every node of the
      target is as it was. */
  lemma ImportBrings(enc: Encoding, man: SubtreeManifest, d: Nodes)
    requires Genuine(enc, man) && Fits(d, man)
    ensures
      var d' := Imported(d, man.nodes);
      && (forall n | n in man.nodes :: n.id in d' && Agrees(d'[n.id], n) && (n.id !in d ==> d'[n.id] == n))
      && (forall x | x in d :: x in d' && d'[x] == d[x])
      && (forall x | x in d' && x !in d :: exists n | n in man.nodes :: n.id == x)
  {
    hide IsCanonicalPreorder, Accepted, SealOf, Sealable, PyEq, IsForest, SameStored, Agrees, PyEqDict;
    CanonicalIsAccepted(man.nodes);
    ListedAt(man.nodes);
    var d' := Imported(d, man.nodes);
    forall n | n in man.nodes ensures n.id in d' && Agrees(d'[n.id], n) && (n.id !in d ==> d'[n.id] == n) {
      var i :| 0 <= i < |man.nodes| && man.nodes[i] == n;
      if n.id in d { SameStoredExactly(d[n.id], n); } else { AgreesItself(n); }
    }
    forall x | x in d' && x !in d ensures exists n | n in man.nodes :: n.id == x {
      assert x in IdsOf(man.nodes);
      var i :| 0 <= i < |man.nodes| && IdsOf(man.nodes)[i] == x;
      assert man.nodes[i] in man.nodes;
    }
  }

  lemma AgreesItself(n: Node)
    ensures Agrees(n, n)
  {
    forall k | k in n.payload ensures PyEq(n.payload[k], n.payload[k]) { PyEqReflexive(n.payload[k]); }
  }

  // ---------------------------------------------------------------- importing, then exporting

  /** An import keeps the store well formed. */
  lemma {:induction false} ImportedWellFormed(enc: Encoding, man: SubtreeManifest, d: Nodes, k: nat)
    requires WellFormed(enc, d) && Genuine(enc, man) && Fits(d, man) && k <= |man.nodes|
    ensures WellFormed(enc, Imported(d, man.nodes[..k]))
  {
    hide IsCanonicalPreorder, Accepted, SealOf, SealDoc, Sealable, PyEq, WellFormed, IsForest, SameStored, Put,
      WellShaped, Imported, IdsOf, NoDuplicates, ParentsEarlier;
    if k == 0 {
      NothingImported(d);
      assert man.nodes[..0] == [];
    } else {
      ImportedWellFormed(enc, man, d, k - 1);
      GenuineOrder(enc, man);
      assert man.nodes[k - 1] in man.nodes;
      PutFits(enc, d, man.nodes, k - 1);
      var now, n := Imported(d, man.nodes[..k - 1]), man.nodes[k - 1];
      if n.id !in now { PutWellFormed(enc, now, n); }
    }
  }

  lemma NothingImported(d: Nodes)
    ensures Imported(d, []) == d
  {
  }

  lemma GenuineOrder(enc: Encoding, man: SubtreeManifest)
    requires Genuine(enc, man)
    ensures NoDuplicates(IdsOf(man.nodes)) && ParentsEarlier(man.nodes) && ParentOutside(man.nodes)
    ensures IsForest(Detached(man.nodes)) && IdsOf(man.nodes) == Preorder(Detached(man.nodes), [man.nodes[0].id])
  {
    hide IsCanonicalPreorder, SealOf, Sealable, PyEq, IsForest, Preorder, Detached, IdsOf, ParentsEarlier;
    CanonicalIsAccepted(man.nodes);
    DetachedForest(man.nodes);
  }

  lemma ImportedAt(enc: Encoding, man: SubtreeManifest, d: Nodes)
    requires Genuine(enc, man) && forall n | n in man.nodes :: n.id !in d
    ensures
      var d', t := Imported(d, man.nodes), Detached(man.nodes);
      && (forall x | x in t :: x in d' && x !in d && d'[x] == t[x].(parent := d'[x].parent))
      && (forall x | x in t && x != man.rootId :: d'[x] == t[x])
      && (forall x | x in d' :: x in t || (x in d && d'[x] == d[x]))
      && man.rootId in t && d'[man.rootId] == man.nodes[0] && (forall n | n in man.nodes :: n.id in t && d'[n.id] == n)
  {
    hide IsCanonicalPreorder, SealOf, Sealable, PyEq, IsForest, Preorder;
    GenuineOrder(enc, man);
    ListedAt(man.nodes);
    DetachedAt(man.nodes);
    hide Listed, ParentsEarlier, NoDuplicates;
    var d', t := Imported(d, man.nodes), Detached(man.nodes);
    forall x | x in t
      ensures x in d' && x !in d && d'[x] == t[x].(parent := d'[x].parent) && (x != man.rootId ==> d'[x] == t[x])
    {
      var i :| 0 <= i < |man.nodes| && IdsOf(man.nodes)[i] == x;
      assert man.nodes[i] in man.nodes;
    }
  }

  lemma ImportedBelow(enc: Encoding, man: SubtreeManifest, d: Nodes, x: Id, c: Id)
    requires WellFormed(enc, d) && Genuine(enc, man) && Fits(d, man) && forall n | n in man.nodes :: n.id !in d
    requires x in Detached(man.nodes)
    ensures
      var d', t := Imported(d, man.nodes), Detached(man.nodes);
      (IsChild(d', x, c) <==> IsChild(t, x, c)) && (IsChild(t, x, c) ==> c in d' && t[c].kind == d'[c].kind)
  {
    hide IsCanonicalPreorder, SealOf, Sealable, PyEq, Preorder, Imported, SameStored, WellShaped, Detached;
    ImportedAt(enc, man, d);
    GenuineOrder(enc, man);
    RootsParent(man.nodes);
  }

  lemma RootsParent(nodes: seq<Node>)
    requires nodes != [] && NoDuplicates(IdsOf(nodes)) && ParentOutside(nodes)
    ensures nodes[0].parent.Some? ==> nodes[0].parent.value !in Detached(nodes)
    ensures nodes[0].id in Detached(nodes) && Detached(nodes)[nodes[0].id].parent == None
  {
    DetachedAt(nodes);
  }

  /** Any manifest that is accepted comes out again as it went in: the store it was imported into, having none of its
      nodes before, exports the same nodes under an equal seal. */
  lemma ImportExport(enc: Encoding, man: SubtreeManifest, d: Nodes)
    requires WellFormed(enc, d) && Genuine(enc, man) && Fits(d, man) && forall n | n in man.nodes :: n.id !in d
    ensures
      var d' := Imported(d, man.nodes);
      && WellFormed(enc, d') && IsForest(d') && man.rootId in d'
      && ManifestOf(enc, d', man.rootId).nodes == man.nodes
      && ManifestOf(enc, d', man.rootId).rootId == man.rootId
      && PyEq(ManifestOf(enc, d', man.rootId).seal, man.seal)
  {
    hide IsCanonicalPreorder, SealOf, Sealable, PyEq, Preorder, Imported, SameStored, WellShaped, Detached, WellFormed,
      IsForest, SealDoc, Children, WalkOf;
    var d', t, root := Imported(d, man.nodes), Detached(man.nodes), man.rootId;
    ImportedWellFormed(enc, man, d, |man.nodes|);
    assert man.nodes[..|man.nodes|] == man.nodes;
    WellFormedIsForest(enc, d');
    GenuineOrder(enc, man);
    ImportedAt(enc, man, d);
    SubtreeWithin(t, root);
    forall x | x in Preorder(t, [root]) ensures Children(t, x) == Children(d', x) {
      forall c
        ensures IsChild(t, x, c) <==> IsChild(d', x, c)
        ensures IsChild(t, x, c) ==> t[c].kind == d'[c].kind
      {
        ImportedBelow(enc, man, d, x, c);
      }
      ChildrenSame(t, d', x);
    }
    PreorderCongruence(t, d', [root]);
    WalkIs(d', root, man.nodes);
  }

  lemma WalkIs(m: Nodes, root: Id, nodes: seq<Node>)
    requires IsForest(m) && root in m && Preorder(m, [root]) == IdsOf(nodes)
    requires forall n | n in nodes :: n.id in m && m[n.id] == n
    ensures WalkOf(m, root) == nodes
  {
    WalkIds(m, root);
    hide WalkOf, Preorder, IsForest;
    forall i | 0 <= i < |nodes| ensures WalkOf(m, root)[i] == nodes[i] {
      assert nodes[i] in nodes && IdsOf(nodes)[i] == nodes[i].id;
    }
  }

  // ---------------------------------------------------------------- what the seal fixes

  /** A document can be, for Python, the seal document of one report only. */
  lemma SealDocBinds(a: SealReport, b: SealReport, s: Json)
    requires PyEq(SealDoc(a), s) && PyEq(SealDoc(b), s)
    ensures a == b
  {
    hide PyEq, EntryDoc, SealDoc;
    ReportFields(a, s);
    ReportFields(b, s);
    TextBinds(Some(a.digest), Some(b.digest), s.fields["digest"]);
    TextBinds(Some(a.rootId), Some(b.rootId), s.fields["root_id"]);
    forall i | 0 <= i < |a.entries| ensures a.entries[i] == b.entries[i] {
      EntryDocBinds(a.entries[i], b.entries[i], s.fields["entries"].items[i]);
    }
  }

  lemma ReportFields(r: SealReport, s: Json)
    requires PyEq(SealDoc(r), s)
    ensures s.Obj? && {"digest", "root_id", "entries"} <= s.fields.Keys
    ensures PyEq(Str(r.digest), s.fields["digest"]) && PyEq(Str(r.rootId), s.fields["root_id"])
    ensures s.fields["entries"].Arr? && |s.fields["entries"].items| == |r.entries|
    ensures forall i | 0 <= i < |r.entries| :: PyEq(EntryDoc(r.entries[i]), s.fields["entries"].items[i])
  {
    hide EntryDoc;
    var d := SealDoc(r).fields;
    assert PyEq(d["digest"], s.fields["digest"]) && PyEq(d["root_id"], s.fields["root_id"]);
    assert PyEq(d["entries"], s.fields["entries"]);
  }

  lemma EntryDocBinds(a: SealEntry, b: SealEntry, s: Json)
    requires PyEq(EntryDoc(a), s) && PyEq(EntryDoc(b), s)
    ensures a == b
  {
    hide PyEq, Kind.Name;
    EntryFields(a, s);
    EntryFields(b, s);
    var f := s.fields;
    NumBinds(a.index, b.index, f["index"]);
    TextBinds(Some(a.nodeId), Some(b.nodeId), f["node_id"]);
    TextBinds(a.parentId, b.parentId, f["parent_id"]);
    TextBinds(Some(a.kind.Name()), Some(b.kind.Name()), f["kind"]);
    TextBinds(a.resultDigest, b.resultDigest, f["result_digest"]);
    TextBinds(a.previous, b.previous, f["previous"]);
    TextBinds(Some(a.seal), Some(b.seal), f["seal"]);
    NameBinds(a.kind, b.kind);
  }

  lemma NameBinds(a: Kind, b: Kind)
    requires a.Name() == b.Name()
    ensures a == b
  {
    RankIsNameOrder(a, b);
    RankIsNameOrder(b, a);
    LexTotal(a.Name(), b.Name());
  }

  const ENTRY_KEYS := {"index", "node_id", "parent_id", "kind", "result_digest", "previous", "seal"}

  lemma EntryFields(e: SealEntry, s: Json)
    requires PyEq(EntryDoc(e), s)
    ensures s.Obj? && ENTRY_KEYS <= s.fields.Keys
    ensures PyEq(Num(e.index), s.fields["index"]) && PyEq(Str(e.nodeId), s.fields["node_id"])
    ensures PyEq(TextOrNull(e.parentId), s.fields["parent_id"]) && PyEq(Str(e.kind.Name()), s.fields["kind"])
    ensures PyEq(TextOrNull(e.resultDigest), s.fields["result_digest"])
    ensures PyEq(TextOrNull(e.previous), s.fields["previous"]) && PyEq(Str(e.seal), s.fields["seal"])
  {
    hide Kind.Name;
    var d := EntryDoc(e).fields;
    EntryShape(e);
    hide EntryDoc;
    assert forall k | k in ENTRY_KEYS :: k in d && k in s.fields && PyEq(d[k], s.fields[k]);
  }

  lemma EntryShape(e: SealEntry)
    ensures
      var d := EntryDoc(e).fields;
      && d.Keys == ENTRY_KEYS && d["index"] == Num(e.index) && d["node_id"] == Str(e.nodeId)
      && d["parent_id"] == TextOrNull(e.parentId) && d["kind"] == Str(e.kind.Name())
      && d["result_digest"] == TextOrNull(e.resultDigest) && d["previous"] == TextOrNull(e.previous)
      && d["seal"] == Str(e.seal)
  {
    hide Kind.Name;
  }

  lemma NumBinds(a: int, b: int, s: Json)
    requires PyEq(Num(a), s) && PyEq(Num(b), s)
    ensures a == b
  {
  }

  lemma TextBinds(a: Option<string>, b: Option<string>, s: Json)
    requires PyEq(TextOrNull(a), s) && PyEq(TextOrNull(b), s)
    ensures a == b
  {
  }

  /** One node up to its metadata; results are compared where both are there. */
  predicate SameButMeta(a: Node, b: Node) {
    && a.id == b.id && a.parent == b.parent && a.kind == b.kind && a.attempt == b.attempt && a.payload == b.payload
    && a.resultDigest == b.resultDigest && (a.result.Some? && b.result.Some? ==> a.result == b.result)
  }

  /** With injective hashing, two accepted manifests with one seal list the same nodes, up to metadata. */
  lemma SealFixesManifest(enc: Encoding, a: SubtreeManifest, b: SubtreeManifest)
    requires enc.InjectiveSeals() && enc.InjectiveIds() && enc.InjectiveResults()
    requires Genuine(enc, a) && Genuine(enc, b) && a.seal == b.seal
    ensures a.rootId == b.rootId && |a.nodes| == |b.nodes|
    ensures forall i | 0 <= i < |a.nodes| :: SameButMeta(a.nodes[i], b.nodes[i])
  {
    hide IsCanonicalPreorder, PyEq, SealDoc, Rolling, WellShaped;
    SealDocBinds(SealOf(enc, a.rootId, a.nodes), SealOf(enc, b.rootId, b.nodes), a.seal);
    SealBinds(enc, a.nodes, b.nodes);
    forall i | 0 <= i < |a.nodes| ensures SameButMeta(a.nodes[i], b.nodes[i]) {
      assert a.nodes[i] in a.nodes && b.nodes[i] in b.nodes;
      assert SameSealed(a.nodes[i], b.nodes[i]);
      SealedSame(enc, a.nodes[i], b.nodes[i]);
    }
  }

  lemma SealedSame(enc: Encoding, a: Node, b: Node)
    requires enc.InjectiveIds() && enc.InjectiveResults() && Sealable(enc, a) && Sealable(enc, b) && SameSealed(a, b)
    ensures SameButMeta(a, b)
  {
    assert enc.nodeId(a.kind, a.parent, a.attempt, a.payload) == enc.nodeId(b.kind, b.parent, b.attempt, b.payload);
    if a.result.Some? && b.result.Some? {
      assert enc.resultDigest(a.result.value) == enc.resultDigest(b.result.value);
    }
  }
}

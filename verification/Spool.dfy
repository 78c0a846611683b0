/** The disk-backed merge plan: its rows, its framed digest and its validation. */
module Spool {
  import opened JsonValue
  import opened Forest
  import opened Store
  import opened Pointer

  newtype byte = x: int | 0 <= x < 256
  type Bytes = seq<byte>

  // ---------------------------------------------------------------- length-prefixed framing

  /** `n.to_bytes(k, "big")` of the low `k` bytes. */
  function BigEndian(n: nat, k: nat): (r: Bytes)
    ensures |r| == k
  {
    if k == 0 then [] else BigEndian(n / 256, k - 1) + [(n % 256) as byte]
  }

  function Power256(k: nat): nat {
    if k == 0 then 1 else 256 * Power256(k - 1)
  }

  const FRAME_LIMIT := 0x1_0000_0000_0000_0000

  lemma EightBytes()
    ensures Power256(8) == FRAME_LIMIT
  {
    assert Power256(4) == 0x1_0000_0000;
    assert Power256(6) == 256 * 256 * Power256(4);
  }

  lemma {:induction false} BigEndianInjective(n: nat, m: nat, k: nat)
    requires n < Power256(k) && m < Power256(k) && BigEndian(n, k) == BigEndian(m, k)
    ensures n == m
  {
    if k > 0 {
      var a, b := BigEndian(n, k), BigEndian(m, k);
      assert a[..k - 1] == BigEndian(n / 256, k - 1) && b[..k - 1] == BigEndian(m / 256, k - 1);
      assert a[k - 1] as int == n % 256 && b[k - 1] as int == m % 256;
      BigEndianInjective(n / 256, m / 256, k - 1);
    }
  }

  predicate Framable(record: Bytes) {
    |record| < FRAME_LIMIT
  }

  /** What `_update_spool_digest` feeds to the hash for one record. */
  function Frame(record: Bytes): Bytes {
    BigEndian(|record|, 8) + record
  }

  function Framed(records: seq<Bytes>): Bytes {
    if records == [] then [] else Frame(records[0]) + Framed(records[1..])
  }

  lemma {:induction false} FramedSnoc(records: seq<Bytes>, record: Bytes)
    ensures Framed(records + [record]) == Framed(records) + Frame(record)
  {
    if records == [] {
      assert ([] + [record])[1..] == [] && [] + [record] == [record];
    } else {
      assert (records + [record])[1..] == records[1..] + [record];
      FramedSnoc(records[1..], record);
    }
  }

  lemma FrameSplit(a: Bytes, x: Bytes, b: Bytes, y: Bytes)
    requires Framable(a) && Framable(b) && Frame(a) + x == Frame(b) + y
    ensures a == b && x == y
  {
    var s, t := Frame(a) + x, Frame(b) + y;
    assert s[..8] == BigEndian(|a|, 8) && t[..8] == BigEndian(|b|, 8);
    EightBytes();
    BigEndianInjective(|a|, |b|, 8);
    assert s[8..8 + |a|] == a && t[8..8 + |b|] == b;
    assert s[8 + |a|..] == x && t[8 + |b|..] == y;
  }

  /** The framing is unambiguous. */
  lemma {:induction false} FramingInjective(a: seq<Bytes>, b: seq<Bytes>)
    requires forall r | r in a || r in b :: Framable(r)
    requires Framed(a) == Framed(b)
    ensures a == b
  {
    if a != [] && b != [] {
      assert a[0] in a && b[0] in b;
      FrameSplit(a[0], Framed(a[1..]), b[0], Framed(b[1..]));
      FramingInjective(a[1..], b[1..]);
      assert a == [a[0]] + a[1..] && b == [b[0]] + b[1..];
    }
  }

  // ---------------------------------------------------------------- records

  /** The record text format and the hash: arbitrary functions. */
  datatype Codec = Codec(enc: Encoding, encode: Node -> Bytes, parse: Bytes -> Option<Node>, sha: Bytes -> Digest)
  {
    /** Accepted by `_validate_for_put` and `_validate_node_round_trip`. */
    predicate Storable(n: Node) {
      enc.ValidForPut(n) && parse(encode(n)) == Some(n)
    }

    /** `_node_from_record`. */
    function FromRecord(record: Bytes): Option<Node> {
      match parse(record)
      case None => None
      case Some(n) => if Storable(n) && encode(n) == record then Some(n) else None
    }

    /** The hash is injective and its values pass the format check. */
    ghost predicate GoodHash() {
      && (forall b :: enc.isDigest(sha(b)))
      && forall a, b :: sha(a) == sha(b) ==> a == b
    }
  }

  lemma FromRecordInverse(codec: Codec, n: Node)
    ensures codec.Storable(n) ==> codec.FromRecord(codec.encode(n)) == Some(n)
    ensures forall record | codec.FromRecord(record) == Some(n) :: record == codec.encode(n)
  {
  }

  datatype Row = Row(position: int, nodeId: Id, record: Bytes, digest: Digest)

  /** The handle of a finalized spool. */
  datatype MergeSpool = MergeSpool(count: nat, digest: Digest)

  function RowOf(codec: Codec, i: nat, n: Node): Row {
    Row(i, n.id, codec.encode(n), codec.sha(codec.encode(n)))
  }

  function RowsOf(codec: Codec, nodes: seq<Node>): seq<Row> {
    seq(|nodes|, i requires 0 <= i < |nodes| => RowOf(codec, i, nodes[i]))
  }

  function Records(codec: Codec, nodes: seq<Node>): seq<Bytes> {
    seq(|nodes|, i requires 0 <= i < |nodes| => codec.encode(nodes[i]))
  }

  function RecordsIn(rows: seq<Row>): seq<Bytes> {
    seq(|rows|, i requires 0 <= i < |rows| => rows[i].record)
  }

  function HandleOf(codec: Codec, nodes: seq<Node>): MergeSpool {
    MergeSpool(|nodes|, codec.sha(Framed(Records(codec, nodes))))
  }

  const NEW_METADATA: map<string, string> := map["version" := "1", "state" := "writing"]

  const METADATA_KEYS: set<string> := {"version", "state", "count", "digest"}

  function MetadataOf(spool: MergeSpool): map<string, string> {
    map["version" := "1", "state" := "complete", "count" := Decimal(spool.count), "digest" := spool.digest]
  }

  lemma CompleteMetadata(spool: MergeSpool)
    ensures NEW_METADATA + map["state" := "complete", "count" := Decimal(spool.count), "digest" := spool.digest] ==
      MetadataOf(spool)
  {
  }

  // ---------------------------------------------------------------- the plan of a traversal

  /** One root the source declares, with what its walk yields. */
  datatype Walked = Walked(root: Id, nodes: seq<Node>)

  function AllNodes(walks: seq<Walked>): seq<Node> {
    if walks == [] then [] else AllNodes(walks[..|walks| - 1]) + walks[|walks| - 1].nodes
  }

  /** The first occurrence of every id. */
  function Distinct(nodes: seq<Node>): seq<Node> {
    if nodes == [] then []
    else
      var before, n := Distinct(nodes[..|nodes| - 1]), nodes[|nodes| - 1];
      if n.id in IdsOf(before) then before else before + [n]
  }

  lemma DistinctSnoc(nodes: seq<Node>, n: Node)
    ensures Distinct(nodes + [n]) == if n.id in IdsOf(Distinct(nodes)) then Distinct(nodes) else Distinct(nodes) + [n]
  {
    assert (nodes + [n])[..|nodes|] == nodes;
  }

  /** `before` and the first `j` of `nodes`. */
  function Upto(before: seq<Node>, nodes: seq<Node>, j: nat): seq<Node>
    requires j <= |nodes|
  {
    before + nodes[..j]
  }

  lemma UptoEnds(before: seq<Node>, nodes: seq<Node>)
    ensures Upto(before, nodes, 0) == before && Upto(before, nodes, |nodes|) == before + nodes
  {
  }

  lemma UptoStep(before: seq<Node>, nodes: seq<Node>, j: nat)
    requires j < |nodes|
    ensures Upto(before, nodes, j + 1) == Upto(before, nodes, j) + [nodes[j]]
  {
  }

  lemma AllNodesStep(walks: seq<Walked>, i: nat)
    requires i < |walks|
    ensures AllNodes(walks[..i + 1]) == AllNodes(walks[..i]) + walks[i].nodes
    ensures AllNodes(walks[..0]) == []
  {
    assert walks[..i + 1][..i] == walks[..i];
  }

  /** Following `before`, the node passes every check of the loop. */
  predicate Spoolable(codec: Codec, before: seq<Node>, n: Node) {
    && codec.Storable(n)
    && (n.parent.Some? ==> n.parent.value in IdsOf(Distinct(before)))
    && (n.id !in IdsOf(Distinct(before)) ==> Framable(codec.encode(n)))
  }

  predicate WalkSpoolable(codec: Codec, before: seq<Node>, walk: Walked) {
    && walk.nodes != []
    && walk.nodes[0].id == walk.root && walk.nodes[0].parent == None
    && forall j | 0 <= j < |walk.nodes| :: Spoolable(codec, Upto(before, walk.nodes, j), walk.nodes[j])
  }

  predicate SpoolableUpto(codec: Codec, walks: seq<Walked>, n: nat)
    requires n <= |walks|
  {
    forall i | 0 <= i < n :: WalkSpoolable(codec, AllNodes(walks[..i]), walks[i])
  }

  predicate AllSpoolable(codec: Codec, walks: seq<Walked>) {
    SpoolableUpto(codec, walks, |walks|)
  }

  lemma SpoolableStep(codec: Codec, walks: seq<Walked>, n: nat)
    requires n < |walks|
    ensures SpoolableUpto(codec, walks, n + 1) <==>
      SpoolableUpto(codec, walks, n) && WalkSpoolable(codec, AllNodes(walks[..n]), walks[n])
    ensures AllSpoolable(codec, walks) ==> SpoolableUpto(codec, walks, n + 1)
  {
    hide WalkSpoolable;
  }

  /** The inner loop of `_prepare_merge`. */
  method PlanWalk(enc: Encoding, ghost before: seq<Node>, nodes: seq<Node>, planned: seq<Node>)
    returns (r: Result<seq<Node>>)
    requires planned == Distinct(before)
    ensures r ==
      if forall n | n in nodes :: enc.ValidForPut(n) then Ok(Distinct(before + nodes)) else Err(IntegrityError)
  {
    var plan := planned;
    UptoEnds(before, nodes);
    hide Upto, Distinct, IdsOf;
    for j := 0 to |nodes|
      invariant plan == Distinct(Upto(before, nodes, j))
      invariant forall k | 0 <= k < j :: enc.ValidForPut(nodes[k])
    {
      var incoming := nodes[j];
      if !enc.ValidForPut(incoming) {
        assert incoming in nodes;
        return Err(IntegrityError);
      }
      UptoStep(before, nodes, j);
      DistinctSnoc(Upto(before, nodes, j), incoming);
      if incoming.id !in IdsOf(plan) {
        plan := plan + [incoming];
      }
    }
    r := Ok(plan);
  }

  /** `_prepare_merge` over any traversal: the first occurrence of every id, if all nodes are valid. */
  method PreparePlan(enc: Encoding, walks: seq<Walked>) returns (r: Result<seq<Node>>)
    ensures r == if forall n | n in AllNodes(walks) :: enc.ValidForPut(n)
      then Ok(Distinct(AllNodes(walks))) else Err(IntegrityError)
  {
    var plan: seq<Node> := [];
    assert walks[..0] == [] && walks[..|walks|] == walks;
    for i := 0 to |walks|
      invariant plan == Distinct(AllNodes(walks[..i]))
      invariant forall n | n in AllNodes(walks[..i]) :: enc.ValidForPut(n)
    {
      AllNodesStep(walks, i);
      AllNodesWithin(walks, i);
      hide Distinct, AllNodes;
      var step := PlanWalk(enc, AllNodes(walks[..i]), walks[i].nodes, plan);
      if step.Err? { return Err(IntegrityError); }
      plan := step.value;
    }
    r := Ok(plan);
  }

  lemma {:induction false} AllNodesWithin(walks: seq<Walked>, i: nat)
    requires i < |walks|
    ensures forall n | n in AllNodes(walks[..i]) + walks[i].nodes :: n in AllNodes(walks)
    decreases |walks|
  {
    if i == |walks| - 1 {
      assert walks[..i] == walks[..|walks| - 1];
    } else {
      AllNodesWithin(walks[..|walks| - 1], i);
      assert walks[..|walks| - 1][..i] == walks[..i];
    }
  }

  // ---------------------------------------------------------------- the spool file

  class SpoolFile {
    var metadata: map<string, string>
    var rows: seq<Row>

    constructor ()
      ensures metadata == NEW_METADATA && rows == []
    {
      metadata, rows := NEW_METADATA, [];
    }

    /** `SELECT 1 FROM nodes WHERE node_id = ?`. */
    predicate Holds(id: Id)
      reads this
    {
      exists i | 0 <= i < |rows| :: rows[i].nodeId == id
    }

    /** The loop of `prepare` has gone through `nodes`: rows, digest input and counter. */
    ghost predicate Spooled(codec: Codec, nodes: seq<Node>, hashed: Bytes, count: nat)
      reads this
    {
      && rows == RowsOf(codec, Distinct(nodes))
      && hashed == Framed(Records(codec, Distinct(nodes)))
      && count == |Distinct(nodes)|
    }

    /** One turn of that loop. */
    method AddNode(codec: Codec, ghost before: seq<Node>, n: Node, hashed: Bytes, count: nat)
      returns (r: Result<(Bytes, nat)>)
      requires Spooled(codec, before, hashed, count)
      modifies this`rows
      ensures r.Ok? <==> Spoolable(codec, before, n)
      ensures r.Ok? ==> Spooled(codec, before + [n], r.value.0, r.value.1)
    {
      ghost var d := Distinct(before);
      DistinctSnoc(before, n);
      RowIds(codec, d);
      if !codec.Storable(n) { return Err(IntegrityError); }
      if n.parent.Some? && !Holds(n.parent.value) { return Err(IntegrityError); }
      if Holds(n.id) {
        return Ok((hashed, count));
      }
      var record := codec.encode(n);
      rows := rows + [Row(count, n.id, record, codec.sha(record))];
      if |record| >= FRAME_LIMIT { return Err(OverflowError); }
      SnocRows(codec, d, n);
      FramedSnoc(Records(codec, d), record);
      r := Ok((hashed + Frame(record), count + 1));
    }

    method AddWalk(codec: Codec, ghost before: seq<Node>, walk: Walked, hashed: Bytes, count: nat)
      returns (r: Result<(Bytes, nat)>)
      requires Spooled(codec, before, hashed, count)
      modifies this`rows
      ensures r.Ok? <==> WalkSpoolable(codec, before, walk)
      ensures r.Ok? ==> Spooled(codec, before + walk.nodes, r.value.0, r.value.1)
    {
      var bytes, n := hashed, count;
      var yieldedRoot := false;
      UptoEnds(before, walk.nodes);
      hide Spoolable, Upto, Spooled;
      for j := 0 to |walk.nodes|
        invariant yieldedRoot <==> j > 0
        invariant yieldedRoot ==> walk.nodes[0].id == walk.root && walk.nodes[0].parent == None
        invariant Spooled(codec, Upto(before, walk.nodes, j), bytes, n)
        invariant forall k | 0 <= k < j :: Spoolable(codec, Upto(before, walk.nodes, k), walk.nodes[k])
      {
        var incoming := walk.nodes[j];
        if !yieldedRoot {
          if incoming.id != walk.root || incoming.parent.Some? { return Err(IntegrityError); }
          yieldedRoot := true;
        }
        var step := AddNode(codec, Upto(before, walk.nodes, j), incoming, bytes, n);
        if step.Err? { return Err(step.error); }
        UptoStep(before, walk.nodes, j);
        bytes, n := step.value.0, step.value.1;
      }
      if !yieldedRoot { return Err(IntegrityError); }
      r := Ok((bytes, n));
    }

    method AddWalks(codec: Codec, walks: seq<Walked>) returns (r: Result<(Bytes, nat)>)
      requires rows == []
      modifies this`rows
      ensures r.Ok? <==> AllSpoolable(codec, walks)
      ensures r.Ok? ==> Spooled(codec, AllNodes(walks), r.value.0, r.value.1)
    {
      var bytes: Bytes, count := [], 0;
      assert walks[..0] == [] && walks[..|walks|] == walks;
      SpooledNothing(codec);
      assert Spooled(codec, AllNodes(walks[..0]), bytes, count) && SpoolableUpto(codec, walks, 0);
      hide WalkSpoolable, Spooled, AllNodes, SpoolableUpto;
      for i := 0 to |walks|
        invariant Spooled(codec, AllNodes(walks[..i]), bytes, count)
        invariant SpoolableUpto(codec, walks, i)
      {
        AllNodesStep(walks, i);
        SpoolableStep(codec, walks, i);
        var step := AddWalk(codec, AllNodes(walks[..i]), walks[i], bytes, count);
        if step.Err? { return Err(step.error); }
        bytes, count := step.value.0, step.value.1;
      }
      r := Ok((bytes, count));
    }

    /** `_MergeSpool.prepare`, over whatever the source traversal yields. */
    method Prepare(codec: Codec, walks: seq<Walked>) returns (r: Result<MergeSpool>)
      requires codec.GoodHash() && metadata == NEW_METADATA && rows == []
      modifies this
      ensures r.Ok? <==> AllSpoolable(codec, walks)
      ensures r.Ok? ==>
        var plan := Distinct(AllNodes(walks));
        && r.value == HandleOf(codec, plan)
        && rows == RowsOf(codec, plan) && metadata == MetadataOf(r.value)
        && Accepted(codec, r.value, metadata, rows) && PlanSpoolable(codec, plan)
    {
      var written := AddWalks(codec, walks);
      if written.Err? { return Err(written.error); }
      ghost var plan := Distinct(AllNodes(walks));
      PlanStorable(codec, walks);
      WrittenAccepted(codec, plan);
      var spool := MergeSpool(written.value.1, codec.sha(written.value.0));
      assert spool == HandleOf(codec, plan) && rows == RowsOf(codec, plan);
      CompleteMetadata(spool);
      hide *;
      metadata := metadata +
        map["state" := "complete", "count" := Decimal(spool.count), "digest" := spool.digest];
      var valid := Validate(codec, spool);
      r := if valid then Ok(spool) else Err(IntegrityError);
    }

    /** `_validate_connection`: `false` when it raises. */
    method Validate(codec: Codec, spool: MergeSpool) returns (ok: bool)
      ensures ok <==> Accepted(codec, spool, metadata, rows)
    {
      if metadata.Keys != METADATA_KEYS { return false; }
      if metadata["version"] != "1" || metadata["state"] != "complete" { return false; }
      var count := SpoolCount(metadata["count"]);
      if count == None || !codec.enc.isDigest(metadata["digest"]) { return false; }
      if count.value != spool.count || metadata["digest"] != spool.digest { return false; }
      var hashed: Bytes := [];
      assert RecordsIn(rows[..0]) == [];
      hide SpoolCount, Framed;
      for i := 0 to |rows|
        invariant forall k | 0 <= k < i :: RowAccepted(codec, rows[k], k)
        invariant hashed == FramedRows(rows[..i])
      {
        if !RowAccepted(codec, rows[i], i) { return false; }
        FramedRowsSnoc(rows, i);
        hashed := hashed + Frame(rows[i].record);
      }
      assert rows[..|rows|] == rows;
      ok := |rows| == count.value && codec.sha(hashed) == spool.digest;
    }

    /** `iter_nodes`: validates, then yields the nodes in order of position. */
    method IterNodes(codec: Codec, spool: MergeSpool) returns (r: Result<seq<Node>>)
      ensures r.Ok? <==> Accepted(codec, spool, metadata, rows)
      ensures r.Ok? ==> rows == RowsOf(codec, r.value) && PlanSpoolable(codec, r.value)
    {
      var ok := Validate(codec, spool);
      if !ok { return Err(IntegrityError); }
      var nodes: seq<Node> := [];
      for i := 0 to |rows|
        invariant |nodes| == i && forall k | 0 <= k < i :: rows[k] == RowOf(codec, k, nodes[k])
        invariant PlanSpoolable(codec, nodes)
      {
        assert RowAccepted(codec, rows[i], i);
        nodes := nodes + [codec.FromRecord(rows[i].record).value];
      }
      r := Ok(nodes);
    }
  }

  /** `_spool_count`: a canonical decimal. */
  function SpoolCount(text: string): Option<nat> {
    match ParseIndex(text)
    case None => None
    case Some(n) => if Decimal(n) == text then Some(n) else None
  }

  /** The checks on one row at position `i`. */
  predicate RowAccepted(codec: Codec, row: Row, i: nat) {
    && row.position == i
    && codec.sha(row.record) == row.digest
    && codec.FromRecord(row.record).Some?
    && codec.FromRecord(row.record).value.id == row.nodeId
    && Framable(row.record)
  }

  function FramedRows(rows: seq<Row>): Bytes {
    Framed(RecordsIn(rows))
  }

  predicate Accepted(codec: Codec, spool: MergeSpool, metadata: map<string, string>, rows: seq<Row>) {
    && metadata.Keys == METADATA_KEYS
    && metadata["version"] == "1" && metadata["state"] == "complete"
    && SpoolCount(metadata["count"]) == Some(spool.count)
    && codec.enc.isDigest(metadata["digest"]) && metadata["digest"] == spool.digest
    && (forall i | 0 <= i < |rows| :: RowAccepted(codec, rows[i], i))
    && |rows| == spool.count && codec.sha(FramedRows(rows)) == spool.digest
  }

  lemma FramedRowsSnoc(rows: seq<Row>, i: nat)
    requires i < |rows|
    ensures FramedRows(rows[..i + 1]) == FramedRows(rows[..i]) + Frame(rows[i].record)
  {
    assert RecordsIn(rows[..i + 1]) == RecordsIn(rows[..i]) + [rows[i].record];
    FramedSnoc(RecordsIn(rows[..i]), rows[i].record);
  }

  lemma RowIds(codec: Codec, nodes: seq<Node>)
    ensures
      var rows := RowsOf(codec, nodes);
      forall x :: x in IdsOf(nodes) <==> exists i | 0 <= i < |rows| :: rows[i].nodeId == x
  {
    var rows := RowsOf(codec, nodes);
    assert forall i | 0 <= i < |nodes| :: rows[i].nodeId == IdsOf(nodes)[i];
  }

  lemma SpooledNothing(codec: Codec)
    ensures Distinct(AllNodes([])) == [] && RowsOf(codec, []) == [] && Framed(Records(codec, [])) == []
  {
  }

  lemma SnocRows(codec: Codec, nodes: seq<Node>, n: Node)
    ensures RowsOf(codec, nodes + [n]) == RowsOf(codec, nodes) + [RowOf(codec, |nodes|, n)]
    ensures Records(codec, nodes + [n]) == Records(codec, nodes) + [codec.encode(n)]
  {
  }

  predicate PlanSpoolable(codec: Codec, plan: seq<Node>) {
    forall n | n in plan :: codec.Storable(n) && Framable(codec.encode(n))
  }

  lemma SnocSpoolable(codec: Codec, before: seq<Node>, n: Node)
    requires PlanSpoolable(codec, Distinct(before)) && Spoolable(codec, before, n)
    ensures PlanSpoolable(codec, Distinct(before + [n]))
  {
    DistinctSnoc(before, n);
    hide Distinct, IdsOf;
  }

  lemma {:induction false} DistinctSpoolable(codec: Codec, before: seq<Node>, more: seq<Node>, j: nat)
    requires PlanSpoolable(codec, Distinct(before)) && j <= |more|
    requires forall k | 0 <= k < |more| :: Spoolable(codec, Upto(before, more, k), more[k])
    ensures PlanSpoolable(codec, Distinct(Upto(before, more, j)))
  {
    UptoEnds(before, more);
    if j > 0 {
      DistinctSpoolable(codec, before, more, j - 1);
      UptoStep(before, more, j - 1);
      hide *;
      SnocSpoolable(codec, Upto(before, more, j - 1), more[j - 1]);
    }
  }

  lemma {:induction false} PlanStorable(codec: Codec, walks: seq<Walked>)
    requires AllSpoolable(codec, walks)
    ensures PlanSpoolable(codec, Distinct(AllNodes(walks)))
    decreases |walks|
  {
    if walks != [] {
      var front := walks[..|walks| - 1];
      forall i | 0 <= i < |front| ensures WalkSpoolable(codec, AllNodes(front[..i]), front[i]) {
        assert front[..i] == walks[..i];
      }
      PlanStorable(codec, front);
      assert WalkSpoolable(codec, AllNodes(walks[..|walks| - 1]), walks[|walks| - 1]);
      var last := walks[|walks| - 1].nodes;
      DistinctSpoolable(codec, AllNodes(front), last, |last|);
      UptoEnds(AllNodes(front), last);
    }
  }

  lemma WrittenAccepted(codec: Codec, plan: seq<Node>)
    requires codec.GoodHash() && PlanSpoolable(codec, plan)
    ensures Accepted(codec, HandleOf(codec, plan), MetadataOf(HandleOf(codec, plan)), RowsOf(codec, plan))
  {
    var rows := RowsOf(codec, plan);
    DecimalRoundTrip(|plan|);
    forall i | 0 <= i < |rows| ensures RowAccepted(codec, rows[i], i) {
      assert plan[i] in plan;
    }
    assert RecordsIn(rows) == Records(codec, plan);
  }

  /** With an injective hash, `validate` accepts exactly the rows and metadata `prepare` wrote. */
  lemma AcceptedIsWritten(codec: Codec, plan: seq<Node>, metadata: map<string, string>, rows: seq<Row>)
    requires codec.GoodHash() && PlanSpoolable(codec, plan)
    ensures Accepted(codec, HandleOf(codec, plan), metadata, rows) <==>
      rows == RowsOf(codec, plan) && metadata == MetadataOf(HandleOf(codec, plan))
  {
    var spool := HandleOf(codec, plan);
    WrittenAccepted(codec, plan);
    if Accepted(codec, spool, metadata, rows) {
      AcceptedRows(codec, plan, metadata, rows);
      AcceptedMetadata(codec, spool, metadata, rows);
    }
  }

  lemma AcceptedMetadata(codec: Codec, spool: MergeSpool, metadata: map<string, string>, rows: seq<Row>)
    requires Accepted(codec, spool, metadata, rows)
    ensures metadata == MetadataOf(spool)
  {
    assert metadata["count"] == Decimal(spool.count);
    assert metadata.Keys == MetadataOf(spool).Keys;
  }

  lemma AcceptedRows(codec: Codec, plan: seq<Node>, metadata: map<string, string>, rows: seq<Row>)
    requires codec.GoodHash() && PlanSpoolable(codec, plan) && Accepted(codec, HandleOf(codec, plan), metadata, rows)
    ensures rows == RowsOf(codec, plan)
  {
    var records, written := RecordsIn(rows), Records(codec, plan);
    assert Framed(records) == Framed(written);
    forall r | r in records || r in written ensures Framable(r) {
      if r in records {
        var i :| 0 <= i < |records| && records[i] == r;
        assert RowAccepted(codec, rows[i], i);
      } else {
        var i :| 0 <= i < |written| && written[i] == r;
        assert plan[i] in plan;
      }
    }
    FramingInjective(records, written);
    hide Framed;
    forall i | 0 <= i < |rows| ensures rows[i] == RowsOf(codec, plan)[i] {
      assert RowAccepted(codec, rows[i], i) && records[i] == written[i] && plan[i] in plan;
      FromRecordInverse(codec, plan[i]);
    }
  }

  /** Reading an accepted spool gives back the plan it was prepared from. */
  lemma RowsDetermineNodes(codec: Codec, a: seq<Node>, b: seq<Node>)
    requires PlanSpoolable(codec, a) && PlanSpoolable(codec, b) && RowsOf(codec, a) == RowsOf(codec, b)
    ensures a == b
  {
    assert |a| == |RowsOf(codec, a)| == |b|;
    forall i | 0 <= i < |a| ensures a[i] == b[i] {
      assert RowsOf(codec, a)[i] == RowsOf(codec, b)[i] && a[i] in a && b[i] in b;
      FromRecordInverse(codec, a[i]);
      FromRecordInverse(codec, b[i]);
    }
  }
}

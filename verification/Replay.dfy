/** Strict replay simulates the recording it reads. */
module Replay {
  import opened JsonValue
  import opened Forest
  import opened Store
  import opened Governor
  import opened Lifecycle
  import opened Operations
  import opened CallRecords
  import opened BudgetBound

  type Ops = seq<(nat, Op)>

  /** The nodes a sequence of operations returns, with the world they leave; `None` once one does not return. */
  ghost function Returns(cfg: Config, w: World, ops: Ops): Option<(World, seq<Node>)>
    requires WorldValid(cfg.enc, w)
    decreases |ops|
  {
    if ops == [] then Some((w, []))
    else
      var (i, op) := ops[0];
      if i >= |w.handles| then None
      else
        var step := (assert w.handles[i] in w.handles; Perform(cfg, w.nodes, w.handles[i], op));
        if !step.after.ended.Returned? then None
        else
          NextValid(cfg, w, By(i, op));
          match Returns(cfg, Move(cfg, w, i, op), ops[1..])
          case None => None
          case Some(rest) => Some((rest.0, [step.after.ended.node] + rest.1))
  }

  /** Same cursors; scopes may differ. */
  ghost predicate SameCursors(a: seq<Handle>, b: seq<Handle>) {
    |a| == |b| && forall i | 0 <= i < |a| :: a[i].cursor == b[i].cursor
  }

  ghost predicate SameRecord(a: Node, b: Node) {
    a.id == b.id && a.Identity() == b.Identity() && a.result == b.result
  }

  // ---------------------------------------------------------------- ancestry in a larger store

  lemma {:induction false} ClimbSame(m: Nodes, m': Nodes, x: Id, steps: nat)
    requires IsForest(m) && IsForest(m') && Extends(m, m') && x in m
    ensures x in m' && Climb(m, x, steps) == Climb(m', x, steps)
    decreases steps
  {
    if steps > 0 && m[x].parent.Some? { ClimbSame(m, m', m[x].parent.value, steps - 1); }
  }

  // ---------------------------------------------------------------- one operation

  /** A replayed call never reaches a step function, an arbiter or the store. */
  lemma ReplayIsPassive(cfg: Config, m: Nodes, h: Handle, c: Invocation)
    requires WellFormed(cfg.enc, m) && h.cursor in m && cfg.mode == Mode.Replay
    ensures !FindRecorded(cfg, m, h.cursor, c).Live?
    ensures
      var a := CallOutcome(cfg, m, h, c);
      a.nodes == m && a.log == [] && a.built == None && a.handle.scopes == h.scopes
  {
    hide WellFormed, Precheck, Dispatch, Refusing, IsForest;
  }

  /** The node at `id` is returned, and the cursor moves to it. */
  ghost predicate ReturnsAt(a: After, id: Id) {
    a.ended.Returned? ==> id in a.nodes && a.ended.node == a.nodes[id] && a.ended.node.id == id && a.handle.cursor == id
  }

  lemma CompleteReturns(cfg: Config, m: Nodes, h: Handle, c: Invocation, p: Pass, result: Json)
    requires WellFormed(cfg.enc, m)
    ensures ReturnsAt(Complete(cfg, m, h, c, p, result), CallId(cfg, h.cursor, c))
  {
    hide WellFormed, Recording, CallMeta, ChargesFor, IsForest;
    RecordingGrown(cfg, m, h, CallNode(cfg, h.cursor, c, p, result));
  }

  lemma UnknownFails(cfg: Config, m: Nodes, h: Handle, c: Invocation, p: Pass, tag: Label, fault: Fault)
    requires WellFormed(cfg.enc, m)
    ensures Unknown(cfg, m, h, c, p, tag, fault).ended == Failed
  {
    hide WellFormed, Recording, FailureNode, IsForest, EstimatedCharges;
  }

  lemma DispatchReturns(cfg: Config, m: Nodes, h: Handle, c: Invocation, p: Pass)
    requires WellFormed(cfg.enc, m)
    ensures ReturnsAt(Dispatch(cfg, m, h, c, p), CallId(cfg, h.cursor, c))
  {
    hide WellFormed, Unknown, Complete, IsForest, ExitOf;
    match ExitOf(c.script, p.rid) {
      case Abandoned =>
      case Unsure(tag, fault) => UnknownFails(cfg, m, h, c, p, tag, fault);
      case Completed(result) => CompleteReturns(cfg, m, h, c, p, result);
    }
  }

  /** A call that returns in record mode leaves the cursor on the node its identity names. */
  lemma CallReturns(cfg: Config, m: Nodes, h: Handle, c: Invocation)
    requires WellFormed(cfg.enc, m) && h.cursor in m && cfg.mode == Mode.Record
    ensures ReturnsAt(CallOutcome(cfg, m, h, c), CallId(cfg, h.cursor, c))
  {
    hide WellFormed, Precheck, Dispatch, Refusing, IsForest, RejectedPayload;
    CallNeedsForest(cfg, m);
    if FindRecorded(cfg, m, h.cursor, c) == Live {
      match Precheck(cfg, m, h, c.kind, c.payload) {
        case Blocked(refusal) => NotReturned(cfg, m, h, refusal, c.script.now, []);
        case Raised =>
        case Clear(estimates, approximate) =>
          DispatchReturns(cfg, m, h, c, Pass(estimates, None));
          DispatchReturns(cfg, m, h, c, Pass(estimates, Some(c.script.reservationId)));
          if c.script.answer.Rejected? {
            var rejected := RejectedPayload(cfg, c.kind, c.payload, c.script.answer, approximate);
            NotReturned(cfg, m, h, rejected, c.script.now, [Reserve(c.script.reservationId, false)]);
          }
      }
    }
  }

  lemma NoteReturns(cfg: Config, m: Nodes, h: Handle, payload: Dict, attempt: nat, now: string)
    requires WellFormed(cfg.enc, m) && IsForest(m) && h.cursor in m
    ensures
      var id := cfg.enc.nodeId(Note, Some(h.cursor), attempt, payload);
      ReturnsAt(PlaceNote(cfg, m, h, payload, attempt, now), id)
  {
    hide WellFormed, IsForest, Precheck, Refusing;
    NoteGrown(cfg, m, h, payload, attempt, now);
    var checked := if cfg.mode == Mode.Record then Precheck(cfg, m, h, Note, payload) else Clear([], {});
    if checked.Blocked? { NotReturned(cfg, m, h, checked.payload, now, []); }
  }

  /** What a replayed operation does when the recording returned node `n` below or at the same cursor. */
  ghost predicate Follows(m: Nodes, recorded: Step, replayed: Step, call: bool)
    requires recorded.after.ended.Returned?
  {
    var n := recorded.after.ended.node;
    && replayed.after.nodes == m
    && (replayed.after.ended.Returned? <==> (call ==> n.result.Some?))
    && (replayed.after.ended.Returned? ==>
        && SameRecord(replayed.after.ended.node, n)
        && replayed.after.handle.cursor == recorded.after.handle.cursor
        && (replayed.child.Some? <==> recorded.child.Some?)
        && (recorded.child.Some? ==> replayed.child.value.cursor == recorded.child.value.cursor))
  }

  lemma StoredRecord(m: Nodes, m': Nodes, x: Id)
    requires Extends(m, m') && x in m
    ensures x in m' && SameRecord(m'[x], m[x])
  {
    assert m'[x] == m[x].(meta := m'[x].meta);
  }

  /** One operation, replayed on any store that still holds what the recording left. */
  lemma OperationFollows(cfg: Config, m: Nodes, h: Handle, op: Op, final: Nodes, r: Handle)
    requires cfg.mode == Mode.Record && WellFormed(cfg.enc, m) && WellFormed(cfg.enc, final)
    requires h.cursor in m && r.cursor == h.cursor && r.cursor in final
    requires Perform(cfg, m, h, op).after.ended.Returned? && Extends(Perform(cfg, m, h, op).after.nodes, final)
    ensures Follows(final, Perform(cfg, m, h, op), Perform(cfg.(mode := Mode.Replay), final, r, op), op.Call?)
  {
    hide WellFormed, IsForest, CallOutcome, PlaceNote, RollBack, Extends, SameRecord, ChildScopes;
    CallNeedsForest(cfg, m);
    CallNeedsForest(cfg, final);
    var strict := cfg.(mode := Mode.Replay);
    var n := Perform(cfg, m, h, op).after.ended.node;
    match op {
      case Call(c) =>
        CallReturns(cfg, m, h, c);
        StoredRecord(Perform(cfg, m, h, op).after.nodes, final, n.id);
        CallFollows(strict, final, r, c);
        RecordParts(final[n.id], n);
      case WriteNote(payload, attempt, now) =>
        NoteReturns(cfg, m, h, payload, attempt, now);
        StoredRecord(Perform(cfg, m, h, op).after.nodes, final, n.id);
        NoteFollows(strict, final, r, payload, attempt, now);
      case Branch(attempt, budget, now) =>
        NoteReturns(cfg, m, h, BRANCH_PAYLOAD, attempt, now);
        StoredRecord(Perform(cfg, m, h, op).after.nodes, final, n.id);
        NoteFollows(strict, final, r, BRANCH_PAYLOAD, attempt, now);
        RecordParts(final[n.id], n);
      case Rollback(target, steps) =>
        RollBackFollows(cfg.enc, m, h, target, steps, final, r);
    }
  }

  lemma RecordParts(a: Node, b: Node)
    requires SameRecord(a, b)
    ensures a.id == b.id && a.result == b.result
  {
  }

  lemma CallFollows(cfg: Config, m: Nodes, r: Handle, c: Invocation)
    requires cfg.mode == Mode.Replay && WellFormed(cfg.enc, m) && r.cursor in m
    ensures
      var a, id := CallOutcome(cfg, m, r, c), CallId(cfg, r.cursor, c);
      && a.nodes == m
      && (a.ended.Returned? <==> id in m && m[id].result.Some?)
      && (a.ended.Returned? ==> a.ended.node == m[id] && a.handle.cursor == id)
  {
    hide WellFormed, Precheck, Dispatch, Refusing, IsForest;
    FoundInStore(cfg, m, r.cursor, c);
  }

  lemma NoteFollows(cfg: Config, m: Nodes, r: Handle, payload: Dict, attempt: nat, now: string)
    requires cfg.mode == Mode.Replay && WellFormed(cfg.enc, m) && IsForest(m) && r.cursor in m
    ensures
      var a := PlaceNote(cfg, m, r, payload, attempt, now);
      var id := cfg.enc.nodeId(Note, Some(r.cursor), attempt, payload);
      && a.nodes == m
      && (a.ended.Returned? <==> id in m)
      && (a.ended.Returned? ==> a.ended.node == m[id] && a.ended.node.id == id && a.handle.cursor == id)
  {
    hide WellFormed, IsForest, Precheck, Refusing;
    ExtendsItself(cfg.enc, m);
  }

  lemma RollBackFollows(enc: Encoding, m: Nodes, h: Handle, target: Option<Id>, steps: nat, final: Nodes, r: Handle)
    requires IsForest(m) && IsForest(final)
    requires h.cursor in m && r.cursor == h.cursor && r.cursor in final
    requires RollBack(m, h, target, steps).ended.Returned? && Extends(RollBack(m, h, target, steps).nodes, final)
    ensures
      var a, b := RollBack(m, h, target, steps), RollBack(final, r, target, steps);
      && a.nodes == m && b.nodes == final && b.ended.Returned?
      && SameRecord(b.ended.node, a.ended.node) && b.handle.cursor == a.handle.cursor
  {
    hide IsForest, IsAncestor, Climb, SameRecord, Extends;
    ClimbSame(m, final, h.cursor, steps);
    var to := if target.Some? then target.value else Climb(m, h.cursor, steps);
    AncestorSame(m, final, to, h.cursor);
    AncestorIn(m, to, h.cursor);
    StoredRecord(m, final, to);
  }

  // ---------------------------------------------------------------- whole runs

  /** Every call the recording returned has a result; only a call that was already stored without one lacks it. */
  ghost predicate CallsHaveResults(ops: Ops, nodes: seq<Node>)
    requires |nodes| == |ops|
  {
    forall i | 0 <= i < |ops| && ops[i].1.Call? :: nodes[i].result.Some?
  }

  lemma {:induction false} ReturnsGrown(cfg: Config, w: World, ops: Ops)
    requires WorldValid(cfg.enc, w)
    ensures Returns(cfg, w, ops).Some? ==>
      var r := Returns(cfg, w, ops).value;
      |r.1| == |ops| && WorldValid(cfg.enc, r.0) && Extends(w.nodes, r.0.nodes)
    decreases |ops|
  {
    hide WorldValid, Perform, Extends;
    WorldExtends(cfg.enc, w);
    if ops != [] && Returns(cfg, w, ops).Some? {
      var (i, op) := ops[0];
      NextValid(cfg, w, By(i, op));
      var w1 := Move(cfg, w, i, op);
      ReturnsGrown(cfg, w1, ops[1..]);
      ExtendsTwice(w.nodes, w1.nodes, Returns(cfg, w, ops).value.0.nodes);
    }
  }

  lemma WorldExtends(enc: Encoding, w: World)
    requires WorldValid(enc, w)
    ensures Extends(w.nodes, w.nodes) && WellFormed(enc, w.nodes) && forall h | h in w.handles :: h.cursor in w.nodes
  {
  }

  lemma ExtendsTwice(a: Nodes, b: Nodes, c: Nodes)
    requires Extends(a, b) && Extends(b, c)
    ensures Extends(a, c)
  {
    forall x | x in a ensures x in c && c[x] == a[x].(meta := c[x].meta) {
      assert b[x] == a[x].(meta := b[x].meta) && c[x] == b[x].(meta := c[x].meta);
    }
  }

  lemma MoveSameCursors(a: seq<Handle>, b: seq<Handle>, i: nat, x: Handle, y: Handle, c: Option<Handle>,
      d: Option<Handle>)
    requires SameCursors(a, b) && i < |a| && x.cursor == y.cursor
    requires (c.Some? <==> d.Some?) && (c.Some? ==> c.value.cursor == d.value.cursor)
    ensures SameCursors(a[i := x] + Kept(c), b[i := y] + Kept(d))
  {
  }

  ghost predicate SameRecords(a: seq<Node>, b: seq<Node>) {
    |a| == |b| && forall i | 0 <= i < |a| :: SameRecord(a[i], b[i])
  }

  lemma SameRecordsCons(x: Node, a: seq<Node>, y: Node, b: seq<Node>)
    requires SameRecord(x, y) && SameRecords(a, b)
    ensures SameRecords([x] + a, [y] + b)
  {
    hide SameRecord;
  }

  /** What a replay of the whole sequence gives. */
  ghost predicate Simulates(ops: Ops, recorded: (World, seq<Node>), final: Nodes,
      replayed: Option<(World, seq<Node>)>)
  {
    && |recorded.1| == |ops|
    && (replayed.Some? <==> CallsHaveResults(ops, recorded.1))
    && (replayed.Some? ==>
        && replayed.value.0.nodes == final
        && SameCursors(replayed.value.0.handles, recorded.0.handles)
        && SameRecords(replayed.value.1, recorded.1))
  }

  lemma SimulatesNothing(w: World, r: World)
    requires SameCursors(r.handles, w.handles)
    ensures Simulates([], (w, []), r.nodes, Some((r, [])))
  {
  }

  lemma SimulatesCons(ops: Ops, n: Node, rest: (World, seq<Node>), final: Nodes, first: Option<Node>,
                      more: Option<(World, seq<Node>)>)
    requires ops != [] && Simulates(ops[1..], rest, final, more)
    requires first.Some? <==> (ops[0].1.Call? ==> n.result.Some?)
    requires first.Some? ==> SameRecord(first.value, n)
    ensures Simulates(ops, (rest.0, [n] + rest.1), final,
      if first.Some? && more.Some? then Some((more.value.0, [first.value] + more.value.1)) else None)
  {
    hide SameRecord, SameCursors, CallsHaveResults, SameRecords;
    ResultsCons(ops, n, rest.1);
    if first.Some? && more.Some? { SameRecordsCons(first.value, more.value.1, n, rest.1); }
  }

  lemma ResultsCons(ops: Ops, n: Node, rest: seq<Node>)
    requires ops != [] && |rest| == |ops| - 1
    ensures CallsHaveResults(ops, [n] + rest) <==>
      (ops[0].1.Call? ==> n.result.Some?) && CallsHaveResults(ops[1..], rest)
  {
    var nodes := [n] + rest;
    assert forall i | 0 <= i < |rest| :: nodes[i + 1] == rest[i] && ops[i + 1] == ops[1..][i];
    if CallsHaveResults(ops, nodes) {
      forall i | 0 <= i < |ops[1..]| && ops[1..][i].1.Call? ensures rest[i].result.Some? {
        assert ops[i + 1].1.Call? && nodes[i + 1].result.Some?;
      }
    }
  }

  /** What replaying a sequence whose first operation already fails amounts to. */
  lemma SimulatesFailure(ops: Ops, n: Node, rest: (World, seq<Node>), final: Nodes)
    requires ops != [] && |rest.1| == |ops| - 1 && ops[0].1.Call? && n.result == None
    ensures Simulates(ops, (rest.0, [n] + rest.1), final, None)
  {
    assert ([n] + rest.1)[0] == n;
  }

  /** Replaying the sequence on the final store, or on any store grown from it, starting from the same cursors:
      it returns normally exactly when every recorded call has a result, and then visits the same cursors, returns
      the same records and leaves the store as it was. */
  lemma {:induction false} StrictReplaySimulates(cfg: Config, w: World, ops: Ops, r: World)
    requires cfg.mode == Mode.Record && WorldValid(cfg.enc, w) && WorldValid(cfg.enc, r)
    requires Returns(cfg, w, ops).Some? && Extends(Returns(cfg, w, ops).value.0.nodes, r.nodes)
    requires SameCursors(r.handles, w.handles)
    ensures Simulates(ops, Returns(cfg, w, ops).value, r.nodes, Returns(cfg.(mode := Mode.Replay), r, ops))
    decreases |ops|
  {
    hide WorldValid, Perform, Extends, Simulates, SameRecord, Follows, WellFormed;
    var strict := cfg.(mode := Mode.Replay);
    if ops == [] {
      SimulatesNothing(w, r);
    } else {
      var (i, op) := ops[0];
      WorldExtends(cfg.enc, w);
      WorldExtends(cfg.enc, r);
      var h, g := w.handles[i], r.handles[i];
      assert h in w.handles && g in r.handles;
      NextValid(cfg, w, By(i, op));
      NextValid(strict, r, By(i, op));
      var w1, r1 := Move(cfg, w, i, op), Move(strict, r, i, op);
      ReturnsGrown(cfg, w1, ops[1..]);
      ExtendsTwice(w1.nodes, Returns(cfg, w, ops).value.0.nodes, r.nodes);
      OperationFollows(cfg, w.nodes, h, op, r.nodes, g);
      StepFollows(cfg, w, ops, r);
    }
  }

  lemma StepFollows(cfg: Config, w: World, ops: Ops, r: World)
    requires cfg.mode == Mode.Record && WorldValid(cfg.enc, w) && WorldValid(cfg.enc, r) && ops != []
    requires Returns(cfg, w, ops).Some? && Extends(Returns(cfg, w, ops).value.0.nodes, r.nodes)
    requires SameCursors(r.handles, w.handles) && w.handles[ops[0].0] in w.handles && r.handles[ops[0].0] in r.handles
    requires w.handles[ops[0].0].cursor in w.nodes && r.handles[ops[0].0].cursor in r.nodes
    requires WellFormed(cfg.enc, w.nodes) && WellFormed(cfg.enc, r.nodes)
    requires WorldValid(cfg.enc, Move(cfg, w, ops[0].0, ops[0].1))
    requires WorldValid(cfg.enc, Move(cfg.(mode := Mode.Replay), r, ops[0].0, ops[0].1))
    requires
      var (i, op) := ops[0];
      && Perform(cfg, w.nodes, w.handles[i], op).after.ended.Returned?
      && Follows(r.nodes, Perform(cfg, w.nodes, w.handles[i], op),
                 Perform(cfg.(mode := Mode.Replay), r.nodes, r.handles[i], op), op.Call?)
    ensures Simulates(ops, Returns(cfg, w, ops).value, r.nodes, Returns(cfg.(mode := Mode.Replay), r, ops))
    decreases |ops|, 0
  {
    hide WorldValid, Perform, Extends, Simulates, SameRecord, WellFormed;
    var strict := cfg.(mode := Mode.Replay);
    var (i, op) := ops[0];
    var recorded, replayed := Perform(cfg, w.nodes, w.handles[i], op), Perform(strict, r.nodes, r.handles[i], op);
    var n := recorded.after.ended.node;
    var w1, r1 := Move(cfg, w, i, op), Move(strict, r, i, op);
    var rest := Returns(cfg, w1, ops[1..]).value;
    ReturnsGrown(cfg, w1, ops[1..]);
    if replayed.after.ended.Returned? {
      MoveSameCursors(r.handles, w.handles, i, replayed.after.handle, recorded.after.handle,
                      replayed.child, recorded.child);
      StrictReplaySimulates(cfg, w1, ops[1..], r1);
      SimulatesCons(ops, n, rest, r.nodes, Some(replayed.after.ended.node), Returns(strict, r1, ops[1..]));
    } else {
      SimulatesFailure(ops, n, rest, r.nodes);
    }
  }

  // ---------------------------------------------------------------- recordings that replay

  /** Every stored call has a result. */
  ghost predicate CallsAnswered(m: Nodes) {
    forall x | x in m && IsCallKind(m[x].kind) :: m[x].result.Some?
  }

  /** A put keeps the calls answered unless it brings a call without a result. */
  lemma PutAnswered(enc: Encoding, m: Nodes, n: Node)
    requires CallsAnswered(m) && Put(enc, m, n).Ok? && (IsCallKind(n.kind) ==> n.result.Some?)
    ensures
      var m' := Put(enc, m, n).value;
      CallsAnswered(m') && n.id in m' && m'[n.id].kind == n.kind
  {
  }

  ghost predicate KeepsAnswered(a: After, call: bool) {
    CallsAnswered(a.nodes) && (call && a.ended.Returned? ==> a.ended.node.result.Some?)
  }

  lemma RefusingAnswered(cfg: Config, m: Nodes, h: Handle, payload: Dict, now: string, log: seq<ArbiterCall>)
    requires CallsAnswered(m)
    ensures KeepsAnswered(Refusing(cfg, m, h, payload, now, log), true)
  {
    hide CallsAnswered, Put;
    var n := cfg.enc.Make(Refusal, Some(h.cursor), 0, payload, None, Created(now));
    if Put(cfg.enc, m, n).Ok? { PutAnswered(cfg.enc, m, n); }
  }

  lemma RecordingAnswered(cfg: Config, m: Nodes, h: Handle, n: Node)
    requires WellFormed(cfg.enc, m) && CallsAnswered(m) && (IsCallKind(n.kind) ==> n.result.Some?)
    ensures match Recording(cfg, m, h, n)
      case None => true
      case Some(done) => CallsAnswered(done.0) && n.id in done.0 && done.0[n.id].kind == n.kind
  {
    hide WellFormed, CallsAnswered, Put, SettledScopes;
    if Put(cfg.enc, m, n).Ok? { PutAnswered(cfg.enc, m, n); }
  }

  lemma DispatchAnswered(cfg: Config, m: Nodes, h: Handle, c: Invocation, p: Pass)
    requires WellFormed(cfg.enc, m) && CallsAnswered(m)
    ensures KeepsAnswered(Dispatch(cfg, m, h, c, p), true)
  {
    hide WellFormed, Recording, CallMeta, ChargesFor, FailureMeta, EstimatedCharges, ExitOf;
    match ExitOf(c.script, p.rid) {
      case Abandoned =>
      case Unsure(tag, fault) => RecordingAnswered(cfg, m, h, FailureNode(cfg, h.cursor, c, p, tag, fault));
      case Completed(result) => RecordingAnswered(cfg, m, h, CallNode(cfg, h.cursor, c, p, result));
    }
  }

  lemma CallAnswered(cfg: Config, m: Nodes, h: Handle, c: Invocation)
    requires WellFormed(cfg.enc, m) && h.cursor in m && CallsAnswered(m)
    ensures KeepsAnswered(CallOutcome(cfg, m, h, c), true)
  {
    hide WellFormed, Precheck, Dispatch, Refusing, IsForest, RejectedPayload, CallsAnswered;
    CallNeedsForest(cfg, m);
    if FindRecorded(cfg, m, h.cursor, c) == Live {
      match Precheck(cfg, m, h, c.kind, c.payload) {
        case Blocked(refusal) => RefusingAnswered(cfg, m, h, refusal, c.script.now, []);
        case Raised =>
        case Clear(estimates, approximate) =>
          DispatchAnswered(cfg, m, h, c, Pass(estimates, None));
          DispatchAnswered(cfg, m, h, c, Pass(estimates, Some(c.script.reservationId)));
          if c.script.answer.Rejected? {
            var rejected := RejectedPayload(cfg, c.kind, c.payload, c.script.answer, approximate);
            RefusingAnswered(cfg, m, h, rejected, c.script.now, [Reserve(c.script.reservationId, false)]);
          }
      }
    }
  }

  lemma NoteAnswered(cfg: Config, m: Nodes, h: Handle, payload: Dict, attempt: nat, now: string)
    requires IsForest(m) && h.cursor in m && CallsAnswered(m)
    ensures CallsAnswered(PlaceNote(cfg, m, h, payload, attempt, now).nodes)
  {
    hide IsForest, Precheck, Refusing, CallsAnswered, Put;
    var checked := if cfg.mode == Mode.Record then Precheck(cfg, m, h, Note, payload) else Clear([], {});
    if checked.Blocked? {
      RefusingAnswered(cfg, m, h, checked.payload, now, []);
    } else if checked.Clear? {
      var n := NoteNode(cfg, h.cursor, payload, attempt, now);
      if Put(cfg.enc, m, n).Ok? { PutAnswered(cfg.enc, m, n); }
    }
  }

  /** Every operation keeps all stored calls answered, and a call returns only a node with a result. */
  lemma OperationAnswered(cfg: Config, m: Nodes, h: Handle, op: Op)
    requires WellFormed(cfg.enc, m) && h.cursor in m && CallsAnswered(m)
    ensures KeepsAnswered(Perform(cfg, m, h, op).after, op.Call?)
  {
    hide WellFormed, IsForest, CallOutcome, PlaceNote, CallsAnswered, IsAncestor, Climb;
    CallNeedsForest(cfg, m);
    match op {
      case Call(c) => CallAnswered(cfg, m, h, c);
      case WriteNote(payload, attempt, now) => NoteAnswered(cfg, m, h, payload, attempt, now);
      case Branch(attempt, budget, now) => NoteAnswered(cfg, m, h, BRANCH_PAYLOAD, attempt, now);
      case Rollback(target, steps) =>
    }
  }

  /** A recording that starts with all stored calls answered returns a result for every call. */
  lemma {:induction false} AnsweredRecording(cfg: Config, w: World, ops: Ops)
    requires WorldValid(cfg.enc, w) && CallsAnswered(w.nodes) && Returns(cfg, w, ops).Some?
    ensures |Returns(cfg, w, ops).value.1| == |ops| && CallsHaveResults(ops, Returns(cfg, w, ops).value.1)
    ensures CallsAnswered(Returns(cfg, w, ops).value.0.nodes)
    decreases |ops|
  {
    hide WorldValid, Perform, CallsAnswered, CallsHaveResults;
    if ops == [] {
      NothingReturned();
    } else {
      var (i, op) := ops[0];
      WorldExtends(cfg.enc, w);
      var h := w.handles[i];
      assert h in w.handles;
      NextValid(cfg, w, By(i, op));
      OperationAnswered(cfg, w.nodes, h, op);
      var w1 := Move(cfg, w, i, op);
      AnsweredRecording(cfg, w1, ops[1..]);
      ResultsCons(ops, Perform(cfg, w.nodes, h, op).after.ended.node, Returns(cfg, w1, ops[1..]).value.1);
    }
  }

  lemma NothingReturned()
    ensures CallsHaveResults([], [])
  {
  }

  /** A run recorded on a store whose calls all have results replays in full on the store it left, or on any store
      grown from that. */
  lemma AnsweredReplays(cfg: Config, w: World, ops: Ops, r: World)
    requires cfg.mode == Mode.Record && WorldValid(cfg.enc, w) && WorldValid(cfg.enc, r) && CallsAnswered(w.nodes)
    requires Returns(cfg, w, ops).Some? && Extends(Returns(cfg, w, ops).value.0.nodes, r.nodes)
    requires SameCursors(r.handles, w.handles)
    ensures
      var replayed := Returns(cfg.(mode := Mode.Replay), r, ops);
      && replayed.Some? && replayed.value.0.nodes == r.nodes
      && SameCursors(replayed.value.0.handles, Returns(cfg, w, ops).value.0.handles)
      && SameRecords(replayed.value.1, Returns(cfg, w, ops).value.1)
  {
    hide WorldValid, CallsAnswered, CallsHaveResults, Returns, Extends;
    AnsweredRecording(cfg, w, ops);
    StrictReplaySimulates(cfg, w, ops, r);
  }

  // ---------------------------------------------------------------- what a recording, and its replay, return

  /** What the step of the first call in the sequence with that id gave. */
  ghost function FirstAnswer(ops: Ops, nodes: seq<Node>, id: Id): Option<Json>
    requires |nodes| == |ops|
  {
    if ops == [] then None
    else if ops[0].1.Call? && nodes[0].id == id then
      match ops[0].1.call.script.step case Gave(result) => Some(result) case Threw(_) => None
    else FirstAnswer(ops[1..], nodes[1..], id)
  }

  /** The node of a call has the result stored before the sequence, or what the first step for it gave. */
  ghost predicate Answers(m: Nodes, ops: Ops, nodes: seq<Node>, n: Node)
    requires |nodes| == |ops|
  {
    && IsCallKind(n.kind)
    && if n.id in m then n == m[n.id].(meta := n.meta)
       else FirstAnswer(ops, nodes, n.id).Some? && n.result == FirstAnswer(ops, nodes, n.id)
  }

  ghost predicate AllAnswer(m: Nodes, ops: Ops, nodes: seq<Node>)
    requires |nodes| == |ops|
  {
    forall i | 0 <= i < |ops| && ops[i].1.Call? :: Answers(m, ops, nodes, nodes[i])
  }

  /** A returned operation adds its own node at most; only a call adds a call node. */
  ghost predicate AddsOwn(m: Nodes, a: After, call: bool) {
    a.ended.Returned? ==>
      && a.ended.node.id in a.nodes && a.nodes[a.ended.node.id] == a.ended.node
      && (forall x | x in a.nodes && x !in m :: x == a.ended.node.id && (!call ==> !IsCallKind(a.nodes[x].kind)))
  }

  lemma NoteAddsOwn(cfg: Config, m: Nodes, h: Handle, payload: Dict, attempt: nat, now: string)
    requires WellFormed(cfg.enc, m) && IsForest(m) && h.cursor in m
    ensures AddsOwn(m, PlaceNote(cfg, m, h, payload, attempt, now), false)
  {
    hide WellFormed, IsForest, Precheck, Refusing, Put;
    NoteReturns(cfg, m, h, payload, attempt, now);
    var checked := if cfg.mode == Mode.Record then Precheck(cfg, m, h, Note, payload) else Clear([], {});
    if checked.Blocked? {
      NotReturned(cfg, m, h, checked.payload, now, []);
    } else if checked.Clear? {
      var n := NoteNode(cfg, h.cursor, payload, attempt, now);
      if Put(cfg.enc, m, n).Ok? { PutAnswer(cfg.enc, m, n); }
    }
  }

  lemma OperationAddsOwn(cfg: Config, m: Nodes, h: Handle, op: Op)
    requires WellFormed(cfg.enc, m) && h.cursor in m && cfg.mode == Mode.Record
    ensures AddsOwn(m, Perform(cfg, m, h, op).after, op.Call?)
  {
    hide WellFormed, IsForest, CallOutcome, PlaceNote, IsAncestor, Climb;
    CallNeedsForest(cfg, m);
    match op {
      case Call(c) => CallAnswer(cfg, m, h, c);
      case WriteNote(payload, attempt, now) => NoteAddsOwn(cfg, m, h, payload, attempt, now);
      case Branch(attempt, budget, now) => NoteAddsOwn(cfg, m, h, BRANCH_PAYLOAD, attempt, now);
      case Rollback(target, steps) => RollBackGrown(cfg, m, h, target, steps);
    }
  }

  /** The first operation answers for itself. */
  lemma FirstAnswers(cfg: Config, m: Nodes, h: Handle, c: Invocation, rest: Ops, nodes: seq<Node>, i: nat)
    requires WellFormed(cfg.enc, m) && h.cursor in m && cfg.mode == Mode.Record && |nodes| == |rest|
    requires CallOutcome(cfg, m, h, c).ended.Returned?
    ensures
      var n := CallOutcome(cfg, m, h, c).ended.node;
      Answers(m, [(i, Call(c))] + rest, [n] + nodes, n)
  {
    hide WellFormed, CallOutcome;
    CallAnswer(cfg, m, h, c);
  }

  /** A later call answers for the whole sequence as it does for the rest. */
  lemma LaterAnswers(m: Nodes, a: After, op: (nat, Op), rest: Ops, nodes: seq<Node>, n: Node)
    requires a.ended.Returned? && AddsOwn(m, a, op.1.Call?) && Extends(m, a.nodes) && |nodes| == |rest|
    requires op.1.Call? && a.ended.node.id !in m ==>
      op.1.call.script.step.Gave? && a.ended.node.result == Some(op.1.call.script.step.result)
    requires Answers(a.nodes, rest, nodes, n)
    ensures Answers(m, [op] + rest, [a.ended.node] + nodes, n)
  {
    var ops, all := [op] + rest, [a.ended.node] + nodes;
    assert ops[0] == op && ops[1..] == rest && all[0] == a.ended.node && all[1..] == nodes;
    if n.id in m { assert a.nodes[n.id] == m[n.id].(meta := a.nodes[n.id].meta); }
  }

  /** Every call a recording returns has the result its id had before, or what the first step for that id gave. */
  lemma {:induction false} RecordedAnswers(cfg: Config, w: World, ops: Ops)
    requires cfg.mode == Mode.Record && WorldValid(cfg.enc, w) && Returns(cfg, w, ops).Some?
    ensures |Returns(cfg, w, ops).value.1| == |ops| && AllAnswer(w.nodes, ops, Returns(cfg, w, ops).value.1)
    decreases |ops|
  {
    hide WorldValid, Perform, Answers, Extends, AddsOwn, WellFormed;
    if ops != [] {
      var (i, op) := ops[0];
      WorldExtends(cfg.enc, w);
      var h := w.handles[i];
      assert h in w.handles;
      NextValid(cfg, w, By(i, op));
      var a, w1 := Perform(cfg, w.nodes, h, op).after, Move(cfg, w, i, op);
      RecordedAnswers(cfg, w1, ops[1..]);
      var rest := Returns(cfg, w1, ops[1..]).value.1;
      OperationAddsOwn(cfg, w.nodes, h, op);
      CallGave(cfg, w.nodes, h, op, ops[1..], rest, i);
      assert ops == [(i, op)] + ops[1..];
      forall j | 0 <= j < |ops| && ops[j].1.Call?
        ensures Answers(w.nodes, ops, [a.ended.node] + rest, ([a.ended.node] + rest)[j])
      {
        if j > 0 {
          assert ops[1..][j - 1] == ops[j];
          LaterAnswers(w.nodes, a, (i, op), ops[1..], rest, rest[j - 1]);
        }
      }
    }
  }

  lemma CallGave(cfg: Config, m: Nodes, h: Handle, op: Op, rest: Ops, nodes: seq<Node>, i: nat)
    requires WellFormed(cfg.enc, m) && h.cursor in m && cfg.mode == Mode.Record && |nodes| == |rest|
    requires Perform(cfg, m, h, op).after.ended.Returned?
    ensures
      var n := Perform(cfg, m, h, op).after.ended.node;
      op.Call? ==>
        && Answers(m, [(i, op)] + rest, [n] + nodes, n)
        && (n.id !in m ==> op.call.script.step.Gave? && n.result == Some(op.call.script.step.result))
  {
    hide WellFormed, CallOutcome, PlaceNote, RollBack, IsForest, Answers;
    if op.Call? {
      CallAnswer(cfg, m, h, op.call);
      FirstAnswers(cfg, m, h, op.call, rest, nodes, i);
    }
  }

  /** In particular every fresh run that was recorded without a failing operation replays in full, handle for handle,
      on its own store, and a replayed call gives what the first step for it gave. */
  lemma FreshRunReplays(cfg: Config, name: string, attempt: nat, limits: Limits, ops: Ops)
    requires cfg.mode == Mode.Record
    requires Returns(cfg, FreshWorld(cfg.enc, name, attempt, limits), ops).Some?
    ensures
      var w := FreshWorld(cfg.enc, name, attempt, limits);
      var recorded := Returns(cfg, w, ops).value;
      var r := World(recorded.0.nodes, w.handles);
      && WorldValid(cfg.enc, r)
      && var replayed := Returns(cfg.(mode := Mode.Replay), r, ops);
      && replayed.Some? && replayed.value.0.nodes == r.nodes
      && SameCursors(replayed.value.0.handles, recorded.0.handles) && SameRecords(replayed.value.1, recorded.1)
      && |recorded.1| == |replayed.value.1| == |ops|
      && forall i | 0 <= i < |ops| && ops[i].1.Call? ::
           var answer := FirstAnswer(ops, recorded.1, recorded.1[i].id);
           answer.Some? && replayed.value.1[i].result == answer
  {
    hide WorldValid, Returns, Extends, FirstAnswer;
    var w := FreshWorld(cfg.enc, name, attempt, limits);
    var recorded := Returns(cfg, w, ops).value;
    var r := World(recorded.0.nodes, w.handles);
    ReturnsGrown(cfg, w, ops);
    HandlesStay(cfg.enc, w, recorded.0);
    ExtendsItself(cfg.enc, recorded.0.nodes);
    AnsweredReplays(cfg, w, ops, r);
    RecordedAnswers(cfg, w, ops);
    forall i | 0 <= i < |ops| && ops[i].1.Call? ensures recorded.1[i].id !in w.nodes {
      NotTheRoot(cfg.enc, name, attempt, limits, ops, recorded.1, i);
    }
  }

  lemma NotTheRoot(enc: Encoding, name: string, attempt: nat, limits: Limits, ops: Ops, nodes: seq<Node>, i: nat)
    requires |nodes| == |ops| && i < |ops| && ops[i].1.Call?
    requires AllAnswer(FreshWorld(enc, name, attempt, limits).nodes, ops, nodes)
    ensures nodes[i].id !in FreshWorld(enc, name, attempt, limits).nodes
  {
    hide FirstAnswer;
    assert Answers(FreshWorld(enc, name, attempt, limits).nodes, ops, nodes, nodes[i]);
  }

  lemma HandlesStay(enc: Encoding, w: World, w': World)
    requires WorldValid(enc, w) && WorldValid(enc, w') && Extends(w.nodes, w'.nodes)
    ensures WorldValid(enc, World(w'.nodes, w.handles)) && WellFormed(enc, w'.nodes)
  {
    hide WellFormed, Extends, HandleIn;
    forall h | h in w.handles ensures HandleIn(w'.nodes, h) { HandleStays(w.nodes, w'.nodes, h); }
  }

  // ---------------------------------------------------------------- when replay misses a recording

  /** A call that gives 1, with nothing going wrong. */
  const PLAIN := Script("", map[], Granted, "", "", Gave(Num(1)), None, None, None, None, None, None)

  function PlainCall(payload: Dict): Invocation {
    Invocation(ModelCall, payload, 0, PLAIN)
  }

  lemma PlainClear(cfg: Config, m: Nodes, h: Handle, kind: Kind, payload: Dict)
    requires IsForest(m) && h.cursor in m && cfg.meters == [] && h.scopes == []
    ensures Precheck(cfg, m, h, kind, payload).Clear?
  {
  }

  lemma PlainDispatch(cfg: Config, m: Nodes, h: Handle, payload: Dict, estimates: Estimates)
    requires WellFormed(cfg.enc, m) && cfg.enc.InjectiveIds() && h.cursor in m
    requires
      var id := CallId(cfg, h.cursor, PlainCall(payload));
      id in m && m[id].result == None && "result_conflicts" !in m[id].meta
    ensures
      var a := Dispatch(cfg, m, h, PlainCall(payload), Pass(estimates, None));
      a.ended.Returned? && a.ended.node.result == None
  {
    hide WellFormed, CallMeta, ChargesFor, SettledScopes, Unknown, SameIdentity;
    PutSucceeds(cfg.enc, m, CallNode(cfg, h.cursor, PlainCall(payload), Pass(estimates, None), Num(1)));
  }

  /** A call already stored without a result returns in record mode without one, and cannot be replayed. */
  lemma ResultlessCallNotReplayed(cfg: Config, m: Nodes, h: Handle, payload: Dict)
    requires cfg.mode == Mode.Record && !cfg.refuseDuplicates && !cfg.arbitrated && cfg.meters == [] && h.scopes == []
    requires WellFormed(cfg.enc, m) && cfg.enc.InjectiveIds() && h.cursor in m
    requires
      var id := CallId(cfg, h.cursor, PlainCall(payload));
      id in m && m[id].result == None && "result_conflicts" !in m[id].meta
    ensures
      var a := CallOutcome(cfg, m, h, PlainCall(payload));
      a.ended.Returned? && a.ended.node.result == None
    ensures !CallOutcome(cfg.(mode := Mode.Replay), m, h, PlainCall(payload)).ended.Returned?
  {
    hide WellFormed, Precheck, Dispatch, IsForest;
    CallNeedsForest(cfg, m);
    PlainClear(cfg, m, h, ModelCall, payload);
    PlainDispatch(cfg, m, h, payload, Precheck(cfg, m, h, ModelCall, payload).estimates);
  }

  /** Such a store exists: a root with one call below it that never got a result. */
  lemma ReplayCanMiss(enc: Encoding, digest: Dict -> Digest)
    requires enc.InjectiveIds()
    ensures
      var root := enc.Make(Root, None, 0, map["run" := Str("r")], None, map[]);
      var call := enc.Make(ModelCall, Some(root.id), 0, map[], None, map[]);
      var m := map[root.id := root, call.id := call];
      var cfg := Config(enc, [], Mode.Record, false, false, digest);
      && WellFormed(enc, m)
      && CallOutcome(cfg, m, Handle(root.id, []), PlainCall(map[])).ended.Returned?
      && !CallOutcome(cfg.(mode := Mode.Replay), m, Handle(root.id, []), PlainCall(map[])).ended.Returned?
  {
    hide CallOutcome;
    var root := enc.Make(Root, None, 0, map["run" := Str("r")], None, map[]);
    var call := enc.Make(ModelCall, Some(root.id), 0, map[], None, map[]);
    var m := map[root.id := root, call.id := call];
    TwoNodeForest(enc, root, call);
    ResultlessCallNotReplayed(Config(enc, [], Mode.Record, false, false, digest), m, Handle(root.id, []), map[]);
  }

  lemma TwoNodeForest(enc: Encoding, root: Node, child: Node)
    requires root.id != child.id && root.parent == None && child.parent == Some(root.id)
    requires enc.ValidForPut(root) && enc.ValidForPut(child)
    ensures WellFormed(enc, map[root.id := root, child.id := child])
  {
    assert Heights(map[root.id := root, child.id := child], map[root.id := 1, child.id := 0]);
  }
}

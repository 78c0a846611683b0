/** The operations of a run, and worlds of several handles over one store. */
module Operations {
  import opened JsonValue
  import opened Forest
  import opened Store
  import opened Governor
  import opened Lifecycle

  /** `Rollback` goes to a given node, or up a number of steps. */
  datatype Op =
    | Call(call: Invocation)
    | WriteNote(payload: Dict, attempt: nat, now: string)
    | Branch(attempt: nat, budget: Option<Limits>, now: string)
    | Rollback(target: Option<Id>, steps: nat)

  const BRANCH_PAYLOAD: Dict := map["branch" := Bool(true)]

  /** `Runtime._put`: in replay the node is read, never written. */
  function Place(cfg: Config, m: Nodes, n: Node): Option<Nodes> {
    match cfg.mode
    case Record => (match Put(cfg.enc, m, n) case Ok(m') => Some(m') case Err(_) => None)
    case Replay => if n.id in m then Some(m) else None
  }

  function NoteNode(cfg: Config, cursor: Id, payload: Dict, attempt: nat, now: string): Node {
    cfg.enc.Make(Note, Some(cursor), attempt, payload, None, Created(now))
  }

  /** The common part of `note` and `branch`: the note placed below the cursor. */
  ghost function PlaceNote(cfg: Config, m: Nodes, h: Handle, payload: Dict, attempt: nat, now: string): After
    requires IsForest(m) && h.cursor in m
  {
    var checked := if cfg.mode == Record then Precheck(cfg, m, h, Note, payload) else Clear([], {});
    if checked.Blocked? then Refusing(cfg, m, h, checked.payload, now, [])
    else if checked.Raised? then After(m, h, Failed, [], None)
    else
      var n := NoteNode(cfg, h.cursor, payload, attempt, now);
      match Place(cfg, m, n)
      case None => After(m, h, Failed, [], None)
      case Some(m') => After(m', h.(cursor := n.id), Returned(m'[n.id]), [], None)
  }

  function ChildScopes(scopes: seq<Scope>, budget: Option<Limits>, anchor: Id): seq<Scope> {
    scopes + if budget.Some? then [Scope(budget.value, anchor, {})] else []
  }

  /** `steps` parents up, stopping at the root. */
  function Climb(m: Nodes, x: Id, steps: nat): Id
    requires x in m
    decreases steps
  {
    if steps == 0 || m[x].parent == None || m[x].parent.value !in m then x else Climb(m, m[x].parent.value, steps - 1)
  }

  /** A rollback only ever goes to an ancestor of the cursor. */
  ghost function RollBack(m: Nodes, h: Handle, target: Option<Id>, steps: nat): After
    requires IsForest(m) && h.cursor in m
  {
    var to := if target.Some? then target.value else Climb(m, h.cursor, steps);
    if IsAncestor(m, to, h.cursor) then
      AncestorIn(m, to, h.cursor);
      After(m, h.(cursor := to), Returned(m[to]), [], None)
    else After(m, h, Failed, [], None)
  }

  datatype Step = Step(after: After, child: Option<Handle>)

  ghost function Perform(cfg: Config, m: Nodes, h: Handle, op: Op): Step
    requires WellFormed(cfg.enc, m) && h.cursor in m
  {
    match op
    case Call(c) => Step(CallOutcome(cfg, m, h, c), None)
    case WriteNote(payload, attempt, now) => Step(PlaceNote(cfg, m, h, payload, attempt, now), None)
    case Rollback(target, steps) => Step(RollBack(m, h, target, steps), None)
    case Branch(attempt, budget, now) =>
      var placed := PlaceNote(cfg, m, h, BRANCH_PAYLOAD, attempt, now);
      if !placed.ended.Returned? then Step(placed, None)
      else
        var anchor := placed.ended.node.id;
        Step(placed.(handle := h), Some(Handle(anchor, ChildScopes(h.scopes, budget, anchor))))
  }

  // ---------------------------------------------------------------- worlds

  /** A store with every handle of a run on it. */
  datatype World = World(nodes: Nodes, handles: seq<Handle>)

  /** Cursors and budget anchors are in the store. */
  ghost predicate HandleIn(m: Nodes, h: Handle) {
    h.cursor in m && Anchored(m, h.scopes)
  }

  ghost predicate WorldValid(enc: Encoding, w: World) {
    && WellFormed(enc, w.nodes)
    && forall h | h in w.handles :: HandleIn(w.nodes, h)
  }

  function Kept(h: Option<Handle>): seq<Handle> {
    if h.Some? then [h.value] else []
  }

  /** One operation on handle `i`; a branch adds its handle at the end. */
  ghost function Move(cfg: Config, w: World, i: nat, op: Op): World
    requires WorldValid(cfg.enc, w) && i < |w.handles|
  {
    var step := (assert w.handles[i] in w.handles; Perform(cfg, w.nodes, w.handles[i], op));
    World(step.after.nodes, w.handles[i := step.after.handle] + Kept(step.child))
  }

  // ---------------------------------------------------------------- what every operation keeps

  /** The store stays well formed and only grows, and what it returns or moves to is in it. */
  ghost predicate Grown(enc: Encoding, m: Nodes, a: After) {
    && WellFormed(enc, a.nodes) && Extends(m, a.nodes)
    && a.handle.cursor in a.nodes
    && (a.ended.Returned? ==> a.ended.node.id in a.nodes && a.nodes[a.ended.node.id] == a.ended.node)
  }

  lemma StillGrown(enc: Encoding, m: Nodes, h: Handle, log: seq<ArbiterCall>, built: Option<Node>)
    requires WellFormed(enc, m) && h.cursor in m
    ensures Grown(enc, m, After(m, h, Failed, log, built))
  {
    hide WellFormed;
  }

  lemma PutGrown(enc: Encoding, m: Nodes, n: Node)
    requires WellFormed(enc, m) && Put(enc, m, n).Ok?
    ensures
      var m' := Put(enc, m, n).value;
      WellFormed(enc, m') && Extends(m, m') && n.id in m' && m'[n.id].id == n.id
  {
    PutWellFormed(enc, m, n);
    PutExtends(enc, m, n);
  }

  lemma RefusingGrown(cfg: Config, m: Nodes, h: Handle, payload: Dict, now: string, log: seq<ArbiterCall>)
    requires WellFormed(cfg.enc, m) && h.cursor in m
    ensures Grown(cfg.enc, m, Refusing(cfg, m, h, payload, now, log))
  {
    hide WellFormed, Put, Extends;
    var n := cfg.enc.Make(Refusal, Some(h.cursor), 0, payload, None, Created(now));
    StillGrown(cfg.enc, m, h, log, None);
    if Put(cfg.enc, m, n).Ok? { PutGrown(cfg.enc, m, n); }
  }

  lemma RecordingGrown(cfg: Config, m: Nodes, h: Handle, n: Node)
    requires WellFormed(cfg.enc, m)
    ensures match Recording(cfg, m, h, n)
      case None => true
      case Some(done) =>
        && WellFormed(cfg.enc, done.0) && Extends(m, done.0)
        && n.id in done.0 && done.0[n.id].id == n.id && done.1.cursor == n.id
  {
    hide WellFormed, Put, Extends;
    if Put(cfg.enc, m, n).Ok? { PutGrown(cfg.enc, m, n); }
  }

  lemma UnknownGrown(cfg: Config, m: Nodes, h: Handle, c: Invocation, p: Pass, tag: Label, fault: Fault)
    requires WellFormed(cfg.enc, m) && h.cursor in m
    ensures Grown(cfg.enc, m, Unknown(cfg, m, h, c, p, tag, fault))
  {
    hide WellFormed, Recording, FailureNode, Extends, EstimatedCharges;
    var n := FailureNode(cfg, h.cursor, c, p, tag, fault);
    StillGrown(cfg.enc, m, h, SettleEvents(p.rid, EstimatedCharges(p.estimates)), Some(n));
    RecordingGrown(cfg, m, h, n);
  }

  lemma CompleteGrown(cfg: Config, m: Nodes, h: Handle, c: Invocation, p: Pass, result: Json)
    requires WellFormed(cfg.enc, m) && h.cursor in m
    ensures Grown(cfg.enc, m, Complete(cfg, m, h, c, p, result))
  {
    hide WellFormed, Recording, CallNode, ChargesFor, Extends;
    var n := CallNode(cfg, h.cursor, c, p, result);
    StillGrown(cfg.enc, m, h, SettleEvents(p.rid, ChargesFor(cfg, c, p, result).amounts), Some(n));
    RecordingGrown(cfg, m, h, n);
  }

  lemma DispatchGrown(cfg: Config, m: Nodes, h: Handle, c: Invocation, p: Pass)
    requires WellFormed(cfg.enc, m) && h.cursor in m
    ensures Grown(cfg.enc, m, Dispatch(cfg, m, h, c, p))
  {
    hide WellFormed, Unknown, Complete, Grown, ExitOf;
    match ExitOf(c.script, p.rid) {
      case Abandoned => StillGrown(cfg.enc, m, h, ReleaseEvents(p.rid), None);
      case Unsure(tag, fault) => UnknownGrown(cfg, m, h, c, p, tag, fault);
      case Completed(result) => CompleteGrown(cfg, m, h, c, p, result);
    }
  }

  lemma CallGrown(cfg: Config, m: Nodes, h: Handle, c: Invocation)
    requires WellFormed(cfg.enc, m) && h.cursor in m
    ensures Grown(cfg.enc, m, CallOutcome(cfg, m, h, c))
  {
    hide WellFormed, Dispatch, Refusing, Precheck, IsForest, Extends, FindRecorded, RejectedPayload;
    CallNeedsForest(cfg, m);
    StillGrown(cfg.enc, m, h, [], None);
    FoundInStore(cfg, m, h.cursor, c);
    if FindRecorded(cfg, m, h.cursor, c).Live? {
      match Precheck(cfg, m, h, c.kind, c.payload) {
        case Blocked(refusal) => RefusingGrown(cfg, m, h, refusal, c.script.now, []);
        case Raised =>
        case Clear(estimates, approximate) =>
          DispatchGrown(cfg, m, h, c, Pass(estimates, None));
          DispatchGrown(cfg, m, h, c, Pass(estimates, Some(c.script.reservationId)));
          if c.script.answer.Rejected? {
            var rejected := RejectedPayload(cfg, c.kind, c.payload, c.script.answer, approximate);
            RefusingGrown(cfg, m, h, rejected, c.script.now, [Reserve(c.script.reservationId, false)]);
          }
      }
    }
  }

  lemma FoundInStore(cfg: Config, m: Nodes, cursor: Id, c: Invocation)
    requires WellFormed(cfg.enc, m)
    ensures match FindRecorded(cfg, m, cursor, c)
      case Recorded(n) => n.id == CallId(cfg, cursor, c) && n.id in m && m[n.id] == n
      case _ => true
  {
  }

  lemma NoteGrown(cfg: Config, m: Nodes, h: Handle, payload: Dict, attempt: nat, now: string)
    requires WellFormed(cfg.enc, m) && IsForest(m) && h.cursor in m
    ensures Grown(cfg.enc, m, PlaceNote(cfg, m, h, payload, attempt, now))
    ensures
      var a := PlaceNote(cfg, m, h, payload, attempt, now);
      a.ended.Returned? ==> a.handle == h.(cursor := a.ended.node.id)
  {
    hide WellFormed, Refusing, Precheck, IsForest, Put, Extends;
    StillGrown(cfg.enc, m, h, [], None);
    var checked := if cfg.mode == Record then Precheck(cfg, m, h, Note, payload) else Clear([], {});
    if checked.Blocked? {
      RefusingGrown(cfg, m, h, checked.payload, now, []);
      NotReturned(cfg, m, h, checked.payload, now, []);
    } else if checked.Clear? {
      var n := NoteNode(cfg, h.cursor, payload, attempt, now);
      if Put(cfg.enc, m, n).Ok? { PutGrown(cfg.enc, m, n); }
      ExtendsItself(cfg.enc, m);
    }
  }

  lemma NotReturned(cfg: Config, m: Nodes, h: Handle, payload: Dict, now: string, log: seq<ArbiterCall>)
    ensures !Refusing(cfg, m, h, payload, now, log).ended.Returned?
  {
  }

  lemma ExtendsItself(enc: Encoding, m: Nodes)
    requires WellFormed(enc, m)
    ensures Extends(m, m) && forall x | x in m :: m[x].id == x
  {
  }

  lemma RollBackGrown(cfg: Config, m: Nodes, h: Handle, target: Option<Id>, steps: nat)
    requires WellFormed(cfg.enc, m) && IsForest(m) && h.cursor in m
    ensures Grown(cfg.enc, m, RollBack(m, h, target, steps))
  {
    hide WellFormed, IsForest, IsAncestor, Climb, Extends;
    StillGrown(cfg.enc, m, h, [], None);
    ExtendsItself(cfg.enc, m);
    var to := if target.Some? then target.value else Climb(m, h.cursor, steps);
    if IsAncestor(m, to, h.cursor) { AncestorIn(m, to, h.cursor); }
  }

  /** Every operation keeps the store well formed, loses nothing, and leaves the cursor on a stored node. */
  lemma PerformGrown(cfg: Config, m: Nodes, h: Handle, op: Op)
    requires WellFormed(cfg.enc, m) && h.cursor in m
    ensures
      var step := Perform(cfg, m, h, op);
      Grown(cfg.enc, m, step.after) && (step.child.Some? ==> step.child.value.cursor in step.after.nodes)
  {
    hide WellFormed, IsForest, CallOutcome, PlaceNote, RollBack, Extends;
    CallNeedsForest(cfg, m);
    match op {
      case Call(c) => CallGrown(cfg, m, h, c);
      case WriteNote(payload, attempt, now) => NoteGrown(cfg, m, h, payload, attempt, now);
      case Rollback(target, steps) => RollBackGrown(cfg, m, h, target, steps);
      case Branch(attempt, budget, now) =>
        NoteGrown(cfg, m, h, BRANCH_PAYLOAD, attempt, now);
        CursorStays(m, PlaceNote(cfg, m, h, BRANCH_PAYLOAD, attempt, now).nodes, h);
    }
  }

  lemma CursorStays(m: Nodes, m': Nodes, h: Handle)
    requires h.cursor in m
    ensures Extends(m, m') ==> h.cursor in m'
  {
  }

  // ---------------------------------------------------------------- refusals

  ghost predicate RefusedAt(m: Nodes, h: Handle, a: After) {
    a.ended.Refused? ==>
      && a.handle == h.(cursor := a.ended.id) && a.built == None
      && a.ended.id in a.nodes && a.nodes[a.ended.id].kind == Refusal && a.nodes[a.ended.id].parent == Some(h.cursor)
      && forall x | x in a.nodes && x !in m :: x == a.ended.id
  }

  lemma RefusingMoves(cfg: Config, m: Nodes, h: Handle, payload: Dict, now: string, log: seq<ArbiterCall>)
    ensures RefusedAt(m, h, Refusing(cfg, m, h, payload, now, log))
  {
  }

  lemma DispatchNotRefused(cfg: Config, m: Nodes, h: Handle, c: Invocation, p: Pass)
    requires WellFormed(cfg.enc, m)
    ensures !Dispatch(cfg, m, h, c, p).ended.Refused?
  {
    hide WellFormed, Recording, FailureNode, CallNode, ChargesFor, EstimatedCharges, ExitOf;
  }

  /** A refusal is recorded below the cursor, becomes the cursor, builds no call and leaves the scopes alone. */
  lemma RefusalBecomesCursor(cfg: Config, m: Nodes, h: Handle, op: Op)
    requires WellFormed(cfg.enc, m) && h.cursor in m
    ensures RefusedAt(m, h, Perform(cfg, m, h, op).after)
  {
    hide WellFormed, Dispatch, Refusing, Precheck, IsForest, RejectedPayload, IsAncestor, Put;
    CallNeedsForest(cfg, m);
    forall payload, now, log { RefusingMoves(cfg, m, h, payload, now, log); }
    match op {
      case Call(c) =>
        var checked := Precheck(cfg, m, h, c.kind, c.payload);
        if checked.Clear? {
          DispatchNotRefused(cfg, m, h, c, Pass(checked.estimates, None));
          DispatchNotRefused(cfg, m, h, c, Pass(checked.estimates, Some(c.script.reservationId)));
        }
      case _ =>
    }
  }
}

/** Where a rollback and a branch leave a handle, in terms of the tree alone. */
module HandleMoves {
  import opened JsonValue
  import opened Forest
  import opened Store
  import opened Governor
  import opened Lifecycle
  import opened Operations

  // ---------------------------------------------------------------- depth

  ghost function Above(m: Nodes, x: Id): set<Id>
    requires IsForest(m)
  {
    set a | a in m && IsAncestor(m, a, x)
  }

  /** The depth of a node is the number of its proper ancestors. */
  lemma {:induction false} DepthCounts(m: Nodes, x: Id)
    requires IsForest(m) && x in m
    ensures |Above(m, x)| == Depth(m, x) + 1
    decreases Ceiling(Height(m)) - Height(m)[x]
  {
    if m[x].parent == None {
      assert Above(m, x) == {x};
    } else {
      var p := m[x].parent.value;
      DepthCounts(m, p);
      if IsAncestor(m, x, p) { AncestorIn(m, x, p); }
      assert Above(m, x) == Above(m, p) + {x};
    }
  }

  // ---------------------------------------------------------------- rollback

  /** Going up a number of steps reaches the ancestor that many levels higher, or the root. */
  lemma {:induction false} ClimbReaches(m: Nodes, x: Id, steps: nat)
    requires IsForest(m) && x in m
    ensures IsAncestor(m, Climb(m, x, steps), x) && Climb(m, x, steps) in m
    ensures Depth(m, Climb(m, x, steps)) == if steps <= Depth(m, x) then Depth(m, x) - steps else 0
    decreases steps
  {
    if steps > 0 && m[x].parent.Some? { ClimbReaches(m, m[x].parent.value, steps - 1); }
  }

  /** Ancestors of one node are told apart by their depth. */
  lemma {:induction false} DepthDetermines(m: Nodes, a: Id, b: Id, x: Id)
    requires IsForest(m) && IsAncestor(m, a, x) && IsAncestor(m, b, x) && a in m && b in m
    ensures Depth(m, a) == Depth(m, b) ==> a == b
    decreases Ceiling(Height(m)) - Height(m)[x]
  {
    if a == x { HigherIsShallower(m, b, x); }
    else if b == x { HigherIsShallower(m, a, x); }
    else { DepthDetermines(m, a, b, m[x].parent.value); }
  }

  lemma {:induction false} HigherIsShallower(m: Nodes, a: Id, x: Id)
    requires IsForest(m) && IsAncestor(m, a, x) && a in m
    ensures a == x || Depth(m, a) < Depth(m, x)
    decreases Ceiling(Height(m)) - Height(m)[x]
  {
    if a != x { HigherIsShallower(m, a, m[x].parent.value); }
  }

  /** The node a rollback goes to: the target, or the ancestor `steps` levels above the cursor, or the root. */
  ghost predicate GoesTo(m: Nodes, cursor: Id, target: Option<Id>, steps: nat, x: Id)
    requires IsForest(m) && cursor in m
  {
    && x in m && IsAncestor(m, x, cursor)
    && match target
       case Some(t) => x == t
       case None => Depth(m, x) == if steps <= Depth(m, cursor) then Depth(m, cursor) - steps else 0
  }

  /** A rollback moves the cursor to that node and nothing else; it fails only for a target not above the cursor. */
  lemma RollBackExactly(cfg: Config, m: Nodes, h: Handle, target: Option<Id>, steps: nat, x: Id)
    requires WellFormed(cfg.enc, m) && h.cursor in m
    ensures IsForest(m)
    ensures
      var a := Perform(cfg, m, h, Rollback(target, steps)).after;
      && a.nodes == m && a.handle.scopes == h.scopes && a.log == [] && a.built == None
      && (a.ended == Failed <==> target.Some? && !IsAncestor(m, target.value, h.cursor))
      && (a.ended == Failed ==> a.handle == h)
      && ((x in m && a.ended == Returned(m[x]) && a.handle.cursor == x) <==> GoesTo(m, h.cursor, target, steps, x))
  {
    hide WellFormed, IsForest, IsAncestor, Climb, Depth;
    CallNeedsForest(cfg, m);
    ClimbReaches(m, h.cursor, steps);
    var to := if target.Some? then target.value else Climb(m, h.cursor, steps);
    if IsAncestor(m, to, h.cursor) {
      AncestorIn(m, to, h.cursor);
      if x in m && IsAncestor(m, x, h.cursor) { DepthDetermines(m, x, to, h.cursor); }
    }
  }

  // ---------------------------------------------------------------- branch

  /** A branch leaves its handle where it was and starts its child at a new note below, with the same budgets and,
      when it is given one, a fresh budget of its own that counts from that note. */
  lemma BranchScopes(cfg: Config, m: Nodes, h: Handle, attempt: nat, budget: Option<Limits>, now: string)
    requires WellFormed(cfg.enc, m) && h.cursor in m
    ensures
      var step := Perform(cfg, m, h, Branch(attempt, budget, now));
      && (step.child.Some? <==> step.after.ended.Returned?)
      && (step.child.Some? ==>
            var child, note := step.child.value, step.after.ended.node;
            && step.after.handle == h && child.cursor == note.id
            && note.id == cfg.enc.nodeId(Note, Some(h.cursor), attempt, map["branch" := Bool(true)])
            && note.id in step.after.nodes
            && |child.scopes| == |h.scopes| + (if budget.Some? then 1 else 0)
            && (forall i | 0 <= i < |h.scopes| :: child.scopes[i] == h.scopes[i])
            && (budget.Some? ==>
                  var own := child.scopes[|h.scopes|];
                  own.limits == budget.value && own.anchor == note.id && own.exhausted == {}))
  {
    hide WellFormed, IsForest, Precheck, Refusing, Put;
    CallNeedsForest(cfg, m);
    PlacedNote(cfg, m, h, BRANCH_PAYLOAD, attempt, now);
  }

  lemma PlacedNote(cfg: Config, m: Nodes, h: Handle, payload: Dict, attempt: nat, now: string)
    requires WellFormed(cfg.enc, m) && IsForest(m) && h.cursor in m
    ensures
      var a := PlaceNote(cfg, m, h, payload, attempt, now);
      a.ended.Returned? ==>
        && a.ended.node.id == cfg.enc.nodeId(Note, Some(h.cursor), attempt, payload) && a.ended.node.id in a.nodes
  {
    hide WellFormed, IsForest, Precheck, Refusing, Put;
    var n := NoteNode(cfg, h.cursor, payload, attempt, now);
    assert n.id == cfg.enc.nodeId(Note, Some(h.cursor), attempt, payload);
    var checked := if cfg.mode == Mode.Record then Precheck(cfg, m, h, Note, payload) else Clear([], {});
    if checked.Blocked? { NotReturned(cfg, m, h, checked.payload, now, []); }
    if Put(cfg.enc, m, n).Ok? { PutKey(cfg.enc, m, n); }
    if n.id in m { IdsAreKeys(cfg.enc, m); }
  }

  lemma PutKey(enc: Encoding, m: Nodes, n: Node)
    requires WellFormed(enc, m) && Put(enc, m, n).Ok?
    ensures n.id in Put(enc, m, n).value && Put(enc, m, n).value[n.id].id == n.id
  {
    PutWellFormed(enc, m, n);
    IdsAreKeys(enc, Put(enc, m, n).value);
  }

  lemma IdsAreKeys(enc: Encoding, m: Nodes)
    requires WellFormed(enc, m)
    ensures forall x | x in m :: m[x].id == x
  {
  }
}

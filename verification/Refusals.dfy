/** When a run refuses a call, what it records then, and when it writes a note. */
module Refusals {
  import opened JsonValue
  import opened Forest
  import opened Store
  import opened Lifecycle
  import opened Operations
  import opened BudgetCheck

  /** The arbiter turned the call down, and the refusal passes on what it said. */
  predicate TurnedDown(cfg: Config, c: Invocation, refusal: Dict) {
    match c.script.answer
    case Granted => false
    case Rejected(reason, meter, requested, remaining) =>
      && TellsRefusal(cfg, refusal, reason, if meter.Some? then meter.value else "unknown", c.kind, c.payload)
      && TellsNumbers(refusal, Some(cfg.enc.str(Num(requested))), Some(cfg.enc.str(Num(remaining))))
  }

  /** The recorded refusal hangs below the cursor, takes its place, and a new one holds this reason. */
  ghost predicate RecordsRefusal(cfg: Config, m: Nodes, h: Handle, a: After, reason: Dict) {
    && a.ended.Refused? && a.ended.id == cfg.enc.nodeId(Refusal, Some(h.cursor), 0, reason)
    && a.nodes.Keys == m.Keys + {a.ended.id} && a.handle == h.(cursor := a.ended.id)
    && (a.ended.id !in m ==>
          var n := a.nodes[a.ended.id];
          n.payload == reason && n.kind == Refusal && n.parent == Some(h.cursor) && n.attempt == 0 && n.result == None)
  }

  lemma RefusingRecords(cfg: Config, m: Nodes, h: Handle, payload: Dict, now: string, log: seq<ArbiterCall>)
    requires WellFormed(cfg.enc, m) && cfg.enc.InjectiveIds() && h.cursor in m
    ensures RecordsRefusal(cfg, m, h, Refusing(cfg, m, h, payload, now, log), payload)
  {
    hide WellFormed;
    var n := cfg.enc.Make(Refusal, Some(h.cursor), 0, payload, None, Created(now));
    hide Put;
    PutOutcome(cfg.enc, m, n);
    assert n.id in m ==> m.Keys == m.Keys + {n.id};
  }

  /** In record mode a call is refused exactly when it is no refused duplicate and its budgets or the arbiter do not
      let it through; the recorded refusal tells which, truthfully. */
  lemma CallRefusedExactly(cfg: Config, m: Nodes, h: Handle, c: Invocation)
    requires WellFormed(cfg.enc, m) && cfg.enc.InjectiveIds() && h.cursor in m && cfg.mode == Mode.Record
    ensures
      var a, id := CallOutcome(cfg, m, h, c), cfg.enc.nodeId(c.kind, Some(h.cursor), c.attempt, c.payload);
      && IsForest(m)
      && var checked := Precheck(cfg, m, h, c.kind, c.payload);
      && (a.ended.Refused? <==>
          && !(cfg.refuseDuplicates && id in m)
          && (checked.Blocked? || (checked.Clear? && cfg.arbitrated && h.scopes != [] && c.script.answer.Rejected?)))
      && (a.ended.Refused? ==> exists reason ::
            && RecordsRefusal(cfg, m, h, a, reason)
            && if checked.Blocked? then Justified(cfg, m, h, c.kind, c.payload, reason)
               else TurnedDown(cfg, c, reason))
  {
    hide WellFormed, Precheck, Dispatch, Refusing, IsForest, RejectedPayload, RecordsRefusal, Justified;
    CallNeedsForest(cfg, m);
    if FindRecorded(cfg, m, h.cursor, c).Live? {
      match Precheck(cfg, m, h, c.kind, c.payload) {
        case Blocked(refusal) =>
          RefusalTrue(cfg, m, h, c.kind, c.payload);
          RefusingRecords(cfg, m, h, refusal, c.script.now, []);
          IsRefused(cfg, m, h, CallOutcome(cfg, m, h, c), refusal);
        case Raised =>
        case Clear(estimates, approximate) =>
          DispatchNotRefused(cfg, m, h, c, Pass(estimates, None));
          DispatchNotRefused(cfg, m, h, c, Pass(estimates, Some(c.script.reservationId)));
          if c.script.answer.Rejected? {
            var rejected := RejectedPayload(cfg, c.kind, c.payload, c.script.answer, approximate);
            RejectedTells(cfg, c, approximate);
            RefusingRecords(cfg, m, h, rejected, c.script.now, [Reserve(c.script.reservationId, false)]);
            if cfg.arbitrated && h.scopes != [] { IsRefused(cfg, m, h, CallOutcome(cfg, m, h, c), rejected); }
          }
      }
    }
  }

  lemma IsRefused(cfg: Config, m: Nodes, h: Handle, a: After, reason: Dict)
    requires RecordsRefusal(cfg, m, h, a, reason)
    ensures a.ended.Refused?
  {
  }

  lemma RejectedTells(cfg: Config, c: Invocation, approximate: set<string>)
    requires c.script.answer.Rejected?
    ensures TurnedDown(cfg, c, RejectedPayload(cfg, c.kind, c.payload, c.script.answer, approximate))
  {
    hide RefusalPayload, TellsRefusal, TellsNumbers;
    var a := c.script.answer;
    RefusalTells(cfg, c.kind, c.payload, a.reason, if a.meter.Some? then a.meter.value else "unknown",
                 NumberText(cfg, a.requested), NumberText(cfg, a.remaining), None,
                 a.meter.Some? && a.meter.value in approximate);
  }

  /** A note is written exactly when the budgets let it through, and a replay finds it exactly when it is stored; a new
      one holds what it was given, and it becomes the cursor. */
  lemma NoteExactly(cfg: Config, m: Nodes, h: Handle, payload: Dict, attempt: nat, now: string)
    requires WellFormed(cfg.enc, m) && cfg.enc.InjectiveIds() && h.cursor in m
    ensures
      var a, id := Perform(cfg, m, h, WriteNote(payload, attempt, now)).after,
                   cfg.enc.nodeId(Note, Some(h.cursor), attempt, payload);
      && IsForest(m)
      && (a.ended.Returned? <==>
          if cfg.mode == Mode.Record then Precheck(cfg, m, h, Note, payload).Clear? else id in m)
      && (a.ended.Returned? ==>
          && a.handle == h.(cursor := id) && a.nodes.Keys == m.Keys + {id} && a.ended.node == a.nodes[id]
          && (id in m ==> a.nodes == m)
          && (id !in m ==>
                var n := a.nodes[id];
                && n.kind == Note && n.parent == Some(h.cursor) && n.attempt == attempt && n.payload == payload
                && n.result == None && n.meta == map["created_at" := Str(now)]))
  {
    hide WellFormed, Precheck, Refusing, IsForest, Put;
    CallNeedsForest(cfg, m);
    var n := NoteNode(cfg, h.cursor, payload, attempt, now);
    PutOutcome(cfg.enc, m, n);
    forall refusal, log { NotReturned(cfg, m, h, refusal, now, log); }
    assert n.id in m ==> m.Keys == m.Keys + {n.id};
  }
}

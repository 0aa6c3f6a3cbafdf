/**
  Runs that mix V1 saves, legacy submits and outside changes of interactions. A V1 save locks its
  command, agent and interaction and is one step. A legacy submit takes no lock: its reads and its
  writes are two steps.
*/
module WrapupRuns {
  import opened Prelude
  import opened Strings
  import opened Wrapup

  datatype World = World(db: Db, open: seq<LegacyTx>)

  datatype Step =
    | DoSave(actor: Id, resource: string, body: Body, now: int)
    | DoLegacyBegin(actor: Id, resource: string, legacyBody: LegacyBody)
    | DoLegacyCommit(k: nat, now: int)
    | DoOutside(id: Id, interaction: Interaction)
    | DoAgents(agents: set<Id>)

  /** Other code creates and changes interactions as far as the database's triggers let it. */
  predicate OutsideAllowed(db: Db, id: Id, i: Interaction) {
    GuardOk(i, ResultOf(db, id)) && (id in db.interactions ==> i.policy == db.interactions[id].policy)
  }

  function Apply(w: World, s: Step): World {
    match s
    case DoSave(actor, resource, body, now) => w.(db := Save(w.db, actor, resource, body, now).0)
    case DoLegacyBegin(actor, resource, body) =>
      var read := LegacyBegin(w.db, actor, resource, body);
      if read.Go? then w.(open := w.open + [read.tx]) else w
    case DoLegacyCommit(k, now) => if k < |w.open| then w.(db := LegacyCommit(w.db, w.open[k], now)) else w
    case DoOutside(id, i) =>
      if OutsideAllowed(w.db, id, i) then w.(db := w.db.(interactions := w.db.interactions[id := i])) else w
    case DoAgents(agents) => w.(db := w.db.(agents := agents))
  }

  function Run(w: World, steps: seq<Step>): World
    decreases |steps|
  {
    if steps == [] then w else Apply(Run(w, Init(steps)), Last(steps))
  }

  const EMPTY := World(Db({}, map[], map[], [], [], map[]), [])

  // ---- the invariant ----

  /** The completion events of one interaction, as (disposition, command) pairs. */
  function EventsOf(events: seq<Event>, id: Id): seq<(string, Id)> {
    if events == [] then []
    else
      var e := Last(events);
      EventsOf(Init(events), id) + (if e.interaction == id then [(e.disposition, e.commandId)] else [])
  }

  predicate ResultOk(db: Db, id: Id)
    requires id in db.results
  {
    var r := db.results[id];
    && id in db.interactions && GuardOk(db.interactions[id], Some(r))
    && r.commandId in db.receipts && db.receipts[r.commandId] == ReceiptOf(id, r)
    && EventsOf(db.events, id) == [(r.disposition, r.commandId)]
  }

  predicate ReceiptOk(db: Db, c: Id)
    requires c in db.receipts
  {
    db.receipts[c].action == V1_SUBMIT ==>
      db.receipts[c].resource in db.results && db.results[db.receipts[c].resource].commandId == c
  }

  predicate InteractionOk(db: Db, id: Id)
    requires id in db.interactions
  {
    id !in db.results ==>
      && GuardOk(db.interactions[id], None)
      && (db.interactions[id].policy == VOICE_NOTE_V1 ==> EventsOf(db.events, id) == [])
  }

  predicate Legacy(db: Db, id: Id) {
    id in db.interactions && db.interactions[id].policy == LEGACY
  }

  predicate Unknown(db: Db, id: Id) {
    id !in db.interactions ==> id !in db.results && EventsOf(db.events, id) == []
  }

  ghost predicate Inv(w: World) {
    && (forall id :: id in w.db.results ==> ResultOk(w.db, id))
    && (forall c :: c in w.db.receipts ==> ReceiptOk(w.db, c))
    && (forall id :: id in w.db.interactions ==> InteractionOk(w.db, id))
    && (forall id :: Unknown(w.db, id))
    && (forall k :: 0 <= k < |w.open| ==> Legacy(w.db, w.open[k].id))
    && |w.db.events| == |w.db.receipts| == |w.db.stateLogs|
  }

  lemma EventsAppend(events: seq<Event>, e: Event, id: Id)
    ensures EventsOf(events + [e], id)
            == EventsOf(events, id) + (if e.interaction == id then [(e.disposition, e.commandId)] else [])
  {
    assert Init(events + [e]) == events;
  }

  /** What holds of one id, read as an interaction or as a command, carries over to the next state. */
  predicate Carries(db: Db, db': Db, j: Id) {
    && (j in db'.results && (j in db.results ==> ResultOk(db, j)) ==> ResultOk(db', j))
    && (j in db'.interactions && (j in db.interactions ==> InteractionOk(db, j)) ==> InteractionOk(db', j))
    && (j in db'.receipts && (j in db.receipts ==> ReceiptOk(db, j)) ==> ReceiptOk(db', j))
    && (Unknown(db, j) ==> Unknown(db', j))
    && (Legacy(db, j) ==> Legacy(db', j))
  }

  lemma InvCarried(w: World, db': Db)
    requires Inv(w) && forall j :: Carries(w.db, db', j)
    requires |db'.events| == |db'.receipts| == |db'.stateLogs|
    ensures Inv(w.(db := db'))
  {
    assert forall j :: Carries(w.db, db', j) ==> Unknown(w.db, j) ==> Unknown(db', j);
    assert forall j :: Carries(w.db, db', j) ==> Legacy(w.db, j) ==> Legacy(db', j);
    forall j | j in db'.results ensures ResultOk(db', j) { assert Carries(w.db, db', j); }
    forall j | j in db'.interactions ensures InteractionOk(db', j) { assert Carries(w.db, db', j); }
    forall j | j in db'.receipts ensures ReceiptOk(db', j) { assert Carries(w.db, db', j); }
  }

  lemma SaveCarries(db: Db, actor: Id, id: Id, input: Input, now: int, j: Id)
    requires id in db.interactions && id !in db.results && input.commandId !in db.receipts && InteractionOk(db, id)
    requires var i := db.interactions[id]; i.agent == Some(actor) && i.voice && i.policy == VOICE_NOTE_V1
    ensures Carries(db, Saved(db, actor, id, input, now), j)
  {
    EventsAppend(db.events, Event(id, input.disposition, input.commandId, now), j);
  }

  lemma LegacyCarries(db: Db, tx: LegacyTx, now: int, j: Id)
    requires Legacy(db, tx.id) && tx.id !in db.results && Lower(tx.command) !in db.receipts
    ensures Carries(db, LegacyWrites(db, tx, now), j)
  {
    EventsAppend(db.events, Event(tx.id, tx.disposition, tx.command, now), j);
  }

  lemma OutsideCarries(db: Db, id: Id, i: Interaction, j: Id)
    requires OutsideAllowed(db, id, i) && Unknown(db, id)
    ensures Carries(db, db.(interactions := db.interactions[id := i]), j)
  {
  }

  /** Changes that leave the five tables alone. */
  lemma InvSameTables(w: World, w': World)
    requires Inv(w) && w'.db == w.db.(agents := w'.db.agents)
    requires forall k :: 0 <= k < |w'.open| ==> Legacy(w.db, w'.open[k].id)
    ensures Inv(w')
  {
    assert forall id :: id in w.db.results ==> ResultOk(w.db, id) ==> ResultOk(w'.db, id);
    assert forall c :: c in w.db.receipts ==> ReceiptOk(w.db, c) ==> ReceiptOk(w'.db, c);
    assert forall id :: id in w.db.interactions ==> InteractionOk(w.db, id) ==> InteractionOk(w'.db, id);
    assert forall id :: Unknown(w.db, id) ==> Unknown(w'.db, id);
    assert forall id :: Legacy(w.db, id) ==> Legacy(w'.db, id);
  }

  lemma InvSave(w: World, actor: Id, id: Id, input: Input, now: int)
    requires Inv(w) && id in w.db.interactions && id !in w.db.results && input.commandId !in w.db.receipts
    requires var i := w.db.interactions[id]; i.agent == Some(actor) && i.voice && i.policy == VOICE_NOTE_V1
    ensures Inv(w.(db := Saved(w.db, actor, id, input, now)))
  {
    var db, db' := w.db, Saved(w.db, actor, id, input, now);
    assert InteractionOk(db, id);
    forall j ensures Carries(db, db', j) { SaveCarries(db, actor, id, input, now, j); }
    InvCarried(w, db');
  }

  lemma InvLegacy(w: World, tx: LegacyTx, now: int)
    requires Inv(w) && Legacy(w.db, tx.id) && Lower(tx.command) !in w.db.receipts
    ensures Inv(w.(db := LegacyWrites(w.db, tx, now)))
  {
    var db, db' := w.db, LegacyWrites(w.db, tx, now);
    assert tx.id in db.results ==> ResultOk(db, tx.id);
    forall j ensures Carries(db, db', j) { LegacyCarries(db, tx, now, j); }
    InvCarried(w, db');
  }

  lemma InvOutside(w: World, id: Id, i: Interaction)
    requires Inv(w) && OutsideAllowed(w.db, id, i)
    ensures Inv(Apply(w, DoOutside(id, i)))
  {
    var db, db' := w.db, Apply(w, DoOutside(id, i)).db;
    assert Unknown(db, id);
    forall j ensures Carries(db, db', j) { OutsideCarries(db, id, i, j); }
    InvCarried(w, db');
  }

  lemma InvStep(w: World, s: Step)
    requires Inv(w)
    ensures Inv(Apply(w, s))
  {
    match s {
      case DoSave(actor, resource, body, now) =>
        if Apply(w, s) != w { InvSave(w, actor, Lower(resource), InputFrom(body).value, now); }
      case DoLegacyBegin(_, _, _) => InvSameTables(w, Apply(w, s));
      case DoLegacyCommit(k, now) =>
        if Apply(w, s) != w {
          assert Legacy(w.db, w.open[k].id);
          InvLegacy(w, w.open[k], now);
        }
      case DoOutside(id, i) => if OutsideAllowed(w.db, id, i) { InvOutside(w, id, i); }
      case DoAgents(_) => InvSameTables(w, Apply(w, s));
    }
  }

  lemma {:induction false} InvRun(steps: seq<Step>)
    ensures Inv(Run(EMPTY, steps))
    decreases |steps|
  {
    if steps != [] {
      InvRun(Init(steps));
      InvStep(Run(EMPTY, Init(steps)), Last(steps));
    }
  }

  // ---- five tables agree ----

  predicate V1Receipt(db: Db, id: Id, c: Id) {
    c in db.receipts && db.receipts[c].action == V1_SUBMIT && db.receipts[c].resource == id
  }

  /** One result row, one completion event and one V1 receipt, of one command and one disposition. */
  ghost predicate CompletedOnce(db: Db, id: Id)
    requires id in db.interactions
  {
    && id in db.results
    && var r := db.results[id];
    && db.interactions[id].wrapUpCode == Some(r.disposition) && db.interactions[id].agent == Some(r.owner)
    && EventsOf(db.events, id) == [(r.disposition, r.commandId)]
    && (forall c :: V1Receipt(db, id, c) <==> c == r.commandId)
    && r.commandId in db.receipts
    && db.receipts[r.commandId].actor == r.owner && db.receipts[r.commandId].result == SummaryOf(id, r)
  }

  ghost predicate NothingRecorded(db: Db, id: Id) {
    id !in db.results && EventsOf(db.events, id) == [] && forall c :: !V1Receipt(db, id, c)
  }

  /**
    In every reachable state a V1 interaction is COMPLETED exactly when the five tables tell of one
    and the same command, and otherwise they tell of none; a LEGACY interaction never has a result row
    or a V1 receipt.
  */
  lemma FiveTablesAgree(steps: seq<Step>, id: Id)
    requires id in Run(EMPTY, steps).db.interactions
    ensures var db := Run(EMPTY, steps).db;
            var i := db.interactions[id];
            && (i.policy == VOICE_NOTE_V1 ==>
                  && (i.stage == COMPLETED <==> CompletedOnce(db, id))
                  && (i.stage != COMPLETED <==> NothingRecorded(db, id)))
            && (i.policy == LEGACY ==> id !in db.results && forall c :: !V1Receipt(db, id, c))
  {
    InvRun(steps);
    var db := Run(EMPTY, steps).db;
    assert InteractionOk(db, id);
    if id in db.results {
      assert ResultOk(db, id);
      forall c ensures V1Receipt(db, id, c) <==> c == db.results[id].commandId {
        if c in db.receipts { assert ReceiptOk(db, c); }
      }
    } else {
      forall c ensures !V1Receipt(db, id, c) {
        if c in db.receipts { assert ReceiptOk(db, c); }
      }
    }
  }

  /** The k-th event, the k-th state log row and the receipt of the event's command tell of one commit. */
  predicate CommitOk(db: Db, k: nat)
    requires k < |db.events| == |db.stateLogs|
  {
    var e, c := db.events[k], Lower(db.events[k].commandId);
    && c in db.receipts && db.receipts[c].resource == e.interaction && db.receipts[c].result.disposition
       == e.disposition
    && db.stateLogs[k] == StateLog(db.receipts[c].actor, "AVAILABLE", "wrapup_completed")
  }

  predicate CommitsMatch(db: Db) {
    && |db.events| == |db.stateLogs| == |db.receipts|
    && (forall k :: 0 <= k < |db.events| ==> CommitOk(db, k))
    && (forall j, k :: 0 <= j < k < |db.events| ==> Lower(db.events[j].commandId) != Lower(db.events[k].commandId))
  }

  lemma AddCommit(db: Db, db': Db, e: Event, r: Receipt)
    requires CommitsMatch(db) && Lower(e.commandId) !in db.receipts
    requires db'.events == db.events + [e] && db'.receipts == db.receipts[Lower(e.commandId) := r]
    requires db'.stateLogs == db.stateLogs + [StateLog(r.actor, "AVAILABLE", "wrapup_completed")]
    requires r.resource == e.interaction && r.result.disposition == e.disposition
    ensures CommitsMatch(db')
  {
    forall k | 0 <= k < |db.events| ensures CommitOk(db', k) && Lower(db.events[k].commandId) != Lower(e.commandId) {
      assert CommitOk(db, k);
    }
  }

  lemma SaveMatches(db: Db, actor: Id, resource: string, body: Body, now: int)
    requires CommitsMatch(db)
    ensures CommitsMatch(Save(db, actor, resource, body, now).0)
  {
    var db' := Save(db, actor, resource, body, now).0;
    if db' != db {
      var id, input := Lower(resource), InputFrom(body).value;
      LowerTwice(body.commandId.value);
      AddCommit(db, db', Event(id, input.disposition, input.commandId, now),
                ReceiptOf(id, WrapupResult(actor, input.disposition, input.note, now, input.commandId)));
    }
  }

  lemma LegacyMatches(db: Db, tx: LegacyTx, now: int)
    requires CommitsMatch(db)
    ensures CommitsMatch(LegacyCommit(db, tx, now))
  {
    if Lower(tx.command) !in db.receipts {
      AddCommit(db, LegacyCommit(db, tx, now), Event(tx.id, tx.disposition, tx.command, now),
                Receipt(tx.actor, SUBMIT, tx.id, None, Summary(tx.id, None, tx.disposition, None)));
    }
  }

  /**
    On either path every commit leaves one event, one state log row of its actor and one receipt, for
    the same interaction and disposition, and no two events share a command.
  */
  lemma {:induction false} OneOfEachPerCommit(steps: seq<Step>)
    ensures CommitsMatch(Run(EMPTY, steps).db)
    decreases |steps|
  {
    if steps != [] {
      OneOfEachPerCommit(Init(steps));
      var w := Run(EMPTY, Init(steps));
      match Last(steps) {
        case DoSave(actor, resource, body, now) => SaveMatches(w.db, actor, resource, body, now);
        case DoLegacyCommit(k, now) => if k < |w.open| { LegacyMatches(w.db, w.open[k], now); }
        case _ => MatchesFrame(w.db, Run(EMPTY, steps).db);
      }
    }
  }

  lemma MatchesFrame(db: Db, db': Db)
    requires CommitsMatch(db) && db'.events == db.events && db'.stateLogs == db.stateLogs && db'.receipts == db.receipts
    ensures CommitsMatch(db')
  {
    assert forall k :: 0 <= k < |db.events| ==> CommitOk(db, k) ==> CommitOk(db', k);
  }

  // ---- replays ----

  /** Results, receipts and events are never changed or removed. */
  predicate Grows(db: Db, db': Db) {
    && (forall id :: id in db.results ==> id in db'.results && db'.results[id] == db.results[id])
    && (forall c :: c in db.receipts ==> c in db'.receipts && db'.receipts[c] == db.receipts[c])
    && db.events <= db'.events
  }

  lemma SaveGrows(db: Db, actor: Id, resource: string, body: Body, now: int)
    ensures Grows(db, Save(db, actor, resource, body, now).0)
  {
    var db' := Save(db, actor, resource, body, now).0;
    if db' != db { SavedGrows(db, actor, Lower(resource), InputFrom(body).value, now); }
  }

  lemma SavedGrows(db: Db, actor: Id, id: Id, input: Input, now: int)
    requires id in db.interactions && id !in db.results && input.commandId !in db.receipts
    ensures Grows(db, Saved(db, actor, id, input, now))
  {
  }

  lemma LegacyGrows(db: Db, tx: LegacyTx, now: int)
    ensures Grows(db, LegacyCommit(db, tx, now))
  {
  }

  lemma StepGrows(w: World, s: Step)
    ensures Grows(w.db, Apply(w, s).db)
  {
    match s {
      case DoSave(actor, resource, body, now) => SaveGrows(w.db, actor, resource, body, now);
      case DoLegacyCommit(k, now) => if k < |w.open| { LegacyGrows(w.db, w.open[k], now); }
      case _ =>
    }
  }

  lemma {:induction false} RecordsKept(w: World, steps: seq<Step>)
    requires Inv(w)
    ensures Inv(Run(w, steps)) && Grows(w.db, Run(w, steps).db)
    decreases |steps|
  {
    if steps != [] {
      RecordsKept(w, Init(steps));
      StepGrows(Run(w, Init(steps)), Last(steps));
      InvStep(Run(w, Init(steps)), Last(steps));
    }
  }

  /** What a save that succeeded left behind, whether it wrote or replayed. */
  lemma SaveLeaves(w: World, actor: Id, resource: string, body: Body, now: int)
    requires Inv(w) && Save(w.db, actor, resource, body, now).1.Ok?
    ensures var (db', reply) := Save(w.db, actor, resource, body, now);
            var id, input := Lower(resource), InputFrom(body);
            && IsUuid(resource) && input.Some? && id in db'.results && Inv(w.(db := db'))
            && var r := db'.results[id];
            && r == WrapupResult(actor, input.value.disposition, input.value.note, r.recordedAt, input.value.commandId)
            && reply == Ok(View(id, Some(1), Some(r.disposition), Some(r.note), r.recordedAt, SERVER_COMMIT, false))
  {
    InvStep(w, DoSave(actor, resource, body, now));
    var id, input := Lower(resource), InputFrom(body).value;
    if input.commandId in w.db.receipts {
      assert ReceiptOk(w.db, input.commandId);
      assert ResultOk(w.db, id);
    }
  }

  /** The world after a run, a save, and another run. */
  function Later(steps: seq<Step>, first: Step, between: seq<Step>): World {
    Run(Apply(Run(EMPTY, steps), first), between)
  }

  predicate SucceedsAfter(steps: seq<Step>, first: Step) {
    first.DoSave? && Save(Run(EMPTY, steps).db, first.actor, first.resource, first.body, first.now).1.Ok?
  }

  /** The records of a save that succeeded are there for good. */
  lemma SaveLasts(steps: seq<Step>, first: Step, between: seq<Step>)
    requires SucceedsAfter(steps, first)
    ensures var later := Later(steps, first, between);
            var id, input := Lower(first.resource), InputFrom(first.body);
            && Inv(later) && input.Some? && id in later.db.results && ResultOk(later.db, id)
            && var r := later.db.results[id];
            && r.owner == first.actor && r.disposition == input.value.disposition
            && r.note == input.value.note && r.commandId == input.value.commandId
            && Save(Run(EMPTY, steps).db, first.actor, first.resource, first.body, first.now).1
               == Ok(View(id, Some(1), Some(r.disposition), Some(r.note), r.recordedAt, SERVER_COMMIT, false))
  {
    var w := Run(EMPTY, steps);
    InvRun(steps);
    SaveLeaves(w, first.actor, first.resource, first.body, first.now);
    RecordsKept(Apply(w, first), between);
  }

  /**
    Once a save has succeeded, the same command with the same normalised payload returns the same
    result and changes nothing, whatever steps came between, as long as the agent is active. That the
    agent still owns the interaction need not be assumed: the database's guard sees to it.
  */
  lemma ReplayReturnsSameResult(steps: seq<Step>, first: Step, between: seq<Step>, again: Step)
    requires SucceedsAfter(steps, first) && again.DoSave? && again.actor == first.actor
    requires IsUuid(again.resource) && Lower(again.resource) == Lower(first.resource)
    requires InputFrom(again.body) == InputFrom(first.body)
    requires again.actor in Later(steps, first, between).db.agents
    ensures var reply := Save(Run(EMPTY, steps).db, first.actor, first.resource, first.body, first.now).1;
            var later := Later(steps, first, between).db;
            && Save(later, again.actor, again.resource, again.body, again.now) == (later, reply)
            && ReadWrapup(later, again.actor, again.resource) == reply
  {
    SaveLasts(steps, first, between);
  }

  /**
    The command id of a save that succeeded, used with another payload, resource or actor, or on the
    legacy path, is refused and changes nothing.
  */
  lemma ReusedCommandIsRefused(steps: seq<Step>, first: Step, between: seq<Step>, other: Step)
    requires SucceedsAfter(steps, first) && other.DoSave?
    requires InputFrom(other.body).Some? && InputFrom(first.body).Some?
             && InputFrom(other.body).value.commandId == InputFrom(first.body).value.commandId
    requires || other.actor != first.actor || Lower(other.resource) != Lower(first.resource)
             || InputFrom(other.body) != InputFrom(first.body)
    ensures var later := Later(steps, first, between).db;
            && Save(later, other.actor, other.resource, other.body, other.now).0 == later
            && Save(later, other.actor, other.resource, other.body, other.now).1.Err?
  {
    SaveLasts(steps, first, between);
  }

  lemma ReusedCommandIsRefusedByLegacy(
      steps: seq<Step>, first: Step, between: seq<Step>, actor: Id, resource: string, b: LegacyBody)
    requires SucceedsAfter(steps, first) && InputFrom(first.body).Some?
    requires LegacyBodyOk(b) && Lower(b.commandId.value) == InputFrom(first.body).value.commandId
    ensures LegacyBegin(Later(steps, first, between).db, actor, resource, b).Refused?
  {
    SaveLasts(steps, first, between);
  }

  /** Of all commands for one interaction only one ever applies: a second one is refused for good. */
  lemma OneCommandPerInteraction(steps: seq<Step>, first: Step, between: seq<Step>, other: Step)
    requires SucceedsAfter(steps, first) && other.DoSave? && Lower(other.resource) == Lower(first.resource)
    requires InputFrom(other.body).Some? && InputFrom(first.body).Some?
             && InputFrom(other.body).value.commandId != InputFrom(first.body).value.commandId
    ensures var later := Later(steps, first, between).db;
            && Save(later, other.actor, other.resource, other.body, other.now).0 == later
            && Save(later, other.actor, other.resource, other.body, other.now).1.Err?
  {
    SaveLasts(steps, first, between);
    var later := Later(steps, first, between).db;
    var c := InputFrom(other.body).value.commandId;
    assert c in later.receipts ==> ReceiptOk(later, c);
  }

  /** The stored summary is the committed result without its note. */
  lemma CommandReadAgrees(steps: seq<Step>, actor: Id, resource: string, command: string)
    requires var db := Run(EMPTY, steps).db; ReadCommand(db, actor, resource, command).Ok?
    ensures var db := Run(EMPTY, steps).db;
            var view := ReadWrapup(db, actor, resource);
            && view.Ok? && view.value.disposition.Some? && Lower(resource) in db.results
            && ReadCommand(db, actor, resource, command)
               == Ok(Summary(view.value.interaction, view.value.policyVersion,
                             view.value.disposition.value, Some(view.value.recordedAt)))
            && db.results[Lower(resource)].commandId == Lower(command)
  {
    InvRun(steps);
    var db := Run(EMPTY, steps).db;
    assert ReceiptOk(db, Lower(command));
    assert ResultOk(db, Lower(resource));
  }

  // ---- the legacy path ----

  /** Replaying a legacy submit succeeds exactly when the interaction id was typed in lower case. */
  lemma LegacyReplayIff(db: Db, actor: Id, resource: string, b: LegacyBody, now: int)
    requires LegacyBegin(db, actor, resource, b).Go?
    ensures var db' := LegacyCommit(db, LegacyBegin(db, actor, resource, b).tx, now);
            LegacyBegin(db', actor, resource, b) ==
            if resource == Lower(resource) then Replayed(Summary(resource, None, b.disposition.value, None))
            else Refused(CommandIdReused)
  {
  }

  /** A submit whose writes follow its reads completes the interaction, with its disposition. */
  lemma LegacyUndisturbedCompletes(db: Db, actor: Id, resource: string, b: LegacyBody, now: int)
    requires LegacyBegin(db, actor, resource, b).Go?
    ensures var id := Lower(resource);
            var db' := LegacyCommit(db, LegacyBegin(db, actor, resource, b).tx, now);
            && id in db'.interactions && db'.interactions[id].stage == COMPLETED
            && db'.interactions[id].wrapUpCode == b.disposition
            && EventsOf(db'.events, id) == EventsOf(db.events, id) + [(b.disposition.value, b.commandId.value)]
            && forall resource2, b2: LegacyBody :: Lower(resource2) == id ==>
                 !LegacyBegin(db', actor, resource2, b2).Go?
  {
    var tx := LegacyBegin(db, actor, resource, b).tx;
    EventsAppend(db.events, Event(tx.id, tx.disposition, tx.command, now), tx.id);
  }

  /**
    After any run, a submit that has read records exactly if its command has no receipt by then, whatever
    has become of the interaction in the meantime: one event, one receipt, one state log row. Only the
    interaction is left alone unless it is still in wrap-up with the same agent.
  */
  lemma LegacyRecordsIff(steps: seq<Step>, k: nat, now: int)
    requires k < |Run(EMPTY, steps).open|
    ensures var w := Run(EMPTY, steps);
            var tx, db, db' := w.open[k], w.db, Apply(w, DoLegacyCommit(k, now)).db;
            var records := Lower(tx.command) !in db.receipts;
            && Legacy(db, tx.id) && Lower(tx.command) in db'.receipts
            && (db' != db <==> records)
            && EventsOf(db'.events, tx.id)
               == EventsOf(db.events, tx.id) + (if records then [(tx.disposition, tx.command)] else [])
            && |db'.receipts| == |db.receipts| + (if records then 1 else 0)
            && (db'.interactions != db.interactions ==>
                  records && CanComplete(db, tx) && tx.id in db'.interactions && db'.interactions[tx.id].stage
                    == COMPLETED
                  && db'.interactions[tx.id].wrapUpCode == Some(tx.disposition))
  {
    InvRun(steps);
    var w := Run(EMPTY, steps);
    var tx := w.open[k];
    assert Legacy(w.db, tx.id);
    EventsAppend(w.db.events, Event(tx.id, tx.disposition, tx.command, now), tx.id);
  }

  predicate CanComplete(db: Db, tx: LegacyTx) {
    InWrapupOf(db.interactions, tx.id, tx.actor)
  }

  /** The orders of two submits of which the first one reads first; in the others the two change names. */
  datatype Order = OneAfterTheOther | FirstWritesFirst | SecondWritesFirst

  datatype Submit = Submit(actor: Id, resource: string, body: LegacyBody)

  function ReadOf(a: Submit): Step { DoLegacyBegin(a.actor, a.resource, a.body) }

  /** `n` transactions have read before; the two writes have times of their own. */
  function RaceSteps(n: nat, a: Submit, b: Submit, atA: int, atB: int, order: Order): seq<Step> {
    var writeA, writeB := DoLegacyCommit(n, atA), DoLegacyCommit(n + 1, atB);
    match order
    case OneAfterTheOther => [ReadOf(a), writeA, ReadOf(b), writeB]
    case FirstWritesFirst => [ReadOf(a), ReadOf(b), writeA, writeB]
    case SecondWritesFirst => [ReadOf(a), ReadOf(b), writeB, writeA]
  }

  /** The database after a race, the receipts it has of the two, and how many events it has more. */
  predicate RaceEnds(db: Db, end: Db, id: Id, a: LegacyTx, b: LegacyTx, order: Order) {
    var both := order != OneAfterTheOther;
    && Lower(a.command) in end.receipts && (Lower(b.command) in end.receipts <==> both)
    && |end.receipts| == |db.receipts| + (if both then 2 else 1)
    && |EventsOf(end.events, id)| == |EventsOf(db.events, id)| + (if both then 2 else 1)
    && id in end.interactions && end.interactions[id].stage == COMPLETED
    && end.interactions[id].wrapUpCode == Some(if order == SecondWritesFirst then b.disposition else a.disposition)
  }

  /**
    In any world, two legacy submits of one interaction with different commands, either of which alone
    would go through: both record exactly when both have read before either writes. The disposition of
    the one that writes first stays.
  */
  lemma BothRecordIff(w: World, a: Submit, b: Submit, atA: int, atB: int, order: Order)
    requires LegacyBegin(w.db, a.actor, a.resource, a.body).Go? && LegacyBegin(w.db, b.actor, b.resource, b.body).Go?
    requires Lower(a.resource) == Lower(b.resource)
    requires Lower(a.body.commandId.value) != Lower(b.body.commandId.value)
    ensures var ta := LegacyBegin(w.db, a.actor, a.resource, a.body).tx;
            var tb := LegacyBegin(w.db, b.actor, b.resource, b.body).tx;
            var end := Run(w, RaceSteps(|w.open|, a, b, atA, atB, order));
            RaceEnds(w.db, end.db, Lower(a.resource), ta, tb, order)
  {
    var n := |w.open|;
    var ta := LegacyBegin(w.db, a.actor, a.resource, a.body).tx;
    var tb := LegacyBegin(w.db, b.actor, b.resource, b.body).tx;
    SubmitReads(w, a);
    SubmitReads(Apply(w, ReadOf(a)), b);
    if order == OneAfterTheOther {
      RunFour(w, ReadOf(a), DoLegacyCommit(n, atA), ReadOf(b), DoLegacyCommit(n + 1, atB));
      SerialSubmits(Apply(w, ReadOf(a)), n, ta, b, atA, atB);
    } else {
      var both := w.(open := w.open + [ta] + [tb]);
      assert both == Apply(Apply(w, ReadOf(a)), ReadOf(b));
      Overlap(w, both, a, b, ta, tb, atA, atB, order);
    }
  }

  lemma Overlap(w: World, both: World, a: Submit, b: Submit, ta: LegacyTx, tb: LegacyTx, atA: int, atB: int,
      order: Order)
    requires both == Apply(Apply(w, ReadOf(a)), ReadOf(b)) && both.db == w.db && order != OneAfterTheOther
    requires var n := |w.open|; |both.open| == n + 2 && both.open[n] == ta && both.open[n + 1] == tb
    requires Lower(ta.command) !in w.db.receipts && Lower(tb.command) !in w.db.receipts
    requires Lower(ta.command) != Lower(tb.command)
    requires ta.id == tb.id && CanComplete(w.db, ta) && CanComplete(w.db, tb)
    ensures RaceEnds(w.db, Run(w, RaceSteps(|w.open|, a, b, atA, atB, order)).db, ta.id, ta, tb, order)
  {
    var n := |w.open|;
    if order == FirstWritesFirst {
      RunFour(w, ReadOf(a), ReadOf(b), DoLegacyCommit(n, atA), DoLegacyCommit(n + 1, atB));
      TwoCommits(both, n, n + 1, ta, tb, atA, atB);
    } else {
      RunFour(w, ReadOf(a), ReadOf(b), DoLegacyCommit(n + 1, atB), DoLegacyCommit(n, atA));
      TwoCommits(both, n + 1, n, tb, ta, atB, atA);
    }
  }

  /** What a submit that will write has read. */
  lemma SubmitReads(w: World, a: Submit)
    requires LegacyBegin(w.db, a.actor, a.resource, a.body).Go?
    ensures var tx := LegacyBegin(w.db, a.actor, a.resource, a.body).tx;
            && Apply(w, ReadOf(a)) == w.(open := w.open + [tx])
            && CanComplete(w.db, tx) && Lower(tx.command) !in w.db.receipts
            && tx.id == Lower(a.resource) && tx.command == a.body.commandId.value
  {
  }

  /** After the submit that read last has written, another one is refused. */
  lemma SerialSubmits(w: World, n: nat, ta: LegacyTx, b: Submit, atA: int, atB: int)
    requires |w.open| == n + 1 && w.open[n] == ta
    requires Lower(ta.command) !in w.db.receipts && CanComplete(w.db, ta) && Lower(b.resource) == ta.id
    requires LegacyBegin(w.db, b.actor, b.resource, b.body).Go?
    requires Lower(ta.command) != Lower(b.body.commandId.value)
    ensures var w' := Apply(w, DoLegacyCommit(n, atA));
            && Apply(Apply(w', ReadOf(b)), DoLegacyCommit(n + 1, atB)) == w'
            && RaceEnds(w.db, w'.db, ta.id, ta, LegacyBegin(w.db, b.actor, b.resource, b.body).tx, OneAfterTheOther)
  {
    EventsAppend(w.db.events, Event(ta.id, ta.disposition, ta.command, atA), ta.id);
  }

  /** Two submits that have both read write one after the other, `ta` before `tb`. */
  lemma TwoCommits(w: World, i: nat, j: nat, ta: LegacyTx, tb: LegacyTx, atA: int, atB: int)
    requires i < |w.open| && j < |w.open| && w.open[i] == ta && w.open[j] == tb
    requires Lower(ta.command) !in w.db.receipts && Lower(tb.command) !in w.db.receipts
    requires Lower(ta.command) != Lower(tb.command)
    requires ta.id == tb.id && CanComplete(w.db, ta)
    ensures var end := Apply(Apply(w, DoLegacyCommit(i, atA)), DoLegacyCommit(j, atB)).db;
            && RaceEnds(w.db, end, ta.id, ta, tb, FirstWritesFirst)
            && RaceEnds(w.db, end, ta.id, tb, ta, SecondWritesFirst)
  {
    var db1 := LegacyWrites(w.db, ta, atA);
    EventsAppend(w.db.events, Event(ta.id, ta.disposition, ta.command, atA), ta.id);
    EventsAppend(db1.events, Event(tb.id, tb.disposition, tb.command, atB), ta.id);
  }

  lemma RunFour(w: World, a: Step, b: Step, c: Step, d: Step)
    ensures Run(w, [a, b, c, d]) == Apply(Apply(Apply(Apply(w, a), b), c), d)
  {
    assert Init([a, b, c, d]) == [a, b, c] && Init([a, b, c]) == [a, b] && Init([a, b]) == [a] && Init([a]) == [];
    assert Run(w, []) == w && Run(w, [a]) == Apply(w, a) && Run(w, [a, b]) == Apply(Apply(w, a), b);
    assert Run(w, [a, b, c]) == Apply(Apply(Apply(w, a), b), c);
  }
}
